/**
  One convergence pass of the Agent: save the ETag, clean up what Core took
  away, then verify and deliver every envelope, reporting each outcome.
 */
module Sync {
  import opened Common
  import opened FileTree
  import opened Materializer
  import opened Cleanup
  import Strings

  datatype Bundle = Bundle(app: string, env: string, files: seq<PayloadFile>)

  /** `bundle` is None when verifying, decrypting or parsing the envelope, or
      checking its manifest, raises. */
  datatype Incoming = Incoming(revisionId: string, bundle: Option<Bundle>)

  /** `stopped`: the environment let every unit be stopped; `acknowledged`: Core
      accepted the cleaned report when it was sent. */
  datatype Instruction = Instruction(assignmentId: string, app: string, env: string, stopped: bool, acknowledged: bool)

  datatype Response =
    | NotModified
    | Desired(etag: string, cleanup: seq<Instruction>, envelopes: seq<Incoming>)

  datatype Call =
    | CleanupReport(assignmentId: string, cleaned: bool)
    | ActivationReport(revisionId: string, ok: bool)

  function ManifestName(app: string, env: string): string {
    app + "_" + env + ".json"
  }

  /** Identifiers without an underscore never share a manifest file. */
  lemma ManifestNamesDiffer(a: string, e: string, b: string, f: string)
    requires '_' !in a && '_' !in b && ManifestName(a, e) == ManifestName(b, f)
    ensures a == b && e == f
  {
    NameStart(a, e);
    NameStart(b, f);
    var n := ManifestName(a, e);
    assert e == n[|a| + 1..|n| - 5] == f;
  }

  lemma NameStart(app: string, env: string)
    requires '_' !in app
    ensures Strings.Split(ManifestName(app, env), '_')[0] == app
  {
    var rest := "_" + env + ".json";
    assert ManifestName(app, env) == app + rest;
    Strings.SplitPrefix(app, rest, '_');
  }

  // --- What cleanup means -----------------------------------------------------

  /** What the pass changes on the node: the disk and the saved manifests. */
  datatype Local = Local(tree: Tree, manifests: map<string, seq<ManifestEntry>>)

  /** The recorded files of one bundle that are still as the Agent wrote them. */
  function Recorded(l: Local, root: Path, sha: Bytes -> string, name: string): set<Path> {
    if name in l.manifests then RemovalSet(l.tree, root, l.manifests[name], sha) else {}
  }

  function NameOf(i: Instruction): string {
    ManifestName(i.app, i.env)
  }

  /** Everything the instructions take away. */
  function Obsolete(l: Local, root: Path, sha: Bytes -> string, cleanup: seq<Instruction>): set<Path> {
    if cleanup == [] then {}
    else
      var last := cleanup[|cleanup| - 1];
      Obsolete(l, root, sha, cleanup[..|cleanup| - 1]) + if last.stopped then Recorded(l, root, sha, NameOf(last)) else {}
  }

  /** The manifests that go with it. */
  function Dropped(cleanup: seq<Instruction>): set<string> {
    if cleanup == [] then {}
    else
      var last := cleanup[|cleanup| - 1];
      Dropped(cleanup[..|cleanup| - 1]) + if last.stopped then {NameOf(last)} else {}
  }

  function Cleaned(l: Local, gone: set<Path>, cleanup: seq<Instruction>): Local {
    Local(l.tree - gone, l.manifests - Dropped(cleanup))
  }

  /** What one instruction makes the Agent send: a cleaned report that Core does
      not accept is followed by a failed one. */
  function CallsOf(i: Instruction): seq<Call> {
    if !i.stopped then [CleanupReport(i.assignmentId, false)]
    else if i.acknowledged then [CleanupReport(i.assignmentId, true)]
    else [CleanupReport(i.assignmentId, true), CleanupReport(i.assignmentId, false)]
  }

  function CleanupCalls(cleanup: seq<Instruction>): seq<Call> {
    if cleanup == [] then []
    else CleanupCalls(cleanup[..|cleanup| - 1]) + CallsOf(cleanup[|cleanup| - 1])
  }

  /** `gone` of the obsolete files are removed, none of them stuck, and on a steady
      disk all that are not. */
  ghost predicate PartlyCleaned(l: Local, now: Local, root: Path, sha: Bytes -> string, cleanup: seq<Instruction>,
                                gone: set<Path>, stuck: set<Path>, steady: bool)
  {
    && gone <= Obsolete(l, root, sha, cleanup) && gone !! stuck
    && (steady ==> gone == Obsolete(l, root, sha, cleanup) - stuck)
    && now == Cleaned(l, gone, cleanup)
  }

  lemma {:induction false} DroppedIsObsolete(l: Local, root: Path, sha: Bytes -> string, cleanup: seq<Instruction>, name: string)
    requires name in Dropped(cleanup)
    ensures Recorded(l, root, sha, name) <= Obsolete(l, root, sha, cleanup)
  {
    var last := cleanup[|cleanup| - 1];
    if !last.stopped || name != NameOf(last) {
      DroppedIsObsolete(l, root, sha, cleanup[..|cleanup| - 1], name);
    }
  }

  lemma {:induction false} ObsoleteFiles(l: Local, root: Path, sha: Bytes -> string, cleanup: seq<Instruction>)
    ensures forall p :: p in Obsolete(l, root, sha, cleanup) ==> p in l.tree && l.tree[p].Regular?
  {
    if cleanup != [] {
      ObsoleteFiles(l, root, sha, cleanup[..|cleanup| - 1]);
      var name := NameOf(cleanup[|cleanup| - 1]);
      if name in l.manifests {
        RemovalSetFiles(l.tree, root, l.manifests[name], sha);
      }
    }
  }

  /** What a later instruction still finds of its files. */
  lemma RecordedLater(l: Local, root: Path, sha: Bytes -> string, cleanup: seq<Instruction>, gone: set<Path>, name: string)
    requires gone <= Obsolete(l, root, sha, cleanup)
    ensures Recorded(Cleaned(l, gone, cleanup), root, sha, name) ==
      if name in Dropped(cleanup) then {} else Recorded(l, root, sha, name) - gone
  {
    if name !in Dropped(cleanup) && name in l.manifests {
      ObsoleteFiles(l, root, sha, cleanup);
      RemovalSetLater(l.tree, gone, root, l.manifests[name], sha);
    }
  }

  lemma InstructionTurn(l: Local, mid: Local, root: Path, sha: Bytes -> string, cleanup: seq<Instruction>, k: nat,
                        gone: set<Path>, more: set<Path>, stuck: set<Path>, steady: bool)
    requires k < |cleanup| && PartlyCleaned(l, mid, root, sha, cleanup[..k], gone, stuck, steady)
    requires cleanup[k].stopped
    requires more <= Recorded(mid, root, sha, NameOf(cleanup[k])) && more !! stuck
    requires steady ==> more == Recorded(mid, root, sha, NameOf(cleanup[k])) - stuck
    ensures PartlyCleaned(l, Local(mid.tree - more, mid.manifests - {NameOf(cleanup[k])}), root, sha, cleanup[..k + 1],
                          gone + more, stuck, steady)
  {
    var name := NameOf(cleanup[k]);
    assert cleanup[..k + 1][..k] == cleanup[..k];
    RecordedLater(l, root, sha, cleanup[..k], gone, name);
    if name in Dropped(cleanup[..k]) {
      DroppedIsObsolete(l, root, sha, cleanup[..k], name);
    }
    assert l.tree - gone - more == l.tree - (gone + more);
    assert l.manifests - Dropped(cleanup[..k]) - {name} == l.manifests - Dropped(cleanup[..k + 1]);
  }

  lemma SkippedTurn(l: Local, mid: Local, root: Path, sha: Bytes -> string, cleanup: seq<Instruction>, k: nat,
                    gone: set<Path>, stuck: set<Path>, steady: bool)
    requires k < |cleanup| && PartlyCleaned(l, mid, root, sha, cleanup[..k], gone, stuck, steady) && !cleanup[k].stopped
    ensures PartlyCleaned(l, mid, root, sha, cleanup[..k + 1], gone, stuck, steady)
    ensures Obsolete(l, root, sha, cleanup[..k + 1]) == Obsolete(l, root, sha, cleanup[..k])
  {
    assert cleanup[..k + 1][..k] == cleanup[..k];
  }

  /** How far a cleanup has come, and every state on the way. */
  ghost predicate Cleansed(l: Local, now: Local, trace: seq<Tree>, start: nat, root: Path, sha: Bytes -> string,
                           cleanup: seq<Instruction>, gone: set<Path>, stuck: set<Path>, steady: bool)
  {
    && PartlyCleaned(l, now, root, sha, cleanup, gone, stuck, steady)
    && ShrunkSince(trace, start, l.tree, Obsolete(l, root, sha, cleanup))
  }

  lemma CleansedFirst(l: Local, trace: seq<Tree>, root: Path, sha: Bytes -> string, stuck: set<Path>, steady: bool)
    ensures Cleansed(l, l, trace, |trace|, root, sha, [], {}, stuck, steady)
  {
    assert l.tree - {} == l.tree && l.manifests - Dropped([]) == l.manifests;
  }

  /** The states of one instruction among those of the whole cleanup. */
  lemma ShrunkTurn(l: Local, root: Path, sha: Bytes -> string, cleanup: seq<Instruction>, k: nat, gone: set<Path>,
                   earlier: seq<Tree>, trace: seq<Tree>, start: nat)
    requires k < |cleanup| && cleanup[k].stopped && gone <= Obsolete(l, root, sha, cleanup[..k])
    requires earlier <= trace && ShrunkSince(earlier, start, l.tree, Obsolete(l, root, sha, cleanup[..k]))
    requires ShrunkSince(trace, |earlier|, l.tree - gone,
                         Recorded(Cleaned(l, gone, cleanup[..k]), root, sha, NameOf(cleanup[k])))
    ensures ShrunkSince(trace, start, l.tree, Obsolete(l, root, sha, cleanup[..k + 1]))
  {
    var small, whole := Obsolete(l, root, sha, cleanup[..k]), Obsolete(l, root, sha, cleanup[..k + 1]);
    var name := NameOf(cleanup[k]);
    assert cleanup[..k + 1][..k] == cleanup[..k];
    RecordedLater(l, root, sha, cleanup[..k], gone, name);
    ShrunkOnward(l.tree, gone, Recorded(Cleaned(l, gone, cleanup[..k]), root, sha, name), small, whole, earlier, trace, start);
  }

  lemma ShrunkOnward(t: Tree, gone: set<Path>, more: set<Path>, small: set<Path>, whole: set<Path>,
                     earlier: seq<Tree>, trace: seq<Tree>, start: nat)
    requires earlier <= trace && ShrunkSince(earlier, start, t, small) && ShrunkSince(trace, |earlier|, t - gone, more)
    requires small <= whole && gone <= whole && more <= whole
    ensures ShrunkSince(trace, start, t, whole)
  {
    forall i | start <= i < |trace| ensures Shrunk(t, trace[i], whole) {
      if i < |earlier| {
        assert trace[i] == earlier[i];
        ShrunkMore(t, earlier[i], small, whole);
      } else {
        var g :| g <= more && trace[i] == t - gone - g;
        assert t - gone - g == t - (gone + g);
        ShrunkBy(t, trace[i], whole, gone + g);
      }
    }
  }

  lemma {:induction false} ObsoleteWellFormed(l: Local, gone: set<Path>, root: Path, sha: Bytes -> string, cleanup: seq<Instruction>)
    requires WellFormed(l.tree) && gone <= Obsolete(l, root, sha, cleanup)
    ensures WellFormed(l.tree - gone)
    ensures forall p :: IsDir(l.tree - gone, p) <==> IsDir(l.tree, p)
    ensures NoLinkOnRoot(l.tree, root) ==> NoLinkOnRoot(l.tree - gone, root)
  {
    ObsoleteFiles(l, root, sha, cleanup);
    var u := l.tree - gone;
    forall p | p in u && p != [] ensures IsDir(u, Parent(p)) {
      assert IsDir(l.tree, Parent(p));
    }
  }

  // --- What delivery means ----------------------------------------------------

  function DeliverOne(l: Local, root: Path, b: Bundle): Local
    requires Parsed(b.files)
  {
    Local(Installed(MakeDirs(l.tree, [], root), root, b.files),
          l.manifests[ManifestName(b.app, b.env) := ManifestOf(b.files)])
  }

  /** Nothing is wrong with the bundle itself. */
  predicate Sound(b: Bundle, sha: Bytes -> string) {
    Parsed(b.files) && AllPathsValid(b.files) && AllHashesMatch(b.files, sha)
  }

  /** _activate_envelope of an envelope that opens to `b`, from `above` to `now`. */
  ghost predicate Activated(above: Local, now: Local, root: Path, sha: Bytes -> string, b: Bundle, ok: bool, faultFree: bool)
  {
    && Framed(above.tree, now.tree, root, b.files)
    && (ok || faultFree ==> Confined(above.tree, now.tree, root, b.files))
    && (RootUsable(above.tree, root) ==> RootUsable(now.tree, root))
    && (!ok ==> now.manifests == above.manifests)
    && (ok ==> Sound(b, sha) && now.manifests == above.manifests[ManifestName(b.app, b.env) := ManifestOf(b.files)])
    && (ok && Kept(above.tree, root, b.files) ==> Deliverable(above.tree, root, b.files) && now == DeliverOne(above, root, b))
    && (faultFree && Sound(b, sha) && Fits(above.tree, root, b.files) ==> ok)
  }

  /** The disk lets the files be delivered, whatever names mkstemp draws. */
  ghost predicate Fits(t: Tree, root: Path, files: seq<PayloadFile>)
    requires Parsed(files)
  {
    Deliverable(t, root, files) && Kept(t, root, files) && Room(t, root, files)
  }

  /** One turn of the envelope loop. */
  ghost predicate Turn(above: Local, now: Local, root: Path, sha: Bytes -> string, incoming: Incoming, ok: bool,
                       faultFree: bool)
  {
    && WellFormed(above.tree) && WellFormed(now.tree)
    && match incoming.bundle
       case None => !ok && now == above
       case Some(b) => Activated(above, now, root, sha, b, ok, faultFree)
  }

  predicate ReportsFor(calls: seq<Call>, envelopes: seq<Incoming>) {
    && |calls| == |envelopes|
    && forall k :: 0 <= k < |envelopes| ==> calls[k].ActivationReport? && calls[k].revisionId == envelopes[k].revisionId
  }

  /** `states`: the node before the first envelope and after each. */
  ghost predicate History(states: seq<Local>, root: Path, sha: Bytes -> string, envelopes: seq<Incoming>, reports: seq<Call>,
                          faultFree: bool)
  {
    && |states| == |envelopes| + 1 && ReportsFor(reports, envelopes)
    && forall k :: 0 <= k < |envelopes| ==> TurnAt(states, root, sha, envelopes, reports, faultFree, k)
  }

  ghost predicate TurnAt(states: seq<Local>, root: Path, sha: Bytes -> string, envelopes: seq<Incoming>, reports: seq<Call>,
                         faultFree: bool, k: nat)
    requires k < |envelopes| && |states| == |envelopes| + 1 && ReportsFor(reports, envelopes)
  {
    Turn(states[k], states[k + 1], root, sha, envelopes[k], reports[k].ok, faultFree)
  }

  lemma HistoryStep(states: seq<Local>, root: Path, sha: Bytes -> string, envelopes: seq<Incoming>, reports: seq<Call>,
                    faultFree: bool, k: nat, now: Local, ok: bool)
    requires k < |envelopes| && History(states, root, sha, envelopes[..k], reports, faultFree)
    requires Turn(states[k], now, root, sha, envelopes[k], ok, faultFree)
    ensures History(states + [now], root, sha, envelopes[..k + 1], reports + [ActivationReport(envelopes[k].revisionId, ok)],
                    faultFree)
  {
    var after, all := states + [now], reports + [ActivationReport(envelopes[k].revisionId, ok)];
    var next := envelopes[..k + 1];
    forall j | 0 <= j < |next| ensures TurnAt(after, root, sha, next, all, faultFree, j) {
      if j < k {
        assert TurnAt(states, root, sha, envelopes[..k], reports, faultFree, j);
        assert after[j] == states[j] && after[j + 1] == states[j + 1] && all[j] == reports[j];
      }
    }
  }

  function FailedReports(calls: seq<Call>): nat {
    if calls == [] then 0
    else
      var last := calls[|calls| - 1];
      FailedReports(calls[..|calls| - 1]) + (if last.ActivationReport? && !last.ok then 1 else 0)
  }

  lemma FailedReportsAppend(calls: seq<Call>, c: Call)
    ensures FailedReports(calls + [c]) == FailedReports(calls) + (if c.ActivationReport? && !c.ok then 1 else 0)
  {
    assert (calls + [c])[..|calls|] == calls;
  }

  function FilesOf(incoming: Incoming): seq<PayloadFile> {
    match incoming.bundle case None => [] case Some(b) => b.files
  }

  /** The turns so far, the failures among them, and the last revision delivered. */
  ghost predicate Progress(states: seq<Local>, root: Path, sha: Bytes -> string, envelopes: seq<Incoming>, reports: seq<Call>,
                           faultFree: bool, failed: nat, revision: string)
  {
    && History(states, root, sha, envelopes, reports, faultFree) && failed == FailedReports(reports)
    && LastActivated(reports, revision)
  }

  predicate SaysOk(c: Call) {
    c.ActivationReport? && c.ok
  }

  /** The revision of the last report that says ok; none says so, no revision. */
  ghost predicate LastActivated(reports: seq<Call>, revision: string) {
    || (revision == "" && forall k :: 0 <= k < |reports| ==> !SaysOk(reports[k]))
    || exists k :: LastOkAt(reports, k) && reports[k].revisionId == revision
  }

  ghost predicate LastOkAt(reports: seq<Call>, k: int) {
    0 <= k < |reports| && SaysOk(reports[k]) && forall m :: k < m < |reports| ==> !SaysOk(reports[m])
  }

  lemma LastActivatedAppend(reports: seq<Call>, revision: string, c: Call)
    requires LastActivated(reports, revision) && c.ActivationReport?
    ensures LastActivated(reports + [c], if c.ok then c.revisionId else revision)
  {
    var all := reports + [c];
    if c.ok {
      assert LastOkAt(all, |reports|);
    } else if k :| LastOkAt(reports, k) && reports[k].revisionId == revision {
      assert LastOkAt(all, k);
    }
  }

  lemma ProgressStep(states: seq<Local>, root: Path, sha: Bytes -> string, envelopes: seq<Incoming>, reports: seq<Call>,
                     faultFree: bool, k: nat, now: Local, ok: bool, failed: nat, revision: string)
    requires k < |envelopes| && Progress(states, root, sha, envelopes[..k], reports, faultFree, failed, revision)
    requires Turn(states[k], now, root, sha, envelopes[k], ok, faultFree)
    ensures Progress(states + [now], root, sha, envelopes[..k + 1], reports + [ActivationReport(envelopes[k].revisionId, ok)],
                     faultFree, if ok then failed else failed + 1, if ok then envelopes[k].revisionId else revision)
  {
    HistoryStep(states, root, sha, envelopes, reports, faultFree, k, now, ok);
    FailedReportsAppend(reports, ActivationReport(envelopes[k].revisionId, ok));
    LastActivatedAppend(reports, revision, ActivationReport(envelopes[k].revisionId, ok));
  }

  lemma CallsAppend(first: seq<Call>, reports: seq<Call>, c: Call)
    ensures (first + reports) + [c] == first + (reports + [c])
  {}

  /** The files of the envelopes that open. */
  function OpenedFiles(envelopes: seq<Incoming>): seq<PayloadFile> {
    if envelopes == [] then []
    else OpenedFiles(envelopes[..|envelopes| - 1]) + FilesOf(envelopes[|envelopes| - 1])
  }

  ghost predicate Within(part: seq<PayloadFile>, all: seq<PayloadFile>) {
    forall i :: 0 <= i < |part| ==> part[i] in all
  }

  lemma {:induction false} OpenedWithin(envelopes: seq<Incoming>, k: nat)
    requires k < |envelopes|
    ensures Within(FilesOf(envelopes[k]), OpenedFiles(envelopes))
    decreases |envelopes|
  {
    var init := envelopes[..|envelopes| - 1];
    if k < |init| {
      assert init[k] == envelopes[k];
      OpenedWithin(init, k);
    }
  }

  // --- A pass that fails nothing ----------------------------------------------

  /** The node after every envelope is delivered in turn. */
  function DeliverAll(l: Local, root: Path, envelopes: seq<Incoming>): Local {
    if envelopes == [] then l
    else
      var n := |envelopes| - 1;
      var before := DeliverAll(l, root, envelopes[..n]);
      match envelopes[n].bundle
      case None => before
      case Some(b) => if Parsed(b.files) then DeliverOne(before, root, b) else before
  }

  /** When its turn comes, no draw can hit a destination of any bundle. */
  ghost predicate KeptInTurn(l: Local, root: Path, envelopes: seq<Incoming>) {
    envelopes == [] ||
    var n := |envelopes| - 1;
    && KeptInTurn(l, root, envelopes[..n])
    && match envelopes[n].bundle
       case None => true
       case Some(b) => Parsed(b.files) ==> Kept(DeliverAll(l, root, envelopes[..n]).tree, root, b.files)
  }

  /** When its turn comes, every bundle opens, is sound and fits on the disk. */
  ghost predicate ReadyInTurn(l: Local, root: Path, sha: Bytes -> string, envelopes: seq<Incoming>) {
    envelopes == [] ||
    var n := |envelopes| - 1;
    && ReadyInTurn(l, root, sha, envelopes[..n])
    && envelopes[n].bundle.Some? && Sound(envelopes[n].bundle.value, sha)
    && Fits(DeliverAll(l, root, envelopes[..n]).tree, root, envelopes[n].bundle.value.files)
  }

  predicate AllOk(reports: seq<Call>) {
    forall k :: 0 <= k < |reports| ==> reports[k].ActivationReport? && reports[k].ok
  }

  lemma AllOkLast(reports: seq<Call>)
    requires reports != []
    ensures AllOk(reports) <==>
      AllOk(reports[..|reports| - 1]) && reports[|reports| - 1].ActivationReport? && reports[|reports| - 1].ok
  {
    var n := |reports| - 1;
    assert forall k :: 0 <= k < n ==> reports[..n][k] == reports[k];
  }

  lemma {:induction false} NoneFailed(reports: seq<Call>)
    requires forall k :: 0 <= k < |reports| ==> reports[k].ActivationReport?
    ensures FailedReports(reports) == 0 <==> AllOk(reports)
  {
    if reports != [] {
      NoneFailed(reports[..|reports| - 1]);
      AllOkLast(reports);
    }
  }

  lemma {:induction false} HistoryInit(states: seq<Local>, root: Path, sha: Bytes -> string, envelopes: seq<Incoming>, reports: seq<Call>,
                    faultFree: bool, k: nat)
    requires History(states, root, sha, envelopes, reports, faultFree) && k <= |envelopes|
    ensures History(states[..k + 1], root, sha, envelopes[..k], reports[..k], faultFree)
  {
    var before, first, said := states[..k + 1], envelopes[..k], reports[..k];
    forall j | 0 <= j < k ensures TurnAt(before, root, sha, first, said, faultFree, j) {
      assert TurnAt(states, root, sha, envelopes, reports, faultFree, j);
      assert before[j] == states[j] && before[j + 1] == states[j + 1];
    }
  }

  /** A pass that fails nothing leaves exactly the specified disk and manifests. */
  lemma {:induction false} NothingFailedDelivers(
    states: seq<Local>, root: Path, sha: Bytes -> string, envelopes: seq<Incoming>, reports: seq<Call>, faultFree: bool)
    requires History(states, root, sha, envelopes, reports, faultFree)
    requires AllOk(reports)
    requires KeptInTurn(states[0], root, envelopes)
    ensures states[|envelopes|] == DeliverAll(states[0], root, envelopes)
    decreases |envelopes|
  {
    if envelopes != [] {
      var n := |envelopes| - 1;
      HistoryInit(states, root, sha, envelopes, reports, faultFree, n);
      NothingFailedDelivers(states[..n + 1], root, sha, envelopes[..n], reports[..n], faultFree);
      assert TurnAt(states, root, sha, envelopes, reports, faultFree, n);
    }
  }

  /** On a healthy disk a pass whose bundles are ready in turn fails nothing,
      whatever became of the cleanup before it. */
  lemma {:induction false} ReadyNeverFails(
    states: seq<Local>, root: Path, sha: Bytes -> string, envelopes: seq<Incoming>, reports: seq<Call>)
    requires History(states, root, sha, envelopes, reports, true) && ReadyInTurn(states[0], root, sha, envelopes)
    ensures AllOk(reports)
    ensures states[|envelopes|] == DeliverAll(states[0], root, envelopes)
    decreases |envelopes|
  {
    if envelopes != [] {
      var n := |envelopes| - 1;
      HistoryInit(states, root, sha, envelopes, reports, true, n);
      ReadyNeverFails(states[..n + 1], root, sha, envelopes[..n], reports[..n]);
      assert TurnAt(states, root, sha, envelopes, reports, true, n);
      LastTurnReady(states[n], states[n + 1], root, sha, envelopes, reports[n].ok);
      AllOkLast(reports);
    }
  }

  lemma LastTurnReady(above: Local, now: Local, root: Path, sha: Bytes -> string, envelopes: seq<Incoming>, ok: bool)
    requires envelopes != [] && envelopes[|envelopes| - 1].bundle.Some?
    requires Turn(above, now, root, sha, envelopes[|envelopes| - 1], ok, true)
    requires Sound(envelopes[|envelopes| - 1].bundle.value, sha)
    requires Fits(above.tree, root, envelopes[|envelopes| - 1].bundle.value.files)
    ensures ok && now == DeliverOne(above, root, envelopes[|envelopes| - 1].bundle.value)
  {}

  lemma HistoryOutcome(
    states: seq<Local>, root: Path, sha: Bytes -> string, envelopes: seq<Incoming>, reports: seq<Call>, faultFree: bool)
    requires History(states, root, sha, envelopes, reports, faultFree)
    ensures FailedReports(reports) == 0 && KeptInTurn(states[0], root, envelopes) ==>
      states[|envelopes|] == DeliverAll(states[0], root, envelopes)
    ensures faultFree && ReadyInTurn(states[0], root, sha, envelopes) ==> FailedReports(reports) == 0
  {
    NoneFailed(reports);
    if FailedReports(reports) == 0 && KeptInTurn(states[0], root, envelopes) {
      NothingFailedDelivers(states, root, sha, envelopes, reports, faultFree);
    }
    if faultFree && ReadyInTurn(states[0], root, sha, envelopes) {
      ReadyNeverFails(states, root, sha, envelopes, reports);
    }
  }

  // --- Frames compose ---------------------------------------------------------

  lemma WithinTouched(root: Path, part: seq<PayloadFile>, all: seq<PayloadFile>, p: Path)
    requires Within(part, all) && !Touched(root, all, p)
    ensures !Touched(root, part, p)
  {
    forall k | 0 <= k < |part| ensures !(p <= Dest(root, part[k])) {
      var j :| 0 <= j < |all| && all[j] == part[k];
      assert !(p <= Dest(root, all[j]));
    }
  }

  lemma FramedOnward(before: Tree, mid: Tree, now: Tree, root: Path, part: seq<PayloadFile>, all: seq<PayloadFile>)
    requires Framed(before, mid, root, all) && Framed(mid, now, root, part) && Within(part, all)
    ensures Framed(before, now, root, all)
  {
    forall p | !Touched(root, all, p) && !TempOf(before, root, all, p) ensures SameAt(before, now, p) {
      WithinTouched(root, part, all, p);
      assert SameAt(before, mid, p);
      forall k | 0 <= k < |part| ensures !TempBeside(mid, p, Dest(root, part[k])) {
        var j :| 0 <= j < |all| && all[j] == part[k];
        assert !TempBeside(before, p, Dest(root, all[j]));
      }
    }
  }

  lemma UntornOnward(before: Tree, mid: Tree, now: Tree, root: Path, part: seq<PayloadFile>, all: seq<PayloadFile>)
    requires Untorn(before, mid, root, all) && Untorn(mid, now, root, part) && Within(part, all) && PrefixFree(root, all)
    ensures Untorn(before, now, root, all)
  {
    FramedOnward(before, mid, now, root, part, all);
    forall k | 0 <= k < |all| && !AtRisk(before, Dest(root, all[k])) ensures OldOrNew(before, now, root, all, Dest(root, all[k])) {
      DestOnward(before, mid, now, root, part, all, k);
    }
  }

  lemma DestOnward(before: Tree, mid: Tree, now: Tree, root: Path, part: seq<PayloadFile>, all: seq<PayloadFile>, k: nat)
    requires Untorn(before, mid, root, all) && Untorn(mid, now, root, part) && Within(part, all) && PrefixFree(root, all)
    requires k < |all| && !AtRisk(before, Dest(root, all[k]))
    ensures OldOrNew(before, now, root, all, Dest(root, all[k]))
  {
    var d := Dest(root, all[k]);
    assert OldOrNew(before, mid, root, all, d);
    assert d in before ==> d in mid;
    if i :| 0 <= i < |part| && Dest(root, part[i]) == d {
      assert !AtRisk(mid, Dest(root, part[i])) && OldOrNew(mid, now, root, part, d);
      NewWithin(mid, now, root, part, all, d);
    } else {
      NotInTheWay(mid, root, part, all, k);
      assert SameAt(mid, now, d);
    }
  }

  lemma NewWithin(mid: Tree, now: Tree, root: Path, part: seq<PayloadFile>, all: seq<PayloadFile>, d: Path)
    requires OldOrNew(mid, now, root, part, d) && Within(part, all)
    ensures OldOrNew(mid, now, root, all, d)
  {
    if !SameAt(mid, now, d) {
      var i :| 0 <= i < |part| && Dest(root, part[i]) == d && part[i].mode.Some? && d in now && now[d] == Placed(part[i]);
      var j :| 0 <= j < |all| && all[j] == part[i];
      assert Dest(root, all[j]) == d;
    }
  }

  /** A destination no file of `part` has is out of its reach. */
  lemma NotInTheWay(mid: Tree, root: Path, part: seq<PayloadFile>, all: seq<PayloadFile>, k: nat)
    requires Within(part, all) && PrefixFree(root, all) && k < |all| && !AtRisk(mid, Dest(root, all[k]))
    requires forall i :: 0 <= i < |part| ==> Dest(root, part[i]) != Dest(root, all[k])
    ensures !Touched(root, part, Dest(root, all[k])) && !TempOf(mid, root, part, Dest(root, all[k]))
  {
    var d := Dest(root, all[k]);
    forall i | 0 <= i < |part| ensures !(d <= Dest(root, part[i])) {
      var j :| 0 <= j < |all| && all[j] == part[i];
      assert !(Dest(root, all[k]) < Dest(root, all[j]));
    }
  }

  lemma SinceOnward(earlier: seq<Tree>, trace: seq<Tree>, start: nat, before: Tree, mid: Tree, root: Path,
                    part: seq<PayloadFile>, all: seq<PayloadFile>)
    requires earlier <= trace && Within(part, all) && PrefixFree(root, all) && Untorn(before, mid, root, all)
    requires SafeSince(earlier, start, before, root, all) && SafeSince(trace, |earlier|, mid, root, part)
    ensures SafeSince(trace, start, before, root, all)
  {
    forall i | start <= i < |trace| ensures Untorn(before, trace[i], root, all) {
      if i < |earlier| {
        assert trace[i] == earlier[i];
      } else {
        UntornOnward(before, mid, trace[i], root, part, all);
      }
    }
  }

  lemma WithinPrefixFree(root: Path, part: seq<PayloadFile>, all: seq<PayloadFile>)
    requires Within(part, all) && PrefixFree(root, all)
    ensures PrefixFree(root, part)
  {
    forall j, k | 0 <= j < |part| && 0 <= k < |part| ensures !(Dest(root, part[j]) < Dest(root, part[k])) {
      var a :| 0 <= a < |all| && all[a] == part[j];
      var b :| 0 <= b < |all| && all[b] == part[k];
      assert !(Dest(root, all[a]) < Dest(root, all[b]));
    }
  }

  /** A crash here: some obsolete files are gone, and no destination is torn. */
  ghost predicate SafePoint(before: Tree, now: Tree, obsolete: set<Path>, root: Path, files: seq<PayloadFile>) {
    exists gone :: gone <= obsolete && Untorn(before - gone, now, root, files)
  }

  lemma SafeByCleaning(before: Tree, now: Tree, obsolete: set<Path>, root: Path, files: seq<PayloadFile>)
    requires Shrunk(before, now, obsolete)
    ensures SafePoint(before, now, obsolete, root, files)
  {
    var gone :| gone <= obsolete && now == before - gone;
    assert Untorn(before - gone, now, root, files);
  }

  lemma SafePoints(before: Tree, gone: set<Path>, obsolete: set<Path>, earlier: seq<Tree>, trace: seq<Tree>, start: nat,
                   root: Path, files: seq<PayloadFile>)
    requires earlier <= trace && gone <= obsolete && ShrunkSince(earlier, start, before, obsolete)
    requires SafeSince(trace, |earlier|, before - gone, root, files)
    ensures forall i :: start <= i < |trace| ==> SafePoint(before, trace[i], obsolete, root, files)
  {
    forall i | start <= i < |trace| ensures SafePoint(before, trace[i], obsolete, root, files) {
      if i < |earlier| {
        assert trace[i] == earlier[i];
        SafeByCleaning(before, trace[i], obsolete, root, files);
      }
    }
  }

  /** Where no destination is above another, nothing was torn since `start`. */
  ghost predicate Guarded(base: Tree, now: Tree, trace: seq<Tree>, start: nat, root: Path, files: seq<PayloadFile>) {
    PrefixFree(root, files) ==> Untorn(base, now, root, files) && SafeSince(trace, start, base, root, files)
  }

  lemma GuardedFirst(base: Tree, trace: seq<Tree>, root: Path, files: seq<PayloadFile>)
    ensures Guarded(base, base, trace, |trace|, root, files)
  {
    assert Untorn(base, base, root, files);
  }

  lemma GuardedOnward(base: Tree, mid: Tree, now: Tree, earlier: seq<Tree>, trace: seq<Tree>, start: nat, root: Path,
                      part: seq<PayloadFile>, files: seq<PayloadFile>)
    requires earlier <= trace && Within(part, files) && Guarded(base, mid, earlier, start, root, files)
    requires PrefixFree(root, part) ==> Untorn(mid, now, root, part) && SafeSince(trace, |earlier|, mid, root, part)
    ensures Guarded(base, now, trace, start, root, files)
  {
    if PrefixFree(root, files) {
      WithinPrefixFree(root, part, files);
      UntornOnward(base, mid, now, root, part, files);
      SinceOnward(earlier, trace, start, base, mid, root, part, files);
    }
  }

  // --- The Agent --------------------------------------------------------------

  class Agent {
    const disk: Disk
    const root: Path
    const sha: Bytes -> string
    var manifests: map<string, seq<ManifestEntry>>
    var etag: string
    var calls: seq<Call>

    constructor (disk: Disk, root: Path, sha: Bytes -> string)
      ensures this.disk == disk && this.root == root && this.sha == sha
      ensures manifests == map[] && etag == "" && calls == []
    {
      this.disk := disk;
      this.root := root;
      this.sha := sha;
      manifests := map[];
      etag := "";
      calls := [];
    }

    ghost predicate Valid()
      reads this, disk
    {
      WellFormed(disk.tree) && NoLinkOnRoot(disk.tree, root)
    }

    function State(): Local
      reads this, disk
    {
      Local(disk.tree, manifests)
    }

    /** remove_manifest_files; returns how many files it deleted. A file that
        cannot be deleted is passed over, and the manifest goes all the same. */
    method RemoveManifestFiles(app: string, env: string) returns (removed: nat, ghost gone: set<Path>)
      requires Valid()
      modifies this`manifests, disk
      ensures Valid()
      ensures gone <= Recorded(old(State()), root, sha, ManifestName(app, env)) && removed == |gone|
      ensures gone !! disk.stuck
      ensures disk.steady ==> gone == Recorded(old(State()), root, sha, ManifestName(app, env)) - disk.stuck
      ensures State() == Local(old(disk.tree) - gone, old(manifests) - {ManifestName(app, env)})
      ensures old(disk.trace) <= disk.trace
      ensures ShrunkSince(disk.trace, |old(disk.trace)|, old(disk.tree),
                          Recorded(old(State()), root, sha, ManifestName(app, env)))
    {
      var name := ManifestName(app, env);
      if name !in manifests { return 0, {}; }
      removed, gone := RemoveEntries(disk, root, manifests[name], sha);
      RemovalSetFiles(old(disk.tree), root, manifests[name], sha);
      manifests := manifests - {name};
    }

    /** The body of the cleanup loop: an instruction whose units do not stop removes nothing. */
    method CleanNext(cleanup: seq<Instruction>, k: nat, ghost l: Local, ghost gone: set<Path>, ghost start: nat)
      returns (ghost next: set<Path>)
      requires Valid() && k < |cleanup|
      requires Cleansed(l, State(), disk.trace, start, root, sha, cleanup[..k], gone, disk.stuck, disk.steady)
      modifies this`manifests, disk
      ensures Valid() && old(disk.trace) <= disk.trace
      ensures Cleansed(l, State(), disk.trace, start, root, sha, cleanup[..k + 1], next, disk.stuck, disk.steady)
    {
      ghost var mid, earlier := State(), disk.trace;
      next := gone;
      if cleanup[k].stopped {
        ghost var more;
        var removed;
        removed, more := RemoveManifestFiles(cleanup[k].app, cleanup[k].env);
        InstructionTurn(l, mid, root, sha, cleanup, k, gone, more, disk.stuck, disk.steady);
        ShrunkTurn(l, root, sha, cleanup, k, gone, earlier, disk.trace, start);
        next := gone + more;
      } else {
        SkippedTurn(l, mid, root, sha, cleanup, k, gone, disk.stuck, disk.steady);
      }
    }

    /** _process_cleanup. */
    method ProcessCleanup(cleanup: seq<Instruction>) returns (ghost gone: set<Path>)
      requires Valid()
      modifies this`manifests, this`calls, disk
      ensures Valid()
      ensures PartlyCleaned(old(State()), State(), root, sha, cleanup, gone, disk.stuck, disk.steady)
      ensures calls == old(calls) + CleanupCalls(cleanup)
      ensures old(disk.trace) <= disk.trace
      ensures ShrunkSince(disk.trace, |old(disk.trace)|, old(disk.tree), Obsolete(old(State()), root, sha, cleanup))
    {
      ghost var l, first, start := State(), calls, |disk.trace|;
      gone := {};
      CleansedFirst(l, disk.trace, root, sha, disk.stuck, disk.steady);
      assert cleanup[..0] == [] && first + CleanupCalls([]) == first;
      for k := 0 to |cleanup|
        invariant Valid() && old(disk.trace) <= disk.trace
        invariant Cleansed(l, State(), disk.trace, start, root, sha, cleanup[..k], gone, disk.stuck, disk.steady)
        invariant calls == first + CleanupCalls(cleanup[..k])
      {
        gone := CleanNext(cleanup, k, l, gone, start);
        CleanupCallsStep(first, cleanup, k);
        var sent := [CleanupReport(cleanup[k].assignmentId, cleanup[k].stopped)];
        if cleanup[k].stopped && !cleanup[k].acknowledged {
          sent := sent + [CleanupReport(cleanup[k].assignmentId, false)];
        }
        calls := calls + sent;
      }
      assert cleanup[..|cleanup|] == cleanup;
    }

    /** _activate_envelope after the envelope was opened: materialize, then record. */
    method Activate(b: Bundle) returns (ok: bool)
      requires Valid()
      modifies this`manifests, disk
      ensures Valid()
      ensures Activated(old(State()), State(), root, sha, b, ok, disk.faultFree)
      ensures old(disk.trace) <= disk.trace
      ensures PrefixFree(root, b.files) ==> Untorn(old(disk.tree), disk.tree, root, b.files)
      ensures PrefixFree(root, b.files) ==> SafeSince(disk.trace, |old(disk.trace)|, old(disk.tree), root, b.files)
    {
      ghost var draws;
      var status;
      status, draws := Materialize(disk, root, b.files, sha);
      ok := status == Done;
      if ok {
        manifests := manifests[ManifestName(b.app, b.env) := ManifestOf(b.files)];
      }
    }

    /** The body of the envelope loop: an envelope that does not open changes nothing. */
    method ActivateNext(incoming: Incoming, ghost base: Tree, ghost files: seq<PayloadFile>, ghost start: nat)
      returns (ok: bool)
      requires Valid() && start <= |disk.trace|
      requires Within(FilesOf(incoming), files) && Guarded(base, disk.tree, disk.trace, start, root, files)
      modifies this`manifests, disk
      ensures Valid()
      ensures Turn(old(State()), State(), root, sha, incoming, ok, disk.faultFree)
      ensures old(disk.trace) <= disk.trace && Guarded(base, disk.tree, disk.trace, start, root, files)
    {
      ok := false;
      if incoming.bundle.Some? {
        ghost var mid, earlier := disk.tree, disk.trace;
        ok := Activate(incoming.bundle.value);
        GuardedOnward(base, mid, disk.tree, earlier, disk.trace, start, root, incoming.bundle.value.files, files);
      }
    }

    /** The envelope loop of sync_once: a failure is counted and the loop goes on. */
    method ActivateEach(envelopes: seq<Incoming>)
      returns (revision: string, failed: nat, ghost reports: seq<Call>, ghost states: seq<Local>)
      requires Valid()
      modifies this`manifests, this`calls, disk
      ensures Valid() && old(disk.trace) <= disk.trace
      ensures Progress(states, root, sha, envelopes, reports, disk.faultFree, failed, revision)
      ensures states[0] == old(State()) && states[|envelopes|] == State() && calls == old(calls) + reports
      ensures Guarded(old(disk.tree), disk.tree, disk.trace, |old(disk.trace)|, root, OpenedFiles(envelopes))
    {
      revision, failed, reports, states := "", 0, [], [State()];
      ghost var before, base, files, start, first := State(), disk.tree, OpenedFiles(envelopes), |disk.trace|, calls;
      GuardedFirst(base, disk.trace, root, files);
      assert envelopes[..0] == [] && first + [] == first;
      for k := 0 to |envelopes|
        invariant Valid() && old(disk.trace) <= disk.trace
        invariant Progress(states, root, sha, envelopes[..k], reports, disk.faultFree, failed, revision)
        invariant states[0] == before && states[k] == State() && calls == first + reports
        invariant Guarded(base, disk.tree, disk.trace, start, root, files)
      {
        OpenedWithin(envelopes, k);
        var ok := ActivateNext(envelopes[k], base, files, start);
        ProgressStep(states, root, sha, envelopes, reports, disk.faultFree, k, State(), ok, failed, revision);
        calls := calls + [ActivationReport(envelopes[k].revisionId, ok)];
        CallsAppend(first, reports, ActivationReport(envelopes[k].revisionId, ok));
        reports := reports + [ActivationReport(envelopes[k].revisionId, ok)];
        states := states + [State()];
        if ok {
          revision := envelopes[k].revisionId;
        } else {
          failed := failed + 1;
        }
      }
      assert envelopes[..|envelopes|] == envelopes;
    }

    /** What the loop amounts to. */
    method ActivateAll(envelopes: seq<Incoming>)
      returns (revision: string, failed: nat, ghost reports: seq<Call>, ghost states: seq<Local>)
      requires Valid()
      modifies this`manifests, this`calls, disk
      ensures Valid()
      // One turn per envelope, each as Turn says; `failed` counts the failures.
      ensures History(states, root, sha, envelopes, reports, disk.faultFree)
      ensures states[0] == old(State()) && states[|envelopes|] == State()
      ensures calls == old(calls) + reports && failed == FailedReports(reports)
      ensures LastActivated(reports, revision)
      // A pass that fails nothing delivered everything; ready bundles on a healthy disk never fail.
      ensures failed == 0 && KeptInTurn(old(State()), root, envelopes) ==>
        State() == DeliverAll(old(State()), root, envelopes)
      ensures disk.faultFree && ReadyInTurn(old(State()), root, sha, envelopes) ==> failed == 0
      // Every crash point.
      ensures old(disk.trace) <= disk.trace
      ensures PrefixFree(root, OpenedFiles(envelopes)) ==>
        SafeSince(disk.trace, |old(disk.trace)|, old(disk.tree), root, OpenedFiles(envelopes))
    {
      revision, failed, reports, states := ActivateEach(envelopes);
      HistoryOutcome(states, root, sha, envelopes, reports, disk.faultFree);
    }

    /** sync_once. `gone` is what cleanup removed, `states` the node from there on. */
    method SyncOnce(response: Response)
      returns (changed: bool, revision: string, failed: nat, ghost gone: set<Path>, ghost reports: seq<Call>,
               ghost states: seq<Local>)
      requires Valid()
      modifies this, disk
      ensures Valid()
      ensures response.NotModified? ==>
        && State() == old(State()) && disk.trace == old(disk.trace) && etag == old(etag) && calls == old(calls)
        && !changed && revision == "" && failed == 0
      // The ETag is saved whatever happens to the work it stands for.
      ensures response.Desired? ==> etag == response.etag && (changed <==> response.envelopes != [])
      // Every instruction and every envelope is reported once, in order; `failed` counts the failures,
      // and `revision` is the last one reported ok.
      ensures response.Desired? ==>
        && calls == old(calls) + CleanupCalls(response.cleanup) + reports && failed == FailedReports(reports)
        && LastActivated(reports, revision)
      // First the cleanup, then turn by turn the envelopes, whatever became of the cleanup.
      ensures response.Desired? ==>
        && History(states, root, sha, response.envelopes, reports, disk.faultFree)
        && PartlyCleaned(old(State()), states[0], root, sha, response.cleanup, gone, disk.stuck, disk.steady)
        && states[|response.envelopes|] == State()
      // A pass that fails nothing delivered everything; ready bundles on a healthy disk never fail,
      // whether or not the cleanup was confirmed.
      ensures response.Desired? && failed == 0 && KeptInTurn(states[0], root, response.envelopes) ==>
        State() == DeliverAll(states[0], root, response.envelopes)
      ensures response.Desired? && disk.faultFree && ReadyInTurn(states[0], root, sha, response.envelopes) ==> failed == 0
      // A crash at any point leaves files untorn.
      ensures old(disk.trace) <= disk.trace
      ensures response.Desired? && PrefixFree(root, OpenedFiles(response.envelopes)) ==>
        forall i :: |old(disk.trace)| <= i < |disk.trace| ==>
          SafePoint(old(disk.tree), disk.trace[i], Obsolete(old(State()), root, sha, response.cleanup), root,
                    OpenedFiles(response.envelopes))
    {
      changed, revision, failed, gone, reports, states := false, "", 0, {}, [], [];
      if response.NotModified? { return; }
      etag := response.etag;
      gone := ProcessCleanup(response.cleanup);
      ghost var earlier := disk.trace;
      revision, failed, reports, states := ActivateAll(response.envelopes);
      changed := response.envelopes != [];
      if PrefixFree(root, OpenedFiles(response.envelopes)) {
        SafePoints(old(disk.tree), gone, Obsolete(old(State()), root, sha, response.cleanup), earlier, disk.trace,
                   |old(disk.trace)|, root, OpenedFiles(response.envelopes));
      }
    }
  }

  lemma CleanupCallsStep(first: seq<Call>, cleanup: seq<Instruction>, k: nat)
    requires k < |cleanup|
    ensures first + CleanupCalls(cleanup[..k + 1]) == first + CleanupCalls(cleanup[..k]) + CallsOf(cleanup[k])
  {
    assert cleanup[..k + 1][..k] == cleanup[..k];
  }
}
