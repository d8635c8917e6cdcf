/**
  What convergence passes add up to: which envelopes are delivered, what the
  disk holds afterwards, what cleanup takes back, and what it leaves behind.
 */
module Convergence {
  import opened Common
  import opened FileTree
  import opened Paths
  import opened Materializer
  import opened Cleanup
  import opened Sync
  import TempNames
  import Strings
  import Utf8

  // --- Envelopes do not disturb each other --------------------------------------

  /** No destination is another, or above another, or a name mkstemp could draw
      that is missing from the disk. */
  ghost predicate Separate(t: Tree, root: Path, files: seq<PayloadFile>) {
    && PrefixFree(root, files) && Distinct(root, files)
    && forall k :: 0 <= k < |files| ==> !AtRisk(t, Dest(root, files[k]))
  }

  /** The disk has a place for every file. */
  ghost predicate Suited(t: Tree, root: Path, files: seq<PayloadFile>) {
    RootUsable(t, root) && NoDirectoryInTheWay(t, root, files) && Room(t, root, files)
  }

  lemma {:induction false} OpenedPrefix(envelopes: seq<Incoming>, k: nat)
    requires k <= |envelopes|
    ensures OpenedFiles(envelopes[..k]) <= OpenedFiles(envelopes)
    ensures k < |envelopes| ==> OpenedFiles(envelopes[..k + 1]) == OpenedFiles(envelopes[..k]) + FilesOf(envelopes[k])
    decreases |envelopes|
  {
    if k == |envelopes| {
      assert envelopes[..k] == envelopes;
    } else {
      var init := envelopes[..|envelopes| - 1];
      assert init[..k] == envelopes[..k] && envelopes[..k + 1][..k] == envelopes[..k];
      OpenedPrefix(init, k);
    }
  }

  /** Neither is the other or above it. */
  predicate Unrelated(p: Path, q: Path) {
    !(p <= q) && !(q <= p)
  }

  lemma Apart(root: Path, done: seq<PayloadFile>, next: seq<PayloadFile>, all: seq<PayloadFile>)
    requires done + next <= all && PrefixFree(root, all) && Distinct(root, all)
    ensures PrefixFree(root, next) && Distinct(root, next)
    ensures forall i, j :: 0 <= i < |done| && 0 <= j < |next| ==> Unrelated(Dest(root, done[i]), Dest(root, next[j]))
  {
    assert forall i :: 0 <= i < |done| ==> done[i] == all[i];
    assert forall j :: 0 <= j < |next| ==> next[j] == all[|done| + j];
    forall i, j | 0 <= i < |done| && 0 <= j < |next| ensures Unrelated(Dest(root, done[i]), Dest(root, next[j])) {
      ApartAt(root, all, i, |done| + j);
    }
    forall i, j | 0 <= i < |next| && 0 <= j < |next| ensures !(Dest(root, next[i]) < Dest(root, next[j])) {
      assert !(Dest(root, all[|done| + i]) < Dest(root, all[|done| + j]));
    }
    forall i, j | 0 <= i < j < |next| ensures Dest(root, next[i]) != Dest(root, next[j]) {
      ApartAt(root, all, |done| + i, |done| + j);
    }
  }

  lemma ApartAt(root: Path, all: seq<PayloadFile>, i: nat, j: nat)
    requires PrefixFree(root, all) && Distinct(root, all) && i < j < |all|
    ensures Unrelated(Dest(root, all[i]), Dest(root, all[j]))
  {
    assert !(Dest(root, all[i]) < Dest(root, all[j])) && !(Dest(root, all[j]) < Dest(root, all[i]));
    assert Dest(root, all[i]) != Dest(root, all[j]);
  }

  /** What the turns so far cannot have touched. */
  lemma DestUntouched(base: Tree, above: Tree, root: Path, done: seq<PayloadFile>, next: seq<PayloadFile>,
                      all: seq<PayloadFile>, i: nat)
    requires done + next <= all && Separate(base, root, all) && i < |next| && Framed(base, above, root, done)
    ensures SameAt(base, above, Dest(root, next[i])) && !AtRisk(base, Dest(root, next[i]))
  {
    Apart(root, done, next, all);
    assert next[i] == all[|done| + i];
    var d := Dest(root, next[i]);
    forall j | 0 <= j < |done| ensures !(d <= Dest(root, done[j])) {
      assert Unrelated(Dest(root, done[j]), Dest(root, next[i]));
    }
  }

  /** Where nothing earlier touched them, no draw can hit the next destinations. */
  lemma NextKept(base: Tree, above: Tree, root: Path, done: seq<PayloadFile>, next: seq<PayloadFile>, all: seq<PayloadFile>)
    requires done + next <= all && Separate(base, root, all) && Parsed(next) && Framed(base, above, root, done)
    ensures Kept(above, root, next)
  {
    Apart(root, done, next, all);
    var made := MakeDirs(above, [], root);
    forall i | 0 <= i < |next| ensures !AtRisk(made, Dest(root, next[i])) {
      DestUntouched(base, above, root, done, next, all, i);
      assert !Between([], Dest(root, next[i]), root) && SameAt(above, made, Dest(root, next[i]));
    }
    TempNames.KeepsAllBeforehand(made, root, next);
  }

  ghost predicate InPlace(t: Tree, root: Path, files: seq<PayloadFile>) {
    Parsed(files) && forall i :: 0 <= i < |files| ==> Dest(root, files[i]) in t && t[Dest(root, files[i])] == Placed(files[i])
  }

  /** Every file of the bundle is in place and its manifest lists exactly them. */
  ghost predicate Held(l: Local, root: Path, b: Bundle) {
    && InPlace(l.tree, root, b.files)
    && ManifestName(b.app, b.env) in l.manifests
    && l.manifests[ManifestName(b.app, b.env)] == ManifestOf(b.files)
  }

  lemma TurnHolds(base: Tree, above: Local, now: Local, root: Path, sha: Bytes -> string, b: Bundle, faultFree: bool,
                  done: seq<PayloadFile>, all: seq<PayloadFile>)
    requires Activated(above, now, root, sha, b, true, faultFree) && Framed(base, above.tree, root, done)
    requires done + b.files <= all && Separate(base, root, all)
    ensures Held(now, root, b)
  {
    NextKept(base, above.tree, root, done, b.files, all);
    Apart(root, done, b.files, all);
    forall i | 0 <= i < |b.files| ensures Dest(root, b.files[i]) in now.tree && now.tree[Dest(root, b.files[i])] == Placed(b.files[i]) {
      InstalledAtDest(MakeDirs(above.tree, [], root), root, b.files, i);
    }
  }

  lemma TurnLeaves(above: Tree, now: Tree, root: Path, done: seq<PayloadFile>, held: seq<PayloadFile>, next: seq<PayloadFile>,
                   all: seq<PayloadFile>)
    requires Framed(above, now, root, next) && InPlace(above, root, held) && Within(held, done)
    requires done + next <= all && PrefixFree(root, all) && Distinct(root, all)
    ensures InPlace(now, root, held)
  {
    Apart(root, done, next, all);
    forall i | 0 <= i < |held| ensures Dest(root, held[i]) in now && now[Dest(root, held[i])] == Placed(held[i]) {
      var m :| 0 <= m < |done| && done[m] == held[i];
      forall j | 0 <= j < |next| ensures !(Dest(root, held[i]) <= Dest(root, next[j])) {
        assert Unrelated(Dest(root, done[m]), Dest(root, next[j]));
      }
      assert SameAt(above, now, Dest(root, held[i]));
    }
  }

  lemma FramedMore(before: Tree, now: Tree, root: Path, small: seq<PayloadFile>, big: seq<PayloadFile>)
    requires Framed(before, now, root, small) && Within(small, big)
    ensures Framed(before, now, root, big)
  {
    forall p | !Touched(root, big, p) && !TempOf(before, root, big, p) ensures SameAt(before, now, p) {
      WithinTouched(root, small, big, p);
      forall k | 0 <= k < |small| ensures !TempBeside(before, p, Dest(root, small[k])) {
        var j :| 0 <= j < |big| && big[j] == small[k];
        assert !TempBeside(before, p, Dest(root, big[j]));
      }
    }
  }

  /** Whatever failed, nothing moved but places of the envelopes so far. */
  lemma {:induction false} FramedSoFar(
    states: seq<Local>, root: Path, sha: Bytes -> string, envelopes: seq<Incoming>, reports: seq<Call>, faultFree: bool,
    k: nat)
    requires History(states, root, sha, envelopes, reports, faultFree) && k <= |envelopes|
    ensures Framed(states[0].tree, states[k].tree, root, OpenedFiles(envelopes[..k]))
    decreases k
  {
    if k > 0 {
      var small, big := OpenedFiles(envelopes[..k - 1]), OpenedFiles(envelopes[..k]);
      FramedSoFar(states, root, sha, envelopes, reports, faultFree, k - 1);
      OpenedPrefix(envelopes, k - 1);
      FramedMore(states[0].tree, states[k - 1].tree, root, small, big);
      assert TurnAt(states, root, sha, envelopes, reports, faultFree, k - 1);
      if envelopes[k - 1].bundle.Some? {
        FramedOnward(states[0].tree, states[k - 1].tree, states[k].tree, root, FilesOf(envelopes[k - 1]), big);
      }
    }
  }

  ghost predicate NamesDiffer(envelopes: seq<Incoming>) {
    forall i, j :: 0 <= i < j < |envelopes| && envelopes[i].bundle.Some? && envelopes[j].bundle.Some? ==>
      ManifestName(envelopes[i].bundle.value.app, envelopes[i].bundle.value.env) !=
      ManifestName(envelopes[j].bundle.value.app, envelopes[j].bundle.value.env)
  }

  lemma {:induction false} HeldAfterTurn(
    states: seq<Local>, root: Path, sha: Bytes -> string, envelopes: seq<Incoming>, reports: seq<Call>, faultFree: bool,
    j: nat)
    requires History(states, root, sha, envelopes, reports, faultFree) && j < |envelopes| && reports[j].ok
    requires Separate(states[0].tree, root, OpenedFiles(envelopes))
    ensures envelopes[j].bundle.Some? && Held(states[j + 1], root, envelopes[j].bundle.value)
  {
    assert TurnAt(states, root, sha, envelopes, reports, faultFree, j);
    OpenedPrefix(envelopes, j);
    OpenedPrefix(envelopes, j + 1);
    FramedSoFar(states, root, sha, envelopes, reports, faultFree, j);
    TurnHolds(states[0].tree, states[j], states[j + 1], root, sha, envelopes[j].bundle.value, faultFree,
              OpenedFiles(envelopes[..j]), OpenedFiles(envelopes));
  }

  lemma {:induction false} HeldOverTurn(
    states: seq<Local>, root: Path, sha: Bytes -> string, envelopes: seq<Incoming>, reports: seq<Call>, faultFree: bool,
    j: nat, k: nat)
    requires History(states, root, sha, envelopes, reports, faultFree) && NamesDiffer(envelopes)
    requires PrefixFree(root, OpenedFiles(envelopes)) && Distinct(root, OpenedFiles(envelopes))
    requires j < k < |envelopes| && envelopes[j].bundle.Some? && Held(states[k], root, envelopes[j].bundle.value)
    ensures Held(states[k + 1], root, envelopes[j].bundle.value)
  {
    assert TurnAt(states, root, sha, envelopes, reports, faultFree, k);
    OpenedPrefix(envelopes, k);
    OpenedPrefix(envelopes, k + 1);
    assert envelopes[..k][j] == envelopes[j];
    OpenedWithin(envelopes[..k], j);
    if envelopes[k].bundle.Some? {
      StillHeld(states[k], states[k + 1], root, sha, envelopes[j].bundle.value, envelopes[k].bundle.value, reports[k].ok, faultFree,
                OpenedFiles(envelopes[..k]), OpenedFiles(envelopes));
    }
  }

  /**
    An envelope reported ok is on the disk when the pass ends, whatever became
    of the others: every file at its place with its content and mode, and its
    manifest naming exactly them.
   */
  lemma {:induction false} ReportedMeansDelivered(
    states: seq<Local>, root: Path, sha: Bytes -> string, envelopes: seq<Incoming>, reports: seq<Call>, faultFree: bool,
    j: nat, k: nat)
    requires History(states, root, sha, envelopes, reports, faultFree) && NamesDiffer(envelopes)
    requires Separate(states[0].tree, root, OpenedFiles(envelopes))
    requires j < k <= |envelopes| && reports[j].ok
    ensures envelopes[j].bundle.Some? && Held(states[k], root, envelopes[j].bundle.value)
    decreases k
  {
    if j == k - 1 {
      HeldAfterTurn(states, root, sha, envelopes, reports, faultFree, j);
    } else {
      ReportedMeansDelivered(states, root, sha, envelopes, reports, faultFree, j, k - 1);
      HeldOverTurn(states, root, sha, envelopes, reports, faultFree, j, k - 1);
    }
  }

  lemma StillHeld(above: Local, now: Local, root: Path, sha: Bytes -> string, held: Bundle, next: Bundle, ok: bool, faultFree: bool,
                  done: seq<PayloadFile>, all: seq<PayloadFile>)
    requires Held(above, root, held) && Activated(above, now, root, sha, next, ok, faultFree)
    requires ManifestName(held.app, held.env) != ManifestName(next.app, next.env)
    requires Within(held.files, done) && done + next.files <= all && PrefixFree(root, all) && Distinct(root, all)
    ensures Held(now, root, held)
  {
    TurnLeaves(above.tree, now.tree, root, done, held.files, next.files, all);
  }

  // --- On a healthy disk --------------------------------------------------------

  lemma ConfinedMore(before: Tree, mid: Tree, now: Tree, root: Path, done: seq<PayloadFile>, next: seq<PayloadFile>)
    requires Confined(before, mid, root, done) && Confined(mid, now, root, next)
    ensures Confined(before, now, root, done + next)
  {
    forall p | !Touched(root, done + next, p) ensures SameAt(before, now, p) {
      forall k | 0 <= k < |done| ensures !(p <= Dest(root, done[k])) {
        assert (done + next)[k] == done[k];
      }
      forall k | 0 <= k < |next| ensures !(p <= Dest(root, next[k])) {
        assert (done + next)[|done| + k] == next[k];
      }
      assert SameAt(before, mid, p) && SameAt(mid, now, p);
    }
  }

  lemma {:induction false} ConfinedSoFar(
    states: seq<Local>, root: Path, sha: Bytes -> string, envelopes: seq<Incoming>, reports: seq<Call>, k: nat)
    requires History(states, root, sha, envelopes, reports, true) && k <= |envelopes|
    requires RootUsable(states[0].tree, root)
    ensures Confined(states[0].tree, states[k].tree, root, OpenedFiles(envelopes[..k]))
    ensures RootUsable(states[k].tree, root)
    decreases k
  {
    if k > 0 {
      ConfinedSoFar(states, root, sha, envelopes, reports, k - 1);
      OpenedPrefix(envelopes, k - 1);
      assert TurnAt(states, root, sha, envelopes, reports, true, k - 1);
      assert Confined(states[k - 1].tree, states[k].tree, root, FilesOf(envelopes[k - 1]));
      ConfinedMore(states[0].tree, states[k - 1].tree, states[k].tree, root, OpenedFiles(envelopes[..k - 1]), FilesOf(envelopes[k - 1]));
    }
  }

  lemma RoomLater(base: Tree, above: Tree, root: Path, done: seq<PayloadFile>, next: seq<PayloadFile>, all: seq<PayloadFile>)
    requires done + next <= all && Room(base, root, all) && Confined(base, above, root, done)
    ensures Room(above, root, next)
  {
    forall i | 0 <= i < |next| ensures HasRoom(above, root, next, i) {
      assert next[i] == all[|done| + i] && HasRoom(base, root, all, |done| + i);
      var v :| 0 <= v < TEMP_NAMES && Spare(base, root, all, |done| + i, v);
      SpareLater(base, above, root, done, next, all, i, v);
    }
  }

  lemma SpareLater(base: Tree, above: Tree, root: Path, done: seq<PayloadFile>, next: seq<PayloadFile>,
                   all: seq<PayloadFile>, i: nat, v: nat)
    requires done + next <= all && i < |next| && Spare(base, root, all, |done| + i, v)
    requires Confined(base, above, root, done)
    ensures Spare(above, root, next, i, v)
  {
    assert next[i] == all[|done| + i];
    var p := Parent(Dest(root, next[i])) + [TempName(v)];
    forall j | 0 <= j < |done| ensures !(p <= Dest(root, done[j])) {
      assert done[j] == all[j];
    }
    forall j | 0 <= j < |next| ensures !(p <= Dest(root, next[j])) {
      assert next[j] == all[|done| + j];
    }
    assert SameAt(base, above, p);
  }

  /** A sound bundle fits when its turn comes, whatever the others did. */
  lemma NextFits(base: Tree, above: Tree, root: Path, done: seq<PayloadFile>, next: seq<PayloadFile>, all: seq<PayloadFile>)
    requires done + next <= all && Separate(base, root, all) && Suited(base, root, all) && Parsed(next)
    requires WellFormed(above) && RootUsable(above, root) && Confined(base, above, root, done)
    ensures Fits(above, root, next)
  {
    Apart(root, done, next, all);
    NextKept(base, above, root, done, next, all);
    RoomLater(base, above, root, done, next, all);
    forall i | 0 <= i < |next| ensures !IsDir(above, Dest(root, next[i])) {
      assert next[i] == all[|done| + i];
      DestUntouched(base, above, root, done, next, all, i);
    }
    DeliveryTheorem(above, root, next);
  }

  /**
    On a healthy disk with a place for every file, an envelope is reported ok
    exactly when it opens and its own bundle is sound: no envelope can make
    another fail, and neither can the cleanup.
   */
  lemma {:induction false} OutcomesAreIndependent(
    states: seq<Local>, root: Path, sha: Bytes -> string, envelopes: seq<Incoming>, reports: seq<Call>, k: nat)
    requires History(states, root, sha, envelopes, reports, true) && k < |envelopes|
    requires Separate(states[0].tree, root, OpenedFiles(envelopes)) && Suited(states[0].tree, root, OpenedFiles(envelopes))
    ensures reports[k].ok <==> envelopes[k].bundle.Some? && Sound(envelopes[k].bundle.value, sha)
  {
    assert TurnAt(states, root, sha, envelopes, reports, true, k);
    if envelopes[k].bundle.Some? && Sound(envelopes[k].bundle.value, sha) {
      OpenedPrefix(envelopes, k);
      OpenedPrefix(envelopes, k + 1);
      ConfinedSoFar(states, root, sha, envelopes, reports, k);
      NextFits(states[0].tree, states[k].tree, root, OpenedFiles(envelopes[..k]), FilesOf(envelopes[k]), OpenedFiles(envelopes));
    }
  }

  /** The cleanup of a pass takes away no place a delivery needs. */
  lemma CleanupLeavesRoom(l: Local, gone: set<Path>, root: Path, sha: Bytes -> string, cleanup: seq<Instruction>,
                          files: seq<PayloadFile>)
    requires gone <= Obsolete(l, root, sha, cleanup)
    ensures Suited(l.tree, root, files) ==> Suited(l.tree - gone, root, files)
    ensures Separate(l.tree - Obsolete(l, root, sha, cleanup), root, files) ==> Separate(l.tree - gone, root, files)
  {
    if Room(l.tree, root, files) {
      forall k | 0 <= k < |files| ensures HasRoom(l.tree - gone, root, files, k) {
        assert HasRoom(l.tree, root, files, k);
        var v :| 0 <= v < TEMP_NAMES && Spare(l.tree, root, files, k, v);
        assert Spare(l.tree - gone, root, files, k, v);
      }
    }
  }

  // --- Delivery does not wait for cleanup -----------------------------------------

  /** No delivery is reported ok after a cleanup that was not reported cleaned. */
  ghost predicate WaitsForCleanup(calls: seq<Call>) {
    forall i, j :: 0 <= i < j < |calls| && calls[i].CleanupReport? && calls[j].ActivationReport? && calls[j].ok ==>
      calls[i].cleaned
  }

  predicate AllConfirmed(cleanup: seq<Instruction>) {
    forall k :: 0 <= k < |cleanup| ==> cleanup[k].stopped && cleanup[k].acknowledged
  }

  ghost predicate AllCleaned(calls: seq<Call>) {
    forall i :: 0 <= i < |calls| ==> calls[i].CleanupReport? && calls[i].cleaned
  }

  /** The reports of a cleanup are all "cleaned" exactly when all are confirmed. */
  lemma {:induction false} CallsConfirmed(cleanup: seq<Instruction>)
    ensures forall i :: 0 <= i < |CleanupCalls(cleanup)| ==> CleanupCalls(cleanup)[i].CleanupReport?
    ensures AllCleaned(CleanupCalls(cleanup)) <==> AllConfirmed(cleanup)
  {
    if cleanup != [] {
      var n := |cleanup| - 1;
      CallsConfirmed(cleanup[..n]);
      CleanedConcat(CleanupCalls(cleanup[..n]), CallsOf(cleanup[n]));
      LastCallsConfirmed(cleanup[n]);
      assert forall k :: 0 <= k < n ==> cleanup[..n][k] == cleanup[k];
    }
  }

  lemma CleanedConcat(a: seq<Call>, b: seq<Call>)
    ensures AllCleaned(a + b) <==> AllCleaned(a) && AllCleaned(b)
  {
    assert forall i :: 0 <= i < |a| ==> (a + b)[i] == a[i];
    assert forall i :: 0 <= i < |b| ==> (a + b)[|a| + i] == b[i];
  }

  lemma LastCallsConfirmed(i: Instruction)
    ensures AllCleaned(CallsOf(i)) <==> i.stopped && i.acknowledged
  {
    var calls := CallsOf(i);
    assert !i.stopped ==> !calls[0].cleaned;
    assert i.stopped && !i.acknowledged ==> !calls[1].cleaned;
  }

  lemma WaitsExactly(cleanup: seq<Instruction>, envelopes: seq<Incoming>, reports: seq<Call>)
    requires ReportsFor(reports, envelopes)
    ensures WaitsForCleanup(CleanupCalls(cleanup) + reports) <==>
      AllConfirmed(cleanup) || forall k :: 0 <= k < |reports| ==> !reports[k].ok
  {
    var first := CleanupCalls(cleanup);
    var calls := first + reports;
    CallsConfirmed(cleanup);
    assert forall i :: 0 <= i < |first| ==> calls[i] == first[i];
    assert forall k :: 0 <= k < |reports| ==> calls[|first| + k] == reports[k];
    if WaitsForCleanup(calls) && !AllConfirmed(cleanup) {
      var i :| 0 <= i < |first| && !(first[i].CleanupReport? && first[i].cleaned);
      forall k | 0 <= k < |reports| ensures !reports[k].ok {
        assert calls[i].CleanupReport? && !calls[i].cleaned && calls[|first| + k].ActivationReport?;
      }
    }
  }

  /**
    The exact condition under which a pass on a healthy disk delivers nothing
    while a cleanup is open: every instruction is confirmed, or no envelope of
    the response opens to a sound bundle.
   */
  lemma DeliveryWaitsExactlyWhen(
    cleanup: seq<Instruction>, states: seq<Local>, root: Path, sha: Bytes -> string, envelopes: seq<Incoming>,
    reports: seq<Call>)
    requires History(states, root, sha, envelopes, reports, true)
    requires Separate(states[0].tree, root, OpenedFiles(envelopes)) && Suited(states[0].tree, root, OpenedFiles(envelopes))
    ensures WaitsForCleanup(CleanupCalls(cleanup) + reports) <==>
      || AllConfirmed(cleanup)
      || forall k :: 0 <= k < |envelopes| ==> !(envelopes[k].bundle.Some? && Sound(envelopes[k].bundle.value, sha))
  {
    WaitsExactly(cleanup, envelopes, reports);
    forall k | 0 <= k < |envelopes| ensures reports[k].ok <==> envelopes[k].bundle.Some? && Sound(envelopes[k].bundle.value, sha) {
      OutcomesAreIndependent(states, root, sha, envelopes, reports, k);
    }
  }

  /** One instruction whose unit does not stop, one envelope: delivered all the same. */
  method DeliversPastAnOpenCleanup() returns (calls: seq<Call>)
    ensures calls == [CleanupReport("a", false), ActivationReport("r", true)]
    ensures !WaitsForCleanup(calls)
  {
    var disk := new Disk(map[[] := Directory], true, {}, 40);
    var sha := (content: Bytes) => "digest";
    var agent := new Agent(disk, [], sha);
    var file := PayloadFile("a", Some(TEMP_MODE), "digest", []);
    LetterIsValid(file.path);
    OneFileFits(disk.tree, file);
    var incoming := Incoming("r", Some(Bundle("app", "prod", [file])));
    OneFileIsReady(disk.tree, file, incoming, sha);
    calls := PassWithOpenCleanup(agent, Instruction("a", "old", "prod", false, true), incoming);
    assert calls[0].CleanupReport? && calls[1].ActivationReport?;
  }

  method PassWithOpenCleanup(agent: Agent, open: Instruction, incoming: Incoming) returns (calls: seq<Call>)
    requires agent.Valid() && agent.disk.faultFree && agent.calls == [] && !open.stopped
    requires incoming.bundle.Some? && Sound(incoming.bundle.value, agent.sha)
    requires Separate(agent.disk.tree, agent.root, OpenedFiles([incoming]))
    requires Suited(agent.disk.tree, agent.root, OpenedFiles([incoming]))
    modifies agent, agent.disk
    ensures calls == [CleanupReport(open.assignmentId, false), ActivationReport(incoming.revisionId, true)]
  {
    ghost var before := agent.State();
    var changed, revision, failed;
    ghost var gone, reports, states;
    changed, revision, failed, gone, reports, states := agent.SyncOnce(Desired("tag", [open], [incoming]));
    NothingObsolete(before, agent.root, agent.sha, open, gone);
    OutcomesAreIndependent(states, agent.root, agent.sha, [incoming], reports, 0);
    calls := agent.calls;
    assert reports == [ActivationReport(incoming.revisionId, true)];
  }

  lemma NothingObsolete(l: Local, root: Path, sha: Bytes -> string, open: Instruction, gone: set<Path>)
    requires !open.stopped && gone <= Obsolete(l, root, sha, [open])
    ensures l.tree - gone == l.tree && CleanupCalls([open]) == [CleanupReport(open.assignmentId, false)]
  {
    assert [open][..0] == [] && Obsolete(l, root, sha, []) == {} && CleanupCalls([]) == [];
  }

  predicate OneLetter(path: string) {
    |path| == 1 && 'a' <= path[0] <= 'z'
  }

  lemma LetterIsValid(path: string)
    requires OneLetter(path)
    ensures ValidatePath(path).Ok? && Components(path) == [path]
  {
    Strings.SplitWithout(path, '/');
    assert path[..0] == [] && path[1..] == [];
    assert !PythonSpace(path[0]) && Trim(path, PythonSpace) == path;
    assert |Utf8.Encode(path)| <= 4;
    assert [path][1..] == [] && PartError(path).None? && FirstError([path]).None?;
  }

  /** A single file has its place on a disk where nothing stands there. */
  lemma OneFileFits(t: Tree, file: PayloadFile)
    requires IsDir(t, []) && [file.path] !in t && |t| < 10 && OneLetter(file.path)
    ensures Separate(t, [], [file]) && Suited(t, [], [file]) && Dest([], file) == [file.path]
  {
    LetterIsValid(file.path);
    assert Dest([], file) == [file.path];
    TempNames.RoomByCount(t, [], [file]);
  }

  lemma {:induction false} OneFileIsReady(t: Tree, file: PayloadFile, incoming: Incoming, sha: Bytes -> string)
    requires Separate(t, [], [file]) && Suited(t, [], [file]) && ValidatePath(file.path).Ok?
    requires file.mode.Some? && sha(file.content) == file.sha256
    requires incoming.bundle.Some? && incoming.bundle.value.files == [file]
    ensures Sound(incoming.bundle.value, sha)
    ensures Separate(t, [], OpenedFiles([incoming])) && Suited(t, [], OpenedFiles([incoming]))
  {
    OnlyIncoming(incoming);
  }

  lemma OnlyIncoming(incoming: Incoming)
    ensures OpenedFiles([incoming]) == FilesOf(incoming)
  {
    assert [incoming][..0] == [];
  }
}
