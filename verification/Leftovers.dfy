/**
  What cleanup takes back of a bundle that was delivered revision after revision,
  and what it leaves on the disk.
 */
module Leftovers {
  import opened Common
  import opened FileTree
  import opened Materializer
  import opened Cleanup
  import opened Sync
  import opened Convergence

  // --- One delivery -----------------------------------------------------------------

  /** The path is a destination of the files, or above one. */
  ghost predicate Touches(root: Path, files: seq<PayloadFile>, p: Path) {
    exists j :: 0 <= j < |files| && p <= Dest(root, files[j])
  }

  /** A delivery in which no draw could hit a destination. */
  ghost predicate DeliveredOnce(l0: Local, l1: Local, root: Path, sha: Bytes -> string, b: Bundle, faultFree: bool) {
    && WellFormed(l0.tree) && Activated(l0, l1, root, sha, b, true, faultFree) && Kept(l0.tree, root, b.files)
    && PrefixFree(root, b.files) && Distinct(root, b.files)
  }

  /** Where the loop can run, no destination is a directory beforehand. */
  lemma {:induction false} InstallableClear(t: Tree, root: Path, files: seq<PayloadFile>)
    requires Parsed(files) && PrefixFree(root, files) && Distinct(root, files) && Installable(t, root, files)
    ensures NoDirectoryInTheWay(t, root, files)
  {
    if files != [] {
      InstallableClear(t, root, files[..|files| - 1]);
      LastClear(t, root, files);
      ClearOnward(t, root, files);
    }
  }

  lemma LastClear(t: Tree, root: Path, files: seq<PayloadFile>)
    requires files != [] && Parsed(files) && PrefixFree(root, files) && Distinct(root, files) && Installable(t, root, files)
    ensures !IsDir(t, Dest(root, files[|files| - 1]))
  {
    var n := |files| - 1;
    var init, dest := files[..n], Dest(root, files[n]);
    forall k | 0 <= k < n ensures !Between(root, dest, Dest(root, init[k])) {
      assert init[k] == files[k];
    }
    InstalledElsewhere(t, root, init, dest);
  }

  lemma ClearOnward(t: Tree, root: Path, files: seq<PayloadFile>)
    requires files != [] && NoDirectoryInTheWay(t, root, files[..|files| - 1]) && !IsDir(t, Dest(root, files[|files| - 1]))
    ensures NoDirectoryInTheWay(t, root, files)
  {
    var init := files[..|files| - 1];
    assert forall k :: 0 <= k < |init| ==> init[k] == files[k];
  }

  lemma {:induction false} DeliveryWasClear(l0: Local, l1: Local, root: Path, sha: Bytes -> string, b: Bundle, faultFree: bool)
    requires DeliveredOnce(l0, l1, root, sha, b, faultFree)
    ensures NoDirectoryInTheWay(l0.tree, root, b.files)
  {
    var made := MakeDirs(l0.tree, [], root);
    InstallableClear(made, root, b.files);
    forall k | 0 <= k < |b.files| ensures !IsDir(l0.tree, Dest(root, b.files[k])) {
      assert !Between([], Dest(root, b.files[k]), root) && SameAt(l0.tree, made, Dest(root, b.files[k]));
    }
  }

  /** Cleanup after a delivery removes exactly the files of that delivery. */
  lemma {:induction false} CleanupRemovesLastDelivery(
    l0: Local, l1: Local, root: Path, sha: Bytes -> string, b: Bundle, faultFree: bool)
    requires DeliveredOnce(l0, l1, root, sha, b, faultFree)
    ensures Recorded(l1, root, sha, ManifestName(b.app, b.env)) == Dests(root, b.files)
  {
    DeliveryWasClear(l0, l1, root, sha, b, faultFree);
    CleanupInvertsDelivery(l0.tree, root, b.files, sha);
  }

  /** A delivery puts its file at its destination. */
  lemma {:induction false} FileAtDest(
    l0: Local, l1: Local, root: Path, sha: Bytes -> string, b: Bundle, faultFree: bool, j: nat)
    requires DeliveredOnce(l0, l1, root, sha, b, faultFree) && j < |b.files|
    ensures var p := Dest(root, b.files[j]); p in l1.tree && l1.tree[p] == Placed(b.files[j])
  {
    InstalledAtDest(MakeDirs(l0.tree, [], root), root, b.files, j);
  }

  /** It makes a directory of every path above one. */
  lemma {:induction false} DirAboveDest(
    l0: Local, l1: Local, root: Path, sha: Bytes -> string, b: Bundle, faultFree: bool, p: Path)
    requires DeliveredOnce(l0, l1, root, sha, b, faultFree) && root < p
    requires AboveSome(root, b.files, p)
    ensures IsDir(l1.tree, p)
  {
    var j :| 0 <= j < |b.files| && p < Dest(root, b.files[j]);
    AboveDest(MakeDirs(l0.tree, [], root), root, b.files, j, p);
  }

  ghost predicate AboveSome(root: Path, files: seq<PayloadFile>, p: Path) {
    exists j :: 0 <= j < |files| && p < Dest(root, files[j])
  }

  /** It leaves every other path below the root alone. */
  lemma {:induction false} UntouchedKept(
    l0: Local, l1: Local, root: Path, sha: Bytes -> string, b: Bundle, faultFree: bool, p: Path)
    requires DeliveredOnce(l0, l1, root, sha, b, faultFree) && root < p && !Touches(root, b.files, p)
    ensures SameAt(l0.tree, l1.tree, p)
  {
    UntouchedPath(root, b.files, p);
  }

  lemma AboveDest(t: Tree, root: Path, files: seq<PayloadFile>, j: nat, p: Path)
    requires j < |files| && Parsed(files) && PrefixFree(root, files) && root < p < Dest(root, files[j])
    ensures IsDir(Installed(t, root, files), p)
  {
    var dest := Dest(root, files[j]);
    assert p == dest[..|p|] == Parent(dest)[..|p|];
    InstalledAncestor(t, root, files, j, p);
  }

  lemma UntouchedPath(root: Path, files: seq<PayloadFile>, p: Path)
    requires root < p && !Touches(root, files, p)
    ensures !Touched(root, files, p)
  {}

  // --- Two deliveries ---------------------------------------------------------------

  /**
    Two revisions of one bundle delivered one after the other, then cleanup: a
    file of the first stays, content and all, exactly when its path is neither a
    destination of the second nor above one.
   */
  lemma {:induction false} CleanupMissesEarlierFiles(
    l0: Local, l1: Local, l2: Local, root: Path, sha: Bytes -> string, b1: Bundle, b2: Bundle, faultFree: bool, k: nat)
    requires DeliveredOnce(l0, l1, root, sha, b1, faultFree) && DeliveredOnce(l1, l2, root, sha, b2, faultFree)
    requires b1.app == b2.app && b1.env == b2.env && k < |b1.files|
    ensures var p := Dest(root, b1.files[k]);
      var left := l2.tree - Recorded(l2, root, sha, ManifestName(b1.app, b1.env));
      p in left && left[p] == Placed(b1.files[k]) <==> !Touches(root, b2.files, p)
  {
    var p := Dest(root, b1.files[k]);
    CleanupRemovesLastDelivery(l1, l2, root, sha, b2, faultFree);
    FileAtDest(l0, l1, root, sha, b1, faultFree, k);
    if Touches(root, b2.files, p) {
      if AboveSome(root, b2.files, p) {
        DirAboveDest(l1, l2, root, sha, b2, faultFree, p);
      }
    } else {
      UntouchedKept(l1, l2, root, sha, b2, faultFree, p);
    }
    RemovedAt(l2.tree, root, b2.files, p);
  }

  /** What is left at a path of the last delivery, or above one. */
  lemma RemovedAt(t: Tree, root: Path, files: seq<PayloadFile>, p: Path)
    requires AboveSome(root, files, p) ==> IsDir(t, p)
    ensures var left := t - Dests(root, files);
      && (Touches(root, files, p) ==> p !in left || left[p].Directory?)
      && (!Touches(root, files, p) ==> SameAt(t, left, p))
  {
    if Touches(root, files, p) {
      var j :| 0 <= j < |files| && p <= Dest(root, files[j]);
      if p == Dest(root, files[j]) {
        assert p in Dests(root, files);
      } else {
        assert p < Dest(root, files[j]) && AboveSome(root, files, p);
      }
    } else {
      assert p !in Dests(root, files);
    }
  }

  // --- Any number of deliveries -----------------------------------------------------

  /** The node before the first delivery of a bundle and after each; nothing else in between. */
  ghost predicate Deliveries(states: seq<Local>, root: Path, sha: Bytes -> string, bs: seq<Bundle>, faultFree: bool) {
    && |states| == |bs| + 1
    && (forall m :: 0 <= m < |bs| ==> bs[m].app == bs[0].app && bs[m].env == bs[0].env)
    && forall m :: 0 <= m < |bs| ==> DeliveryAt(states, root, sha, bs, faultFree, m)
  }

  ghost predicate DeliveryAt(states: seq<Local>, root: Path, sha: Bytes -> string, bs: seq<Bundle>, faultFree: bool, m: nat)
    requires m < |bs| && |states| == |bs| + 1
  {
    DeliveredOnce(states[m], states[m + 1], root, sha, bs[m], faultFree)
  }

  /** Some delivery from the i-th on, before the n-th, touches the path. */
  ghost predicate TouchedBetween(root: Path, bs: seq<Bundle>, i: nat, n: nat, p: Path)
    requires n <= |bs|
  {
    exists m :: i <= m < n && TouchesAt(root, bs, m, p)
  }

  ghost predicate TouchesAt(root: Path, bs: seq<Bundle>, m: nat, p: Path)
    requires m < |bs|
  {
    Touches(root, bs[m].files, p)
  }

  /** What no later delivery touches stays. */
  lemma {:induction false} StaysUntouched(
    states: seq<Local>, root: Path, sha: Bytes -> string, bs: seq<Bundle>, faultFree: bool, i: nat, k: nat, n: nat)
    requires Deliveries(states, root, sha, bs, faultFree) && i < n <= |bs| && k < |bs[i].files|
    requires !TouchedBetween(root, bs, i + 1, n, Dest(root, bs[i].files[k]))
    ensures var p, f := Dest(root, bs[i].files[k]), bs[i].files[k];
      f.mode.Some? && p in states[n].tree && states[n].tree[p] == Placed(f)
  {
    FileAfter(states, root, sha, bs, faultFree, i, k);
    KeptOver(states, root, sha, bs, faultFree, i + 1, n, Dest(root, bs[i].files[k]));
  }

  lemma {:induction false} FileAfter(
    states: seq<Local>, root: Path, sha: Bytes -> string, bs: seq<Bundle>, faultFree: bool, i: nat, k: nat)
    requires Deliveries(states, root, sha, bs, faultFree) && i < |bs| && k < |bs[i].files|
    ensures var p, f := Dest(root, bs[i].files[k]), bs[i].files[k];
      f.mode.Some? && p in states[i + 1].tree && states[i + 1].tree[p] == Placed(f)
  {
    assert DeliveryAt(states, root, sha, bs, faultFree, i);
    FileAtDest(states[i], states[i + 1], root, sha, bs[i], faultFree, k);
  }

  lemma {:induction false} KeptOver(
    states: seq<Local>, root: Path, sha: Bytes -> string, bs: seq<Bundle>, faultFree: bool, i: nat, n: nat, p: Path)
    requires Deliveries(states, root, sha, bs, faultFree) && i <= n <= |bs| && root < p
    requires !TouchedBetween(root, bs, i, n, p)
    ensures SameAt(states[i].tree, states[n].tree, p)
    decreases n
  {
    if i < n {
      assert DeliveryAt(states, root, sha, bs, faultFree, n - 1);
      UntouchedBelow(root, bs, i, n, p);
      KeptOver(states, root, sha, bs, faultFree, i, n - 1, p);
      UntouchedKept(states[n - 1], states[n], root, sha, bs[n - 1], faultFree, p);
    }
  }

  lemma UntouchedBelow(root: Path, bs: seq<Bundle>, i: nat, n: nat, p: Path)
    requires i < n <= |bs| && !TouchedBetween(root, bs, i, n, p)
    ensures !TouchedBetween(root, bs, i, n - 1, p) && !Touches(root, bs[n - 1].files, p)
  {
    assert !TouchesAt(root, bs, n - 1, p);
  }

  /** `p` is a path the i-th delivery put a file at. */
  ghost predicate DeliversAt(root: Path, bs: seq<Bundle>, i: nat, p: Path)
    requires i < |bs|
  {
    exists k :: 0 <= k < |bs[i].files| && p == Dest(root, bs[i].files[k])
  }

  /** The i-th delivery is the last to touch the path, and put a file there. */
  ghost predicate LastPut(root: Path, bs: seq<Bundle>, i: nat, n: nat, p: Path)
    requires n <= |bs|
  {
    i < n && DeliversAt(root, bs, i, p) && !TouchedBetween(root, bs, i + 1, n, p)
  }

  /** A file at a path was there before a delivery that put none at it, and that
      delivery does not touch the path. */
  lemma {:induction false} FileFromBefore(
    states: seq<Local>, root: Path, sha: Bytes -> string, bs: seq<Bundle>, faultFree: bool, m: nat, p: Path)
    requires Deliveries(states, root, sha, bs, faultFree) && m < |bs| && root < p && !DeliversAt(root, bs, m, p)
    requires p in states[m + 1].tree && states[m + 1].tree[p].Regular?
    ensures !TouchesAt(root, bs, m, p) && p in states[m].tree && states[m].tree[p].Regular?
  {
    assert DeliveryAt(states, root, sha, bs, faultFree, m);
    if AboveSome(root, bs[m].files, p) {
      DirAboveDest(states[m], states[m + 1], root, sha, bs[m], faultFree, p);
    }
    NotTouchedByFile(root, bs, m, p, states[m + 1].tree);
    UntouchedKept(states[m], states[m + 1], root, sha, bs[m], faultFree, p);
  }

  lemma LastPutOnward(root: Path, bs: seq<Bundle>, owner: nat, n: nat, p: Path)
    requires 0 < n <= |bs| && LastPut(root, bs, owner, n - 1, p) && !TouchesAt(root, bs, n - 1, p)
    ensures LastPut(root, bs, owner, n, p)
  {
    assert forall m: nat :: owner + 1 <= m < n - 1 ==> !TouchesAt(root, bs, m, p);
  }

  /** A file at a delivered path was put there by the last delivery that touched it. */
  lemma {:induction false} RegularHasOwner(
    states: seq<Local>, root: Path, sha: Bytes -> string, bs: seq<Bundle>, faultFree: bool, i: nat, n: nat, p: Path)
    returns (owner: nat)
    requires Deliveries(states, root, sha, bs, faultFree) && i < n <= |bs| && DeliversAt(root, bs, i, p)
    requires p in states[n].tree && states[n].tree[p].Regular?
    ensures LastPut(root, bs, owner, n, p)
    decreases n
  {
    owner := n - 1;
    if !DeliversAt(root, bs, n - 1, p) {
      DeliveredBelow(root, bs, i, p);
      FileFromBefore(states, root, sha, bs, faultFree, n - 1, p);
      owner := RegularHasOwner(states, root, sha, bs, faultFree, i, n - 1, p);
      LastPutOnward(root, bs, owner, n, p);
    }
  }

  lemma DeliveredBelow(root: Path, bs: seq<Bundle>, i: nat, p: Path)
    requires i < |bs| && DeliversAt(root, bs, i, p)
    ensures root < p
  {}

  /** Where a file stands after a delivery that put none there, nothing touched it. */
  lemma NotTouchedByFile(root: Path, bs: seq<Bundle>, m: nat, p: Path, now: Tree)
    requires m < |bs| && !DeliversAt(root, bs, m, p) && p in now && now[p].Regular?
    requires AboveSome(root, bs[m].files, p) ==> IsDir(now, p)
    ensures !TouchesAt(root, bs, m, p)
  {}

  /** No path any delivery put a file at still holds one. */
  ghost predicate AllTakenBack(left: Tree, root: Path, bs: seq<Bundle>) {
    forall i, p :: 0 <= i < |bs| && DeliversAt(root, bs, i, p) ==> p !in left || !left[p].Regular?
  }

  /** Every path delivered is touched again by some later revision. */
  ghost predicate AllTouchedLater(root: Path, bs: seq<Bundle>) {
    forall i, p :: 0 <= i < |bs| - 1 && DeliversAt(root, bs, i, p) ==> TouchedBetween(root, bs, i + 1, |bs|, p)
  }

  /**
    After any number of deliveries of one bundle, cleanup takes back every file
    exactly when each file of an earlier revision was at a path a later one uses,
    as a destination or above one.
   */
  lemma {:induction false} CleanupTakesAllBackExactlyWhen(
    states: seq<Local>, root: Path, sha: Bytes -> string, bs: seq<Bundle>, faultFree: bool)
    requires Deliveries(states, root, sha, bs, faultFree) && bs != []
    ensures var last := states[|bs|];
      var left := last.tree - Recorded(last, root, sha, ManifestName(bs[0].app, bs[0].env));
      AllTakenBack(left, root, bs) <==> AllTouchedLater(root, bs)
  {
    var n := |bs|;
    var last := states[n];
    assert DeliveryAt(states, root, sha, bs, faultFree, n - 1);
    CleanupRemovesLastDelivery(states[n - 1], last, root, sha, bs[n - 1], faultFree);
    var left := last.tree - Dests(root, bs[n - 1].files);
    if AllTouchedLater(root, bs) {
      forall i, p | 0 <= i < n && DeliversAt(root, bs, i, p) ensures p !in left || !left[p].Regular? {
        if p in last.tree && last.tree[p].Regular? {
          var owner := RegularHasOwner(states, root, sha, bs, faultFree, i, n, p);
          LastIsRemoved(root, bs, owner, p);
        }
      }
    } else {
      var i, p :| 0 <= i < n - 1 && DeliversAt(root, bs, i, p) && !TouchedBetween(root, bs, i + 1, n, p);
      var k :| 0 <= k < |bs[i].files| && p == Dest(root, bs[i].files[k]);
      StaysUntouched(states, root, sha, bs, faultFree, i, k, n);
      assert !TouchesAt(root, bs, n - 1, p) && p !in Dests(root, bs[n - 1].files);
      assert p in left && left[p].Regular?;
    }
  }

  lemma LastIsRemoved(root: Path, bs: seq<Bundle>, owner: nat, p: Path)
    requires AllTouchedLater(root, bs) && LastPut(root, bs, owner, |bs|, p)
    ensures p in Dests(root, bs[|bs| - 1].files)
  {
    assert owner == |bs| - 1;
  }

  // --- Files that cannot be deleted -------------------------------------------------

  lemma StoppedIsDropped(cleanup: seq<Instruction>, k: nat)
    requires k < |cleanup| && cleanup[k].stopped
    ensures NameOf(cleanup[k]) in Dropped(cleanup)
    decreases |cleanup|
  {
    var n := |cleanup| - 1;
    if k < n {
      assert cleanup[..n][k] == cleanup[k];
      StoppedIsDropped(cleanup[..n], k);
    }
  }

  /**
    Every instruction whose units stop is reported cleaned and loses its manifest.
    Of its recorded files exactly the stuck ones stay, so the report is true
    exactly when none of them is stuck; nothing points at those that stay.
   */
  lemma {:induction false} CleanedReportTrueExactlyWhen(
    l: Local, now: Local, root: Path, sha: Bytes -> string, cleanup: seq<Instruction>, gone: set<Path>, stuck: set<Path>, k: nat)
    requires PartlyCleaned(l, now, root, sha, cleanup, gone, stuck, true)
    requires k < |cleanup| && cleanup[k].stopped
    ensures CallsOf(cleanup[k])[0] == CleanupReport(cleanup[k].assignmentId, true)
    ensures NameOf(cleanup[k]) !in now.manifests
    ensures var recorded := Recorded(l, root, sha, NameOf(cleanup[k]));
      && (forall p :: p in recorded ==> (p in now.tree <==> p in stuck))
      && (recorded !! now.tree.Keys <==> recorded !! stuck)
  {
    var recorded := Recorded(l, root, sha, NameOf(cleanup[k]));
    StoppedIsDropped(cleanup, k);
    DroppedIsObsolete(l, root, sha, cleanup, NameOf(cleanup[k]));
    ObsoleteFiles(l, root, sha, cleanup);
    assert forall p :: p in recorded ==> p in l.tree && (p in gone <==> p !in stuck);
  }

  /** One recorded file that cannot be unlinked: it stays, and "cleaned" is all Core hears. */
  method StuckFileExample() returns (calls: seq<Call>, left: Tree, forgotten: bool, ghost recorded: set<Path>)
    ensures calls == [CleanupReport("a", true)] && forgotten
    ensures ["x"] in recorded && ["x"] in left
  {
    var tree: Tree := map[[] := Directory, ["x"] := Regular([], TEMP_MODE)];
    var disk := new Disk(tree, true, {["x"]}, 40);
    var sha := (content: Bytes) => "digest";
    var agent := new Agent(disk, [], sha);
    var name := ManifestName("app", "prod");
    agent.manifests := map[name := [ManifestEntry("x", "digest")]];
    ghost var l := agent.State();
    recorded := Recorded(l, [], sha, name);
    LetterRecorded(tree, agent.manifests[name], sha);
    var cleanup := [Instruction("a", "app", "prod", true, true)];
    ghost var gone := agent.ProcessCleanup(cleanup);
    CleanedReportTrueExactlyWhen(l, agent.State(), [], sha, cleanup, gone, disk.stuck, 0);
    assert cleanup[..0] == [] && CleanupCalls(cleanup) == CallsOf(cleanup[0]);
    calls, left, forgotten := agent.calls, disk.tree, name !in agent.manifests;
  }

  lemma LetterRecorded(t: Tree, entries: seq<ManifestEntry>, sha: Bytes -> string)
    requires entries == [ManifestEntry("x", "digest")] && ["x"] in t && t[["x"]].Regular? && sha(t[["x"]].content) == "digest"
    ensures ["x"] in RemovalSet(t, [], entries, sha)
  {
    LetterIsValid("x");
    var e := entries[0];
    assert EntryDest([], e) == ["x"] && Removable(t, [], e, sha);
  }

  // --- A file moved to another path -------------------------------------------------------------------

  /** One file delivered on a healthy disk. */
  method DeliverLetter(agent: Agent, b: Bundle)
    requires agent.Valid() && agent.root == [] && agent.disk.faultFree
    requires |b.files| == 1 && Sound(b, agent.sha) && OneLetter(b.files[0].path)
    requires [b.files[0].path] !in agent.disk.tree && |agent.disk.tree| < 10
    modifies agent`manifests, agent.disk
    ensures agent.Valid()
    ensures Activated(old(agent.State()), agent.State(), [], agent.sha, b, true, true)
    ensures Kept(old(agent.disk.tree), [], b.files)
    ensures agent.disk.tree == old(agent.disk.tree)[[b.files[0].path] := Placed(b.files[0])]
    ensures Suited(old(agent.disk.tree), [], b.files)
  {
    ghost var before, f := agent.disk.tree, b.files[0];
    assert b.files == [f] && [] + b.files == b.files;
    OneFileFits(before, f);
    NextFits(before, before, [], [], b.files, b.files);
    var ok := agent.Activate(b);
    InstalledFirst(before, f);
  }

  lemma InstalledFirst(t: Tree, f: PayloadFile)
    requires f.mode.Some? && Dest([], f) == [f.path]
    ensures Installed(MakeDirs(t, [], []), [], [f]) == t[[f.path] := Placed(f)]
  {
    assert [f][..0] == [] && Installed(t, [], []) == t;
  }

  /** With one file each, at different paths, the first stays. */
  lemma {:induction false} FirstIsAbandoned(
    l0: Local, l1: Local, l2: Local, sha: Bytes -> string, b1: Bundle, b2: Bundle, f1: PayloadFile, f2: PayloadFile)
    requires b1.files == [f1] && b2.files == [f2] && b1.app == b2.app && b1.env == b2.env
    requires Dest([], f1) == [f1.path] && Dest([], f2) == [f2.path] && f1.path != f2.path
    requires WellFormed(l0.tree) && WellFormed(l1.tree)
    requires Activated(l0, l1, [], sha, b1, true, true) && Kept(l0.tree, [], [f1])
    requires Activated(l1, l2, [], sha, b2, true, true) && Kept(l1.tree, [], [f2])
    ensures [f1.path] in l2.tree - Recorded(l2, [], sha, ManifestName(b1.app, b1.env))
  {
    TwoLetters(b1.files, b2.files, f1, f2);
    CleanupMissesEarlierFiles(l0, l1, l2, [], sha, b1, b2, true, 0);
  }

  lemma TwoLetters(a: seq<PayloadFile>, b: seq<PayloadFile>, f1: PayloadFile, f2: PayloadFile)
    requires a == [f1] && b == [f2] && Dest([], f1) == [f1.path] && Dest([], f2) == [f2.path] && f1.path != f2.path
    ensures PrefixFree([], a) && PrefixFree([], b) && Distinct([], a) && Distinct([], b)
    ensures !Touches([], b, Dest([], f1))
  {
    assert !([f1.path] <= [f2.path]) by {
      assert [f1.path][0] != [f2.path][0];
    }
  }

  /** A secret moved from the path "a" to "b", then the cleanup of its environment. */
  method AbandonedFileExample() returns (left: Tree)
    ensures ["a"] in left
  {
    var disk := new Disk(map[[] := Directory], true, {}, 40);
    var sha := (content: Bytes) => "digest";
    var agent := new Agent(disk, [], sha);
    var f1, f2 := PayloadFile("a", Some(TEMP_MODE), "digest", []), PayloadFile("b", Some(TEMP_MODE), "digest", []);
    var b1, b2 := Bundle("app", "prod", [f1]), Bundle("app", "prod", [f2]);
    LetterIsValid(f1.path);
    LetterIsValid(f2.path);
    left := DeliverTwiceAndClean(agent, b1, b2, f1, f2);
  }

  method DeliverTwiceAndClean(agent: Agent, b1: Bundle, b2: Bundle, f1: PayloadFile, f2: PayloadFile) returns (left: Tree)
    requires agent.Valid() && agent.root == [] && agent.disk.faultFree && |agent.disk.tree| < 5
    requires b1.files == [f1] && b2.files == [f2] && b1.app == b2.app && b1.env == b2.env
    requires Sound(b1, agent.sha) && Sound(b2, agent.sha) && OneLetter(f1.path) && OneLetter(f2.path) && f1.path != f2.path
    requires [f1.path] !in agent.disk.tree && [f2.path] !in agent.disk.tree
    modifies agent`manifests, agent.disk
    ensures [f1.path] in left
  {
    ghost var l0 := agent.State();
    DeliverLetter(agent, b1);
    ghost var l1 := agent.State();
    DeliverLetter(agent, b2);
    ghost var l2 := agent.State();
    var removed;
    ghost var gone;
    removed, gone := agent.RemoveManifestFiles(b1.app, b1.env);
    LetterIsValid(f1.path);
    LetterIsValid(f2.path);
    FirstIsAbandoned(l0, l1, l2, agent.sha, b1, b2, f1, f2);
    left := agent.disk.tree;
  }
}
