/**
  The Agent's cleanup: what a delivery records, and the removal of exactly that.
 */
module Cleanup {
  import opened Common
  import opened FileTree
  import opened Paths
  import opened Materializer
  import Strings

  datatype ManifestEntry = ManifestEntry(path: string, sha256: string)

  /** What save_manifest writes down. */
  function ManifestOf(files: seq<PayloadFile>): (m: seq<ManifestEntry>)
    ensures |m| == |files|
  {
    seq(|files|, k requires 0 <= k < |files| => ManifestEntry(files[k].path, files[k].sha256))
  }

  function EntryDest(root: Path, e: ManifestEntry): (d: Path)
    ensures root < d
  {
    root + Components(e.path)
  }

  /** The recorded path is valid and every directory down to it is a real one. */
  predicate Reachable(t: Tree, root: Path, e: ManifestEntry) {
    && ValidatePath(e.path).Ok?
    && forall k :: 0 < k < |Components(e.path)| ==> IsDir(t, root + Components(e.path)[..k])
  }

  /** The recorded file is still the one the Agent wrote. */
  predicate Removable(t: Tree, root: Path, e: ManifestEntry, sha: Bytes -> string) {
    && Reachable(t, root, e)
    && EntryDest(root, e) in t
    && t[EntryDest(root, e)].Regular?
    && sha(t[EntryDest(root, e)].content) == e.sha256
  }

  function RemovalSet(t: Tree, root: Path, entries: seq<ManifestEntry>, sha: Bytes -> string): set<Path> {
    set k | 0 <= k < |entries| && Removable(t, root, entries[k], sha) :: EntryDest(root, entries[k])
  }

  /** What can be removed: a regular file at a valid recorded path, below real
      directories, whose content still has the recorded digest. A file anyone
      changed, and whatever lies behind a link, is left alone. */
  lemma RemovedExactly(t: Tree, root: Path, entries: seq<ManifestEntry>, sha: Bytes -> string, p: Path)
    ensures p in RemovalSet(t, root, entries, sha) <==>
      exists k :: 0 <= k < |entries| && RecordedHere(t, root, entries[k], sha, p)
  {
    if k :| 0 <= k < |entries| && RecordedHere(t, root, entries[k], sha, p) {
      RecordedIsRemovable(t, root, entries[k], sha, p);
    }
    if p in RemovalSet(t, root, entries, sha) {
      var k :| 0 <= k < |entries| && Removable(t, root, entries[k], sha) && p == EntryDest(root, entries[k]);
      RecordedIsRemovable(t, root, entries[k], sha, p);
    }
  }

  /** The entry records this path, the way to it is real, and the file is unchanged. */
  ghost predicate RecordedHere(t: Tree, root: Path, e: ManifestEntry, sha: Bytes -> string, p: Path) {
    && ValidatePath(e.path).Ok? && p == root + Strings.Split(e.path, '/')
    && (forall q :: root < q < p ==> q in t && t[q].Directory?)
    && p in t && t[p].Regular? && sha(t[p].content) == e.sha256
  }

  lemma RecordedIsRemovable(t: Tree, root: Path, e: ManifestEntry, sha: Bytes -> string, p: Path)
    ensures RecordedHere(t, root, e, sha, p) <==> Removable(t, root, e, sha) && p == EntryDest(root, e)
  {
    var parts := Components(e.path);
    if p == root + parts {
      forall k | 0 < k < |parts| ensures root < root + parts[..k] < p {
        assert p[..|root| + k] == root + parts[..k];
      }
      if Reachable(t, root, e) {
        forall q | root < q < p ensures q in t && t[q].Directory? {
          assert q == p[..|q|] == root + parts[..|q| - |root|];
          assert IsDir(t, root + parts[..|q| - |root|]);
        }
      }
    }
  }

  /** _manifest_target. */
  method ManifestTarget(disk: Disk, root: Path, e: ManifestEntry) returns (target: Option<Path>)
    ensures target.Some? ==> target.value == EntryDest(root, e)
    ensures target.Some? <==>
      Reachable(disk.tree, root, e) &&
      !(EntryDest(root, e) in disk.tree && disk.tree[EntryDest(root, e)].Symlink?)
  {
    if ValidatePath(e.path).Err? { return None; }
    var parts := Components(e.path);
    var k := 0;
    while k < |parts| - 1
      invariant 0 <= k <= |parts| - 1
      invariant forall j :: 0 < j <= k ==> IsDir(disk.tree, root + parts[..j])
    {
      var current := root + parts[..k + 1];
      if !IsDir(disk.tree, current) { return None; }
      k := k + 1;
    }
    var dest := EntryDest(root, e);
    if dest in disk.tree && disk.tree[dest].Symlink? { return None; }
    return Some(dest);
  }

  lemma RemovableLater(t: Tree, gone: set<Path>, root: Path, e: ManifestEntry, sha: Bytes -> string)
    requires forall p :: p in gone ==> !IsDir(t, p)
    ensures Removable(t - gone, root, e, sha) <==> Removable(t, root, e, sha) && EntryDest(root, e) !in gone
  {
    var u := t - gone;
    forall k | 0 < k < |Components(e.path)|
      ensures IsDir(t, root + Components(e.path)[..k]) <==> IsDir(u, root + Components(e.path)[..k])
    {}
  }

  /** What is left to remove once some files are gone. */
  lemma RemovalSetLater(t: Tree, gone: set<Path>, root: Path, entries: seq<ManifestEntry>, sha: Bytes -> string)
    requires forall p :: p in gone ==> !IsDir(t, p)
    ensures RemovalSet(t - gone, root, entries, sha) == RemovalSet(t, root, entries, sha) - gone
  {
    forall k | 0 <= k < |entries|
      ensures Removable(t - gone, root, entries[k], sha) <==>
              Removable(t, root, entries[k], sha) && EntryDest(root, entries[k]) !in gone
    {
      RemovableLater(t, gone, root, entries[k], sha);
    }
  }

  lemma RemovableHasParent(t: Tree, root: Path, e: ManifestEntry, sha: Bytes -> string)
    requires WellFormed(t) && Removable(t, root, e, sha)
    ensures IsDir(t, Parent(EntryDest(root, e)))
  {}

  /** The tests of one turn of the deletion loop. */
  method Matches(disk: Disk, root: Path, e: ManifestEntry, sha: Bytes -> string) returns (matches: bool)
    ensures matches <==> Removable(disk.tree, root, e, sha)
  {
    var target := ManifestTarget(disk, root, e);
    if target.None? || target.value !in disk.tree || !disk.tree[target.value].Regular? { return false; }
    matches := sha(disk.tree[target.value].content) == e.sha256;
  }

  /** One turn of the deletion loop of remove_manifest_files: a file that cannot
      be read or unlinked is passed over. */
  method RemoveEntry(disk: Disk, root: Path, e: ManifestEntry, sha: Bytes -> string) returns (removed: bool)
    requires WellFormed(disk.tree)
    modifies disk
    ensures WellFormed(disk.tree)
    ensures removed ==> Removable(old(disk.tree), root, e, sha) && EntryDest(root, e) !in disk.stuck
    ensures disk.steady && Removable(old(disk.tree), root, e, sha) && EntryDest(root, e) !in disk.stuck ==> removed
    ensures disk.tree == if removed then old(disk.tree) - {EntryDest(root, e)} else old(disk.tree)
    ensures disk.trace == old(disk.trace) || disk.trace == old(disk.trace) + [disk.tree]
  {
    removed := false;
    var unreadable := disk.FaultAt(EntryDest(root, e));
    var matches := Matches(disk, root, e, sha);
    if matches && !unreadable {
      RemovableHasParent(disk.tree, root, e, sha);
      LocateReal(disk.tree, EntryDest(root, e), disk.maxLinks);
      removed := disk.Unlink(EntryDest(root, e));
    }
  }

  /** `now` is `before` without some of the paths in `whole`. */
  ghost predicate Shrunk(before: Tree, now: Tree, whole: set<Path>) {
    exists gone :: gone <= whole && now == before - gone
  }

  /** The deletion loop of remove_manifest_files; `gone` is what it deleted. */
  method RemoveEntries(disk: Disk, root: Path, entries: seq<ManifestEntry>, sha: Bytes -> string)
    returns (removed: nat, ghost gone: set<Path>)
    requires WellFormed(disk.tree)
    modifies disk
    ensures WellFormed(disk.tree)
    ensures gone <= RemovalSet(old(disk.tree), root, entries, sha)
    ensures gone !! disk.stuck
    ensures disk.steady ==> gone == RemovalSet(old(disk.tree), root, entries, sha) - disk.stuck
    ensures disk.tree == old(disk.tree) - gone && removed == |gone|
    ensures old(disk.trace) <= disk.trace
    ensures ShrunkSince(disk.trace, |old(disk.trace)|, old(disk.tree), RemovalSet(old(disk.tree), root, entries, sha))
  {
    ghost var before, start := disk.tree, |disk.trace|;
    removed, gone := 0, {};
    assert before - gone == before;
    for k := 0 to |entries|
      invariant WellFormed(disk.tree) && old(disk.trace) <= disk.trace
      invariant PartlyRemoved(before, disk.tree, RemovalSet(before, root, entries[..k], sha), gone, disk.stuck, disk.steady)
      invariant ShrunkSince(disk.trace, start, before, RemovalSet(before, root, entries[..k], sha))
      invariant removed == |gone|
    {
      ghost var above, earlier := disk.tree, disk.trace;
      var ok := RemoveEntry(disk, root, entries[k], sha);
      gone := EntryTurn(before, above, disk.tree, earlier, disk.trace, start, root, entries, k, gone, sha, disk.stuck, disk.steady, ok);
      removed := removed + (if ok then 1 else 0);
    }
    assert entries[..|entries|] == entries;
  }

  /** Every state since position `from` of the trace lacks nothing but removable files. */
  ghost predicate ShrunkSince(trace: seq<Tree>, from: nat, before: Tree, whole: set<Path>) {
    forall i :: from <= i < |trace| ==> Shrunk(before, trace[i], whole)
  }

  lemma ShrunkGrows(earlier: seq<Tree>, trace: seq<Tree>, now: Tree, from: nat, before: Tree, small: set<Path>,
                    whole: set<Path>, gone: set<Path>)
    requires ShrunkSince(earlier, from, before, small) && small <= whole
    requires gone <= whole && now == before - gone
    requires trace == earlier || trace == earlier + [now]
    ensures ShrunkSince(trace, from, before, whole)
  {
    ShrunkBy(before, now, whole, gone);
    forall i | from <= i < |earlier| ensures Shrunk(before, earlier[i], whole) {
      ShrunkMore(before, earlier[i], small, whole);
    }
  }

  lemma ShrunkMore(before: Tree, now: Tree, small: set<Path>, whole: set<Path>)
    requires Shrunk(before, now, small) && small <= whole
    ensures Shrunk(before, now, whole)
  {
    var gone :| gone <= small && now == before - gone;
    ShrunkBy(before, now, whole, gone);
  }

  /** `gone` of the removable files `small` are removed, none of them stuck, and
      on a steady disk all that are not. */
  ghost predicate PartlyRemoved(before: Tree, now: Tree, small: set<Path>, gone: set<Path>, stuck: set<Path>, steady: bool) {
    gone <= small && gone !! stuck && (steady ==> gone == small - stuck) && now == before - gone
  }

  lemma ShrunkBy(before: Tree, now: Tree, whole: set<Path>, gone: set<Path>)
    requires gone <= whole && now == before - gone
    ensures Shrunk(before, now, whole)
  {}

  /** Earlier removals change an entry's decision only if its own file is gone. */
  lemma StillRemovable(before: Tree, gone: set<Path>, root: Path, entries: seq<ManifestEntry>, e: ManifestEntry,
                       sha: Bytes -> string)
    requires gone <= RemovalSet(before, root, entries, sha)
    ensures Removable(before - gone, root, e, sha) <==> Removable(before, root, e, sha) && EntryDest(root, e) !in gone
  {
    RemovalSetFiles(before, root, entries, sha);
    RemovableLater(before, gone, root, e, sha);
  }

  /** One turn of the loop: a file recorded twice is removed and counted once. */
  lemma EntryTurn(before: Tree, above: Tree, now: Tree, earlier: seq<Tree>, trace: seq<Tree>, start: nat, root: Path,
                  entries: seq<ManifestEntry>, k: nat, gone: set<Path>, sha: Bytes -> string, stuck: set<Path>,
                  steady: bool, removed: bool)
    returns (next: set<Path>)
    requires k < |entries|
    requires PartlyRemoved(before, above, RemovalSet(before, root, entries[..k], sha), gone, stuck, steady)
    requires ShrunkSince(earlier, start, before, RemovalSet(before, root, entries[..k], sha))
    requires removed ==> Removable(above, root, entries[k], sha) && EntryDest(root, entries[k]) !in stuck
    requires steady && Removable(above, root, entries[k], sha) && EntryDest(root, entries[k]) !in stuck ==> removed
    requires now == if removed then above - {EntryDest(root, entries[k])} else above
    requires trace == earlier || trace == earlier + [now]
    ensures PartlyRemoved(before, now, RemovalSet(before, root, entries[..k + 1], sha), next, stuck, steady)
    ensures ShrunkSince(trace, start, before, RemovalSet(before, root, entries[..k + 1], sha))
    ensures |next| == |gone| + (if removed then 1 else 0)
  {
    var small, whole := RemovalSet(before, root, entries[..k], sha), RemovalSet(before, root, entries[..k + 1], sha);
    next := if removed then gone + {EntryDest(root, entries[k])} else gone;
    StillRemovable(before, gone, root, entries[..k], entries[k], sha);
    RemovalSetStep(before, root, entries, k, sha);
    TurnSets(before, above, small, gone, EntryDest(root, entries[k]), Removable(before, root, entries[k], sha), stuck, steady,
             removed);
    ShrunkGrows(earlier, trace, now, start, before, small, whole, next);
  }

  lemma TurnSets(before: Tree, above: Tree, small: set<Path>, gone: set<Path>, p: Path, yes: bool, stuck: set<Path>,
                 steady: bool, removed: bool)
    requires PartlyRemoved(before, above, small, gone, stuck, steady)
    requires removed ==> yes && p !in gone && p !in stuck
    requires steady && yes && p !in gone && p !in stuck ==> removed
    ensures var next := if removed then gone + {p} else gone;
      && PartlyRemoved(before, if removed then above - {p} else above, small + (if yes then {p} else {}), next, stuck, steady)
      && |next| == |gone| + (if removed then 1 else 0)
  {
    assert before - gone - {p} == before - (gone + {p});
  }

  lemma RemovalSetFiles(t: Tree, root: Path, entries: seq<ManifestEntry>, sha: Bytes -> string)
    ensures forall p :: p in RemovalSet(t, root, entries, sha) ==> p in t && t[p].Regular?
  {}

  lemma RemovalSetStep(t: Tree, root: Path, entries: seq<ManifestEntry>, k: nat, sha: Bytes -> string)
    requires k < |entries|
    ensures RemovalSet(t, root, entries[..k + 1], sha) == RemovalSet(t, root, entries[..k], sha) +
      (if Removable(t, root, entries[k], sha) then {EntryDest(root, entries[k])} else {})
  {
    var now, next := RemovalSet(t, root, entries[..k], sha), RemovalSet(t, root, entries[..k + 1], sha);
    forall p | p in now ensures p in next {
      var j :| 0 <= j < k && Removable(t, root, entries[..k][j], sha) && p == EntryDest(root, entries[..k][j]);
      assert entries[..k + 1][j] == entries[..k][j];
    }
    forall p | p in next ensures p in now || (Removable(t, root, entries[k], sha) && p == EntryDest(root, entries[k])) {
      var j :| 0 <= j < k + 1 && Removable(t, root, entries[..k + 1][j], sha) && p == EntryDest(root, entries[..k + 1][j]);
      if j < k { assert entries[..k][j] == entries[..k + 1][j]; }
    }
    if Removable(t, root, entries[k], sha) {
      assert entries[..k + 1][k] == entries[k];
    }
  }

  function Dests(root: Path, files: seq<PayloadFile>): set<Path> {
    set k | 0 <= k < |files| :: Dest(root, files[k])
  }

  lemma {:induction false} DestsCardinality(root: Path, files: seq<PayloadFile>)
    requires Distinct(root, files)
    ensures |Dests(root, files)| == |files|
  {
    if files != [] {
      var n := |files| - 1;
      var init := files[..n];
      DestsCardinality(root, init);
      DestsOfLast(root, files);
      forall p | p in Dests(root, init) ensures p != Dest(root, files[n]) {
        var k :| 0 <= k < n && p == Dest(root, init[k]);
        assert init[k] == files[k];
      }
    }
  }

  lemma DestsOfLast(root: Path, files: seq<PayloadFile>)
    requires files != []
    ensures Dests(root, files) == Dests(root, files[..|files| - 1]) + {Dest(root, files[|files| - 1])}
  {
    var n := |files| - 1;
    var init := files[..n];
    forall p | p in Dests(root, files) ensures p in Dests(root, init) + {Dest(root, files[n])} {
      var k :| 0 <= k < |files| && p == Dest(root, files[k]);
      if k < n { assert init[k] == files[k]; }
    }
    forall p | p in Dests(root, init) ensures p in Dests(root, files) {
      var k :| 0 <= k < n && p == Dest(root, init[k]);
      assert init[k] == files[k];
    }
  }

  /** Cleanup takes back exactly what delivery put there. */
  lemma CleanupInvertsDelivery(t: Tree, root: Path, files: seq<PayloadFile>, sha: Bytes -> string)
    requires WellFormed(t) && RootUsable(t, root) && Parsed(files)
    requires AllPathsValid(files) && AllHashesMatch(files, sha)
    requires PrefixFree(root, files) && Distinct(root, files) && NoDirectoryInTheWay(t, root, files)
    ensures var now := Installed(MakeDirs(t, [], root), root, files);
      && RemovalSet(now, root, ManifestOf(files), sha) == Dests(root, files)
      && |RemovalSet(now, root, ManifestOf(files), sha)| == |files|
      && Confined(t, now - Dests(root, files), root, files)
      && (forall k :: 0 <= k < |files| ==> Dest(root, files[k]) !in now - Dests(root, files))
      && RemovalSet(now - Dests(root, files), root, ManifestOf(files), sha) == {}
  {
    var now := Installed(MakeDirs(t, [], root), root, files);
    DeliveryTheorem(t, root, files);
    DeliveredAreRemovable(t, now, root, files, sha);
    DestsCardinality(root, files);
    NothingLeftToRemove(now, root, files, sha);
    ConfinedAfterRemoval(t, now, root, files);
  }

  lemma DeliveredAreRemovable(t: Tree, now: Tree, root: Path, files: seq<PayloadFile>, sha: Bytes -> string)
    requires Parsed(files) && Delivered(t, now, root, files) && AllPathsValid(files) && AllHashesMatch(files, sha)
    ensures RemovalSet(now, root, ManifestOf(files), sha) == Dests(root, files)
  {
    var m := ManifestOf(files);
    forall k | 0 <= k < |files| ensures Removable(now, root, m[k], sha) && EntryDest(root, m[k]) == Dest(root, files[k]) {
      DeliveredIsRemovable(t, now, root, files, k, sha);
    }
    forall p | p in Dests(root, files) ensures p in RemovalSet(now, root, m, sha) {
      var k :| 0 <= k < |files| && p == Dest(root, files[k]);
      assert Removable(now, root, m[k], sha) && p == EntryDest(root, m[k]);
    }
  }

  lemma NothingLeftToRemove(now: Tree, root: Path, files: seq<PayloadFile>, sha: Bytes -> string)
    ensures RemovalSet(now - Dests(root, files), root, ManifestOf(files), sha) == {}
  {
    var m := ManifestOf(files);
    forall k | 0 <= k < |m| ensures !Removable(now - Dests(root, files), root, m[k], sha) {
      assert EntryDest(root, m[k]) == Dest(root, files[k]) && Dest(root, files[k]) in Dests(root, files);
    }
  }

  lemma ConfinedAfterRemoval(t: Tree, now: Tree, root: Path, files: seq<PayloadFile>)
    requires Confined(t, now, root, files)
    ensures Confined(t, now - Dests(root, files), root, files)
  {
    forall p | !Touched(root, files, p) ensures SameAt(t, now - Dests(root, files), p) {
      assert SameAt(t, now, p) && p !in Dests(root, files);
    }
  }

  lemma DeliveredIsRemovable(t: Tree, now: Tree, root: Path, files: seq<PayloadFile>, k: nat, sha: Bytes -> string)
    requires k < |files| && Parsed(files) && Delivered(t, now, root, files)
    requires AllPathsValid(files) && AllHashesMatch(files, sha)
    ensures Removable(now, root, ManifestOf(files)[k], sha)
  {
    var parts := Components(files[k].path);
    var dest := Dest(root, files[k]);
    forall j | 0 < j < |parts| ensures IsDir(now, root + parts[..j]) {
      assert root + parts[..j] == Parent(dest)[..|root| + j];
      assert Between(root, root + parts[..j], Parent(dest));
    }
  }
}
