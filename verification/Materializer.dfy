/** The Agent's materializer: puts the files of one bundle under the bundle root. */
module Materializer {
  import opened Common
  import opened FileTree
  import opened Paths
  import Strings

  /** `mode` is the parsed octal mode, None when int(mode, 8) raises. */
  datatype PayloadFile = PayloadFile(path: string, mode: Option<nat>, sha256: string, content: Bytes)

  datatype Status = Done | BadPath | BadHash | Failed

  function Dest(root: Path, f: PayloadFile): (d: Path)
    ensures root < d
  {
    root + Components(f.path)
  }

  // --- What delivery means --------------------------------------------------

  /** `p` is an ancestor-or-self of `dir` that lies strictly below `base`. */
  predicate Between(base: Path, p: Path, dir: Path) {
    base < p <= dir
  }

  ghost predicate OnlyBetween(t: Tree, u: Tree, base: Path, dir: Path) {
    forall p :: !Between(base, p, dir) ==> SameAt(t, u, p)
  }

  ghost predicate OnlyAt(t: Tree, u: Tree, q: Path) {
    forall p :: p != q ==> SameAt(t, u, p)
  }

  lemma OnlyBetweenStep(t: Tree, u: Tree, v: Tree, base: Path, q: Path, dir: Path)
    requires OnlyBetween(t, u, base, dir) && OnlyAt(u, v, q) && Between(base, q, dir)
    ensures OnlyBetween(t, v, base, dir)
  {
    forall p | !Between(base, p, dir) ensures SameAt(t, v, p) {
      assert SameAt(t, u, p) && SameAt(u, v, p);
    }
  }

  lemma BetweenParent(base: Path, dir: Path)
    requires base < dir
    ensures forall p :: Between(base, p, dir) <==> p == dir || Between(base, p, Parent(dir))
  {
    forall p ensures Between(base, p, dir) <==> p == dir || Between(base, p, Parent(dir)) {
      if Between(base, p, dir) && p != dir {
        assert p == dir[..|p|] == Parent(dir)[..|p|];
      }
    }
  }

  /** `t` with every path below `base` down to `dir` made a real directory. */
  function MakeDirs(t: Tree, base: Path, dir: Path): (r: Tree)
    requires base <= dir
    ensures OnlyBetween(t, r, base, dir)
    ensures forall p :: Between(base, p, dir) ==> IsDir(r, p)
    decreases |dir|
  {
    if dir == base then t
    else
      BetweenParent(base, dir);
      MakeDirs(t, base, Parent(dir))[dir := Directory]
  }

  function Placed(f: PayloadFile): Entry
    requires f.mode.Some?
  {
    Regular(f.content, f.mode.value)
  }

  function InstallOne(t: Tree, root: Path, f: PayloadFile): Tree
    requires f.mode.Some?
  {
    MakeDirs(t, root, Parent(Dest(root, f)))[Dest(root, f) := Placed(f)]
  }

  /** What the loop body leaves when mkstemp picked `name`: the clean-up of the
      temporary file removes the destination itself if the names coincide. */
  function AfterInstall(t: Tree, root: Path, f: PayloadFile, name: string): Tree
    requires f.mode.Some?
  {
    if name == Name(Dest(root, f)) then MakeDirs(t, root, Parent(Dest(root, f)))
    else InstallOne(t, root, f)
  }

  predicate Parsed(files: seq<PayloadFile>) {
    forall k :: 0 <= k < |files| ==> files[k].mode.Some?
  }

  function Installed(t: Tree, root: Path, files: seq<PayloadFile>): Tree
    requires Parsed(files)
  {
    if files == [] then t
    else InstallOne(Installed(t, root, files[..|files| - 1]), root, files[|files| - 1])
  }

  /** No file meets a directory at its destination when its turn comes. */
  predicate Installable(t: Tree, root: Path, files: seq<PayloadFile>)
    requires Parsed(files)
  {
    files == [] ||
    (Installable(t, root, files[..|files| - 1]) &&
     !IsDir(Installed(t, root, files[..|files| - 1]), Dest(root, files[|files| - 1])))
  }

  predicate AllPathsValid(files: seq<PayloadFile>) {
    forall k :: 0 <= k < |files| ==> ValidatePath(files[k].path).Ok?
  }

  predicate AllHashesMatch(files: seq<PayloadFile>, sha: Bytes -> string) {
    forall k :: 0 <= k < |files| ==> sha(files[k].content) == files[k].sha256
  }

  /** No destination is a proper ancestor of another. */
  ghost predicate PrefixFree(root: Path, files: seq<PayloadFile>) {
    forall j, k :: 0 <= j < |files| && 0 <= k < |files| ==> !(Dest(root, files[j]) < Dest(root, files[k]))
  }

  ghost predicate Distinct(root: Path, files: seq<PayloadFile>) {
    forall j, k :: 0 <= j < k < |files| ==> Dest(root, files[j]) != Dest(root, files[k])
  }

  /** A name mkstemp can draw for `f`: beside the destination, and unused. */
  ghost predicate CanDraw(t: Tree, root: Path, f: PayloadFile, name: string) {
    IsTempName(name) && Parent(Dest(root, f)) + [name] !in t
  }

  /** The tree after a loop in which mkstemp drew `draws`, one for each file. */
  function AfterDraws(t: Tree, root: Path, files: seq<PayloadFile>, draws: seq<string>): Tree
    requires Parsed(files) && |draws| == |files|
  {
    if files == [] then t
    else
      var n := |files| - 1;
      AfterInstall(AfterDraws(t, root, files[..n], draws[..n]), root, files[n], draws[n])
  }

  /** A run that reached the end: each of `draws` was drawable when its turn came,
      and no directory stood at the destination, where os.replace raises. */
  ghost predicate Drawn(t: Tree, root: Path, files: seq<PayloadFile>, draws: seq<string>)
    requires Parsed(files)
  {
    && |draws| == |files|
    && (files == [] ||
        var n := |files| - 1;
        && Drawn(t, root, files[..n], draws[..n])
        && !IsDir(AfterDraws(t, root, files[..n], draws[..n]), Dest(root, files[n]))
        && CanDraw(AfterDraws(t, root, files[..n], draws[..n]), root, files[n], draws[n]))
  }

  /** No draw can hit a destination: where a destination's own name could be
      drawn, something is there already when its turn comes. */
  predicate KeepsAll(t: Tree, root: Path, files: seq<PayloadFile>)
    requires Parsed(files)
  {
    files == [] ||
    (KeepsAll(t, root, files[..|files| - 1]) &&
     (IsTempName(Name(Dest(root, files[|files| - 1]))) ==>
        Dest(root, files[|files| - 1]) in Installed(t, root, files[..|files| - 1])))
  }

  /** The bundle root is usable: what exists of it is real directories. */
  predicate RootUsable(t: Tree, root: Path) {
    forall k :: 0 <= k <= |root| && root[..k] in t ==> t[root[..k]].Directory?
  }

  ghost predicate NoLinkOnRoot(t: Tree, root: Path) {
    forall k :: 0 <= k <= |root| && root[..k] in t ==> !t[root[..k]].Symlink?
  }

  // --- What every crash point satisfies -------------------------------------

  /** A path where a new temporary file may stand while `dest` is written. */
  ghost predicate TempBeside(before: Tree, p: Path, dest: Path)
    requires dest != []
  {
    p != [] && IsTempName(Name(p)) && Parent(p) == Parent(dest) && p !in before
  }

  /** mkstemp could draw this destination's own name. */
  predicate AtRisk(before: Tree, dest: Path)
    requires dest != []
  {
    IsTempName(Name(dest)) && dest !in before
  }

  /** The destination is old or complete; only it and a new temporary beside it moved. */
  ghost predicate Swapping(before: Tree, now: Tree, dest: Path, f: PayloadFile)
    requires dest != []
  {
    && (forall p :: p != dest && !TempBeside(before, p, dest) ==> SameAt(before, now, p))
    && (AtRisk(before, dest) || SameAt(before, now, dest)
        || (f.mode.Some? && dest in now && now[dest] == Placed(f)))
  }

  /** Between the old state and the state with `f` in place: only ancestors of
      the destination and a temporary file beside it may differ, and the
      destination itself is old or new, never in between. */
  ghost predicate During(before: Tree, now: Tree, root: Path, f: PayloadFile) {
    var dest := Dest(root, f);
    && (forall p :: !(p <= dest) && !TempBeside(before, p, dest) ==> SameAt(before, now, p))
    && (AtRisk(before, dest) || SameAt(before, now, dest)
        || (f.mode.Some? && dest in now && now[dest] == Placed(f)))
  }

  lemma DuringFromSwap(before: Tree, mid: Tree, now: Tree, root: Path, f: PayloadFile)
    requires OnlyBetween(before, mid, root, Parent(Dest(root, f))) && Swapping(mid, now, Dest(root, f), f)
    ensures During(before, now, root, f)
  {
    var dest := Dest(root, f);
    assert SameAt(before, mid, dest);
    forall p | !(p <= dest) && !TempBeside(before, p, dest) ensures SameAt(before, now, p) {
      assert SameAt(before, mid, p) && SameAt(mid, now, p);
    }
  }

  lemma DuringFromDirs(before: Tree, now: Tree, root: Path, f: PayloadFile)
    requires OnlyBetween(before, now, root, Parent(Dest(root, f)))
    ensures During(before, now, root, f)
  {
    DuringFromSwap(before, now, now, root, f);
  }

  ghost predicate Touched(root: Path, files: seq<PayloadFile>, p: Path) {
    p <= root || exists k :: 0 <= k < |files| && p <= Dest(root, files[k])
  }

  /** A path where a new temporary file of the delivery may stand. */
  ghost predicate TempOf(before: Tree, root: Path, files: seq<PayloadFile>, p: Path) {
    exists k :: 0 <= k < |files| && TempBeside(before, p, Dest(root, files[k]))
  }

  ghost predicate OldOrNew(before: Tree, now: Tree, root: Path, files: seq<PayloadFile>, dest: Path) {
    || SameAt(before, now, dest)
    || (exists k :: 0 <= k < |files| && Dest(root, files[k]) == dest && files[k].mode.Some?
                    && dest in now && now[dest] == Placed(files[k]))
  }

  /** Nothing moved but destinations, their ancestors and new temporaries. */
  ghost predicate Framed(before: Tree, now: Tree, root: Path, files: seq<PayloadFile>) {
    forall p :: !Touched(root, files, p) && !TempOf(before, root, files, p) ==> SameAt(before, now, p)
  }

  /** A crash here loses nothing: every destination holds its old content or a
      complete new one, and nothing else moved but ancestors and temporaries. */
  ghost predicate Untorn(before: Tree, now: Tree, root: Path, files: seq<PayloadFile>) {
    && Framed(before, now, root, files)
    && (forall k :: 0 <= k < |files| && !AtRisk(before, Dest(root, files[k])) ==>
          OldOrNew(before, now, root, files, Dest(root, files[k])))
  }

  ghost predicate Confined(before: Tree, now: Tree, root: Path, files: seq<PayloadFile>) {
    forall p :: !Touched(root, files, p) ==> SameAt(before, now, p)
  }

  lemma FramedStep(before: Tree, mid: Tree, now: Tree, root: Path, files: seq<PayloadFile>, k: nat)
    requires k < |files| && Framed(before, mid, root, files) && During(mid, now, root, files[k])
    ensures Framed(before, now, root, files)
  {
    var dest := Dest(root, files[k]);
    forall p | !Touched(root, files, p) && !TempOf(before, root, files, p) ensures SameAt(before, now, p) {
      assert SameAt(before, mid, p) && !TempBeside(before, p, dest);
      assert SameAt(mid, now, p);
    }
  }

  lemma UntornStep(before: Tree, mid: Tree, now: Tree, root: Path, files: seq<PayloadFile>, k: nat)
    requires k < |files| && PrefixFree(root, files)
    requires Untorn(before, mid, root, files) && During(mid, now, root, files[k])
    ensures Untorn(before, now, root, files)
  {
    FramedStep(before, mid, now, root, files, k);
    forall j | 0 <= j < |files| && !AtRisk(before, Dest(root, files[j]))
      ensures OldOrNew(before, now, root, files, Dest(root, files[j]))
    {
      DestStep(before, mid, now, root, files, k, Dest(root, files[j]));
    }
  }

  lemma DestStep(before: Tree, mid: Tree, now: Tree, root: Path, files: seq<PayloadFile>, k: nat, d: Path)
    requires k < |files| && During(mid, now, root, files[k]) && OldOrNew(before, mid, root, files, d)
    requires d != [] && !AtRisk(before, d) && !(d < Dest(root, files[k]))
    ensures OldOrNew(before, now, root, files, d)
  {
    var dest := Dest(root, files[k]);
    assert d in before ==> d in mid;
    if d != dest {
      assert !(d <= dest) && !TempBeside(mid, d, dest) && SameAt(mid, now, d);
    }
  }

  // --- The methods ----------------------------------------------------------

  /** bundle_root.mkdir(parents=True, exist_ok=True). */
  method MakeRoot(disk: Disk, root: Path) returns (ok: bool)
    requires WellFormed(disk.tree) && NoLinkOnRoot(disk.tree, root)
    modifies disk
    ensures WellFormed(disk.tree)
    ensures ok ==> RootUsable(old(disk.tree), root) && disk.tree == MakeDirs(old(disk.tree), [], root)
    ensures disk.faultFree ==> (ok <==> RootUsable(old(disk.tree), root))
    ensures old(disk.trace) <= disk.trace
    ensures forall i :: |old(disk.trace)| <= i < |disk.trace| ==>
      OnlyBetween(old(disk.tree), disk.trace[i], [], root)
    ensures OnlyBetween(old(disk.tree), disk.tree, [], root)
    ensures NoLinkOnRoot(disk.tree, root)
    ensures RootUsable(old(disk.tree), root) ==> RootUsable(disk.tree, root)
    decreases |root|
  {
    ghost var before := disk.tree;
    if root in disk.tree {
      ok := disk.tree[root].Directory?;
      RootInTree(before, root);
      if ok {
        MakeDirsNothing(before, [], root);
      }
      return;
    }
    assert root != [];
    var parent := Parent(root);
    assert forall k :: 0 <= k <= |parent| ==> parent[..k] == root[..k];
    ok := MakeRoot(disk, parent);
    assert root[..|root|] == root && SameAt(before, disk.tree, root);
    forall j | 0 <= j < |root| && root[..j] in disk.tree ensures !disk.tree[root[..j]].Symlink? {
      assert root[..j] == parent[..j];
    }
    assert RootUsable(before, parent) <==> RootUsable(before, root) by {
      assert forall k :: 0 <= k <= |root| ==> k <= |parent| || root[..k] == root;
    }
    if ok {
      assert parent == [] || [] < parent <= parent;
      assert IsDir(disk.tree, parent);
      LocateReal(disk.tree, root, disk.maxLinks);
      assert SameAt(before, disk.tree, root);
      ok := disk.Mkdir(root);
    }
  }

  lemma {:induction false} MakeDirsNothing(t: Tree, base: Path, dir: Path)
    requires WellFormed(t) && base <= dir && IsDir(t, dir)
    ensures MakeDirs(t, base, dir) == t
    decreases |dir|
  {
    if dir != base {
      MakeDirsNothing(t, base, Parent(dir));
      assert t[dir := Directory] == t;
    }
  }

  lemma RootInTree(t: Tree, root: Path)
    requires WellFormed(t) && root in t
    ensures RootUsable(t, root) <==> t[root].Directory?
  {
    assert root[..|root|] == root;
    forall k | 0 <= k < |root| ensures IsDir(t, root[..k]) {
      PrefixIsDir(t, root[..k], root);
    }
  }

  /** One step of _ensure_dir below a real directory. */
  method EnsureOne(disk: Disk, current: Path) returns (ok: bool)
    requires WellFormed(disk.tree) && current != [] && IsDir(disk.tree, Parent(current))
    modifies disk
    ensures WellFormed(disk.tree)
    ensures ok ==> disk.tree == old(disk.tree)[current := Directory]
    ensures disk.faultFree ==> ok
    ensures old(disk.trace) <= disk.trace
    ensures forall i :: |old(disk.trace)| <= i < |disk.trace| ==>
      OnlyAt(old(disk.tree), disk.trace[i], current)
    ensures OnlyAt(old(disk.tree), disk.tree, current)
  {
    LocateReal(disk.tree, current, disk.maxLinks);
    if current in disk.tree && !disk.tree[current].Directory? {
      ok := disk.Unlink(current);
      if !ok { return; }
      LocateReal(disk.tree, current, disk.maxLinks);
    }
    ok := disk.Mkdir(current);
    if !ok {
      ok := IsDir(disk.tree, current);
    }
  }

  /** _ensure_dir: replaces whatever is not a real directory on the way down. */
  method EnsureDir(disk: Disk, root: Path, dir: Path) returns (ok: bool)
    requires WellFormed(disk.tree) && root <= dir && IsDir(disk.tree, root)
    modifies disk
    ensures WellFormed(disk.tree)
    ensures ok ==> disk.tree == MakeDirs(old(disk.tree), root, dir)
    ensures disk.faultFree ==> ok
    ensures old(disk.trace) <= disk.trace
    ensures forall i :: |old(disk.trace)| <= i < |disk.trace| ==>
      OnlyBetween(old(disk.tree), disk.trace[i], root, dir)
    ensures OnlyBetween(old(disk.tree), disk.tree, root, dir)
  {
    var k := |root|;
    assert dir[..k] == root;
    ok := true;
    while k < |dir|
      invariant |root| <= k <= |dir| && WellFormed(disk.tree) && ok
      invariant root <= dir[..k] && IsDir(disk.tree, dir[..k])
      invariant disk.tree == MakeDirs(old(disk.tree), root, dir[..k])
      invariant old(disk.trace) <= disk.trace
      invariant forall i :: |old(disk.trace)| <= i < |disk.trace| ==>
        OnlyBetween(old(disk.tree), disk.trace[i], root, dir)
      invariant OnlyBetween(old(disk.tree), disk.tree, root, dir)
    {
      var current := dir[..k + 1];
      assert Parent(current) == dir[..k];
      assert Between(root, current, dir);
      ghost var above, mark := disk.tree, |disk.trace|;
      ok := EnsureOne(disk, current);
      OnlyBetweenStep(old(disk.tree), above, disk.tree, root, current, dir);
      forall i | mark <= i < |disk.trace| ensures OnlyBetween(old(disk.tree), disk.trace[i], root, dir) {
        OnlyBetweenStep(old(disk.tree), above, disk.trace[i], root, current, dir);
      }
      if !ok {
        return;
      }
      k := k + 1;
    }
    assert dir[..k] == dir;
  }

  /** mkstemp, write and chmod: the content goes to a new file of its own. */
  method Stage(disk: Disk, dir: Path, f: PayloadFile) returns (ok: bool, name: Option<string>)
    requires WellFormed(disk.tree) && IsDir(disk.tree, dir)
    modifies disk
    ensures WellFormed(disk.tree)
    ensures name.None? ==> !ok && disk.tree == old(disk.tree)
    ensures name.Some? ==> Staged(old(disk.tree), disk.tree, dir, name.value)
    ensures ok ==> name.Some? && f.mode.Some? && disk.tree[dir + [name.value]] == Placed(f)
    ensures disk.faultFree && HasSpare(old(disk.tree), dir) ==> name.Some? && (ok <==> f.mode.Some?)
    ensures old(disk.trace) <= disk.trace
    ensures forall i :: |old(disk.trace)| <= i < |disk.trace| ==>
      if name.None? then disk.trace[i] == old(disk.tree) else OnlyAt(old(disk.tree), disk.trace[i], dir + [name.value])
  {
    ok := false;
    WalkFromRoot(disk.tree, dir, disk.maxLinks);
    name := disk.MkTemp(dir);
    if name.None? { return; }
    ok := Fill(disk, dir, name.value, f);
  }

  /** A temporary file of its own, with whatever content. */
  ghost predicate Staged(before: Tree, now: Tree, dir: Path, name: string) {
    var tmp := dir + [name];
    && IsTempName(name) && tmp !in before
    && tmp in now && now[tmp].Regular? && now == before[tmp := now[tmp]]
  }

  /** Writing and chmod of the file just made. */
  method Fill(disk: Disk, dir: Path, name: string, f: PayloadFile) returns (ok: bool)
    requires WellFormed(disk.tree) && IsDir(disk.tree, dir)
    requires dir + [name] in disk.tree && disk.tree[dir + [name]].Regular?
    modifies disk
    ensures WellFormed(disk.tree)
    ensures var tmp := dir + [name];
      tmp in disk.tree && disk.tree[tmp].Regular? && disk.tree == old(disk.tree)[tmp := disk.tree[tmp]]
    ensures ok ==> f.mode.Some? && disk.tree[dir + [name]] == Placed(f)
    ensures disk.faultFree ==> (ok <==> f.mode.Some?)
    ensures old(disk.trace) <= disk.trace
    ensures forall i :: |old(disk.trace)| <= i < |disk.trace| ==> OnlyAt(old(disk.tree), disk.trace[i], dir + [name])
  {
    var tmp := dir + [name];
    assert Name(tmp) == name && Parent(tmp) == dir;
    ok := disk.Write(tmp, f.content);
    if !ok { return; }
    ok := f.mode.Some?;
    if ok {
      LocateReal(disk.tree, tmp, disk.maxLinks);
      ok := disk.Chmod(tmp, f.mode.value);
    }
  }

  /** Stage, rename, and the `finally` that removes whatever is left under the
      temporary name; a removal that fails leaves it and raises. */
  method WriteAndRename(disk: Disk, dest: Path, f: PayloadFile) returns (ok: bool, name: string)
    requires WellFormed(disk.tree) && dest != [] && IsDir(disk.tree, Parent(dest))
    modifies disk
    ensures WellFormed(disk.tree)
    ensures ok ==>
      f.mode.Some? && !IsDir(old(disk.tree), dest) && IsTempName(name) && Parent(dest) + [name] !in old(disk.tree)
    ensures ok ==> disk.tree == if name == Name(dest) then old(disk.tree) else old(disk.tree)[dest := Placed(f)]
    ensures disk.faultFree && !ok ==> disk.tree == old(disk.tree)
    ensures disk.faultFree && HasSpare(old(disk.tree), Parent(dest)) ==>
      (ok <==> f.mode.Some? && !IsDir(old(disk.tree), dest))
    ensures old(disk.trace) <= disk.trace
    ensures forall i :: |old(disk.trace)| <= i < |disk.trace| ==> Swapping(old(disk.tree), disk.trace[i], dest, f)
    ensures Swapping(old(disk.tree), disk.tree, dest, f)
  {
    ghost var before := disk.tree;
    var dir := Parent(dest);
    var staged;
    ok, staged := Stage(disk, dir, f);
    name := "";
    if staged.None? { return; }
    name := staged.value;
    SwappingTemps(before, dest, name, f, disk.trace, |old(disk.trace)|);
    SwappingTemp(before, disk.tree, dest, name, f);
    if ok {
      ok := RenameStaged(disk, dir + [name], dest);
      RenamedTree(before, dir + [name], dest, Placed(f));
      SwappingDone(before, dest, f);
    }
    ghost var mid := disk.tree;
    var dropped := DropTemp(disk, dir + [name]);
    DropOutcome(before, mid, disk.tree, dest, name, f, ok, dropped);
    ok := ok && dropped;
  }

  lemma RenamedTree(before: Tree, tmp: Path, dest: Path, e: Entry)
    requires tmp !in before
    ensures (before[tmp := e] - {tmp})[dest := e] == before[dest := e]
  {}

  lemma SwappingTemp(before: Tree, now: Tree, dest: Path, name: string, f: PayloadFile)
    requires dest != [] && IsTempName(name) && Parent(dest) + [name] !in before && OnlyAt(before, now, Parent(dest) + [name])
    ensures Swapping(before, now, dest, f)
  {
    var tmp := Parent(dest) + [name];
    assert Name(tmp) == name && Parent(tmp) == Parent(dest) && TempBeside(before, tmp, dest);
    assert tmp != dest ==> SameAt(before, now, dest);
  }

  lemma SwappingTemps(before: Tree, dest: Path, name: string, f: PayloadFile, trace: seq<Tree>, from: nat)
    requires dest != [] && IsTempName(name) && Parent(dest) + [name] !in before
    requires forall i :: from <= i < |trace| ==> OnlyAt(before, trace[i], Parent(dest) + [name])
    ensures forall i :: from <= i < |trace| ==> Swapping(before, trace[i], dest, f)
  {
    forall i | from <= i < |trace| ensures Swapping(before, trace[i], dest, f) {
      SwappingTemp(before, trace[i], dest, name, f);
    }
  }

  lemma SwappingDone(before: Tree, dest: Path, f: PayloadFile)
    requires dest != []
    ensures f.mode.Some? ==> Swapping(before, before[dest := Placed(f)], dest, f)
  {}

  lemma OnlyAtDropped(before: Tree, mid: Tree, tmp: Path)
    requires tmp !in before && OnlyAt(before, mid, tmp)
    ensures mid - {tmp} == before
  {
    var now := mid - {tmp};
    forall p ensures (p in now <==> p in before) && (p in now ==> now[p] == before[p]) {
      assert p != tmp ==> SameAt(before, mid, p);
    }
    assert now.Keys == before.Keys;
  }

  /** What dropping the temporary can leave, renamed before or not. */
  lemma DropOutcome(before: Tree, mid: Tree, now: Tree, dest: Path, name: string, f: PayloadFile, renamed: bool, dropped: bool)
    requires dest != [] && IsTempName(name) && Parent(dest) + [name] !in before
    requires if renamed then f.mode.Some? && mid == before[dest := Placed(f)] else OnlyAt(before, mid, Parent(dest) + [name])
    requires now == if dropped then mid - {Parent(dest) + [name]} else mid
    ensures Swapping(before, now, dest, f)
    ensures !renamed && dropped ==> now == before
    ensures renamed && dropped ==> now == if name == Name(dest) then before else before[dest := Placed(f)]
  {
    var tmp := Parent(dest) + [name];
    assert Parent(dest) + [Name(dest)] == dest;
    if renamed {
      SwappingDone(before, dest, f);
    } else {
      SwappingTemp(before, mid, dest, name, f);
      OnlyAtDropped(before, mid, tmp);
    }
  }

  /** os.replace of the staged file. */
  method RenameStaged(disk: Disk, tmp: Path, dest: Path) returns (ok: bool)
    requires WellFormed(disk.tree) && tmp != [] && dest != [] && Parent(tmp) == Parent(dest) && IsDir(disk.tree, Parent(dest))
    requires tmp in disk.tree && disk.tree[tmp].Regular?
    modifies disk
    ensures WellFormed(disk.tree) && disk.trace == old(disk.trace) + [disk.tree]
    ensures disk.tree == if ok then (old(disk.tree) - {tmp})[dest := old(disk.tree)[tmp]] else old(disk.tree)
    ensures ok ==> !IsDir(old(disk.tree), dest)
    ensures disk.faultFree ==> (ok <==> !IsDir(old(disk.tree), dest))
  {
    LocateReal(disk.tree, tmp, disk.maxLinks);
    LocateReal(disk.tree, dest, disk.maxLinks);
    ok := disk.Replace(tmp, dest);
  }

  /** The `finally`: whatever is left under the temporary name goes. */
  method DropTemp(disk: Disk, tmp: Path) returns (ok: bool)
    requires WellFormed(disk.tree) && tmp != [] && IsDir(disk.tree, Parent(tmp)) && !IsDir(disk.tree, tmp)
    modifies disk
    ensures WellFormed(disk.tree)
    ensures ok ==> disk.tree == old(disk.tree) - {tmp}
    ensures !ok ==> disk.tree == old(disk.tree) && tmp in disk.tree
    ensures disk.faultFree ==> ok
    ensures disk.trace == old(disk.trace) || disk.trace == old(disk.trace) + [disk.tree]
  {
    ok := true;
    if tmp in disk.tree {
      LocateReal(disk.tree, tmp, disk.maxLinks);
      ok := disk.Unlink(tmp);
    } else {
      assert disk.tree - {tmp} == disk.tree;
    }
  }

  /** One turn of the delivery loop. */
  method InstallFile(disk: Disk, root: Path, f: PayloadFile) returns (ok: bool, name: string)
    requires WellFormed(disk.tree) && IsDir(disk.tree, root)
    modifies disk
    ensures WellFormed(disk.tree) && IsDir(disk.tree, root)
    ensures ok ==> f.mode.Some? && !IsDir(old(disk.tree), Dest(root, f))
    ensures ok ==>
      CanDraw(old(disk.tree), root, f, name) && disk.tree == AfterInstall(old(disk.tree), root, f, name)
    ensures disk.faultFree && HasSpare(old(disk.tree), Parent(Dest(root, f))) ==>
      (ok <==> f.mode.Some? && !IsDir(old(disk.tree), Dest(root, f)))
    ensures ok || disk.faultFree ==> OnlyBetween(old(disk.tree), disk.tree, root, Dest(root, f))
    ensures forall p :: p <= root ==> SameAt(old(disk.tree), disk.tree, p)
    ensures old(disk.trace) <= disk.trace
    ensures forall i :: |old(disk.trace)| <= i < |disk.trace| ==> During(old(disk.tree), disk.trace[i], root, f)
    ensures During(old(disk.tree), disk.tree, root, f)
  {
    ghost var before := disk.tree;
    var dest := Dest(root, f);
    var dir := Parent(dest);
    assert root <= dir < dest;
    name := "";
    ok := EnsureDir(disk, root, dir);
    DuringFromDirs(before, disk.tree, root, f);
    forall i | |old(disk.trace)| <= i < |disk.trace| ensures During(before, disk.trace[i], root, f) {
      DuringFromDirs(before, disk.trace[i], root, f);
    }
    assert SameAt(before, disk.tree, root) && SameAt(before, disk.tree, dest);
    if !ok {
      DirsBelowDest(before, disk.tree, root, dest);
      assert SameAt(before, disk.tree, root);
      return;
    }
    ghost var base, mark := disk.tree, |disk.trace|;
    assert IsDir(base, dir);
    SiblingsKept(before, base, root, dest);
    ok, name := WriteAndRename(disk, dest, f);
    forall i | mark <= i < |disk.trace| ensures During(before, disk.trace[i], root, f) {
      DuringFromSwap(before, base, disk.trace[i], root, f);
    }
    DuringFromSwap(before, base, disk.tree, root, f);
    RootKept(before, base, disk.tree, root, dest, f);
    assert SameAt(before, disk.tree, root);
    if ok || disk.faultFree {
      PlacedBelowDest(before, base, disk.tree, root, dest);
    }
  }

  lemma DirsBelowDest(before: Tree, now: Tree, root: Path, dest: Path)
    requires root < dest && OnlyBetween(before, now, root, Parent(dest))
    ensures OnlyBetween(before, now, root, dest) && forall p :: p <= root ==> SameAt(before, now, p)
  {
    forall p | !Between(root, p, dest) ensures SameAt(before, now, p) {
      assert !Between(root, p, Parent(dest));
    }
  }

  lemma PlacedBelowDest(before: Tree, base: Tree, now: Tree, root: Path, dest: Path)
    requires root < dest && OnlyBetween(before, base, root, Parent(dest)) && OnlyAt(base, now, dest)
    ensures OnlyBetween(before, now, root, dest)
  {
    forall p | !Between(root, p, dest) ensures SameAt(before, now, p) {
      assert !Between(root, p, Parent(dest)) && SameAt(before, base, p) && SameAt(base, now, p);
    }
  }

  lemma RootKept(before: Tree, base: Tree, now: Tree, root: Path, dest: Path, f: PayloadFile)
    requires root < dest && OnlyBetween(before, base, root, Parent(dest)) && Swapping(base, now, dest, f)
    ensures forall p :: p <= root ==> SameAt(before, now, p)
  {
    forall p | p <= root ensures SameAt(before, now, p) {
      assert SameAt(before, base, p) && p != dest && !TempBeside(base, p, dest) && SameAt(base, now, p);
    }
  }

  /** Making the directories above a destination adds nothing beside it. */
  lemma SiblingsKept(before: Tree, base: Tree, root: Path, dest: Path)
    requires root < dest && OnlyBetween(before, base, root, Parent(dest))
    ensures forall name: string :: SameAt(before, base, Parent(dest) + [name])
    ensures HasSpare(before, Parent(dest)) ==> HasSpare(base, Parent(dest))
  {
    forall name: string ensures SameAt(before, base, Parent(dest) + [name]) {
      assert !Between(root, Parent(dest) + [name], Parent(dest));
    }
  }

  lemma InstallableInit(t: Tree, root: Path, files: seq<PayloadFile>, k: nat)
    requires k <= |files| && Parsed(files) && Installable(t, root, files)
    ensures Parsed(files[..k]) && Installable(t, root, files[..k])
    decreases |files|
  {
    if k == |files| {
      assert files[..k] == files;
    } else {
      var init := files[..|files| - 1];
      assert init[..k] == files[..k];
      InstallableInit(t, root, init, k);
    }
  }

  /** Every file can be written: readable modes, a usable root, no directory in the way. */
  predicate Deliverable(t: Tree, root: Path, files: seq<PayloadFile>) {
    RootUsable(t, root) && Parsed(files) && Installable(MakeDirs(t, [], root), root, files)
  }

  lemma UntornFromRoot(before: Tree, now: Tree, root: Path, files: seq<PayloadFile>)
    requires OnlyBetween(before, now, [], root)
    ensures Untorn(before, now, root, files) && Confined(before, now, root, files)
  {
    forall p | !Touched(root, files, p) ensures SameAt(before, now, p) {
      assert !Between([], p, root);
    }
    forall k | 0 <= k < |files| ensures OldOrNew(before, now, root, files, Dest(root, files[k])) {
      assert !Between([], Dest(root, files[k]), root);
      assert SameAt(before, now, Dest(root, files[k]));
    }
  }

  method ValidateAll(files: seq<PayloadFile>) returns (ok: bool)
    ensures ok <==> AllPathsValid(files)
  {
    for k := 0 to |files|
      invariant forall j :: 0 <= j < k ==> ValidatePath(files[j].path).Ok?
    {
      if ValidatePath(files[k].path).Err? { return false; }
    }
    return true;
  }

  method VerifyHashes(files: seq<PayloadFile>, sha: Bytes -> string) returns (ok: bool)
    ensures ok <==> AllHashesMatch(files, sha)
  {
    for k := 0 to |files|
      invariant forall j :: 0 <= j < k ==> sha(files[j].content) == files[j].sha256
    {
      if sha(files[k].content) != files[k].sha256 { return false; }
    }
    return true;
  }

  ghost predicate FramedSince(trace: seq<Tree>, from: nat, before: Tree, root: Path, files: seq<PayloadFile>) {
    forall i :: from <= i < |trace| ==> Framed(before, trace[i], root, files)
  }

  /** Every state since position `from` of the trace is a safe crash point. */
  ghost predicate SafeSince(trace: seq<Tree>, from: nat, before: Tree, root: Path, files: seq<PayloadFile>) {
    forall i :: from <= i < |trace| ==> Untorn(before, trace[i], root, files)
  }

  lemma ConfinedStep(before: Tree, mid: Tree, now: Tree, root: Path, files: seq<PayloadFile>, k: nat)
    requires k < |files| && Confined(before, mid, root, files)
    requires OnlyBetween(mid, now, root, Dest(root, files[k]))
    ensures Confined(before, now, root, files)
  {
    forall p | !Touched(root, files, p) ensures SameAt(before, now, p) {
      assert SameAt(mid, now, p) && SameAt(before, mid, p);
    }
  }

  lemma TraceStep(before: Tree, above: Tree, earlier: seq<Tree>, trace: seq<Tree>, start: nat,
                  root: Path, files: seq<PayloadFile>, k: nat)
    requires k < |files| && PrefixFree(root, files) && Untorn(before, above, root, files)
    requires earlier <= trace && SafeSince(earlier, start, before, root, files)
    requires forall i :: |earlier| <= i < |trace| ==> During(above, trace[i], root, files[k])
    ensures SafeSince(trace, start, before, root, files)
  {
    forall i | start <= i < |trace| ensures Untorn(before, trace[i], root, files) {
      if i < |earlier| {
        assert trace[i] == earlier[i];
      } else {
        UntornStep(before, above, trace[i], root, files, k);
      }
    }
  }

  lemma NextInstallable(t: Tree, root: Path, files: seq<PayloadFile>, k: nat)
    requires k < |files| && Parsed(files) && Installable(t, root, files)
    ensures Parsed(files[..k]) && !IsDir(Installed(t, root, files[..k]), Dest(root, files[k]))
  {
    InstallableInit(t, root, files, k + 1);
    assert files[..k + 1][..k] == files[..k];
  }

  lemma {:induction false} KeepsAllInit(t: Tree, root: Path, files: seq<PayloadFile>, k: nat)
    requires k <= |files| && Parsed(files) && KeepsAll(t, root, files)
    ensures Parsed(files[..k]) && KeepsAll(t, root, files[..k])
    decreases |files|
  {
    if k == |files| {
      assert files[..k] == files;
    } else {
      var init := files[..|files| - 1];
      assert init[..k] == files[..k];
      KeepsAllInit(t, root, init, k);
    }
  }

  /** Where no draw can hit a destination, every run leaves the same tree. */
  lemma {:induction false} DrawsDoNotMatter(t: Tree, root: Path, files: seq<PayloadFile>, draws: seq<string>)
    requires Parsed(files) && Drawn(t, root, files, draws) && KeepsAll(t, root, files)
    ensures AfterDraws(t, root, files, draws) == Installed(t, root, files)
  {
    if files != [] {
      var n := |files| - 1;
      DrawsDoNotMatter(t, root, files[..n], draws[..n]);
      var dest := Dest(root, files[n]);
      assert Parent(dest) + [Name(dest)] == dest;
    }
  }

  /** Every file finds a name to draw that no destination passes through. */
  ghost predicate Room(t: Tree, root: Path, files: seq<PayloadFile>) {
    forall k :: 0 <= k < |files| ==> HasRoom(t, root, files, k)
  }

  ghost predicate HasRoom(t: Tree, root: Path, files: seq<PayloadFile>, k: nat)
    requires k < |files|
  {
    exists v :: 0 <= v < TEMP_NAMES && Spare(t, root, files, k, v)
  }

  ghost predicate Spare(t: Tree, root: Path, files: seq<PayloadFile>, k: nat, v: nat)
    requires k < |files|
  {
    var p := Parent(Dest(root, files[k])) + [TempName(v)];
    p !in t && forall j :: 0 <= j < |files| ==> !(p <= Dest(root, files[j]))
  }

  /** After any number of files the spare name is still spare. */
  lemma RoomRemains(t: Tree, root: Path, files: seq<PayloadFile>, k: nat)
    requires k < |files| && Parsed(files) && Room(t, root, files)
    ensures Parsed(files[..k]) && HasSpare(Installed(t, root, files[..k]), Parent(Dest(root, files[k])))
  {
    assert HasRoom(t, root, files, k);
    var v :| 0 <= v < TEMP_NAMES && Spare(t, root, files, k, v);
    var p := Parent(Dest(root, files[k])) + [TempName(v)];
    forall j | 0 <= j < k ensures !Between(root, p, Dest(root, files[..k][j])) {
      assert files[..k][j] == files[j];
    }
    InstalledElsewhere(t, root, files[..k], p);
  }

  /** The delivery loop; `before` is the tree the whole delivery started from. */
  method DeliverFiles(disk: Disk, root: Path, files: seq<PayloadFile>, ghost before: Tree)
    returns (ok: bool, ghost draws: seq<string>)
    requires WellFormed(disk.tree) && IsDir(disk.tree, root)
    requires Confined(before, disk.tree, root, files)
    requires Framed(before, disk.tree, root, files)
    requires PrefixFree(root, files) ==> Untorn(before, disk.tree, root, files)
    modifies disk
    ensures WellFormed(disk.tree)
    ensures ok ==>
      && Parsed(files) && Drawn(old(disk.tree), root, files, draws)
      && disk.tree == AfterDraws(old(disk.tree), root, files, draws)
    ensures ok && KeepsAll(old(disk.tree), root, files) ==> Installable(old(disk.tree), root, files)
    ensures (disk.faultFree && Parsed(files) && Room(old(disk.tree), root, files)
             && KeepsAll(old(disk.tree), root, files) && Installable(old(disk.tree), root, files)) ==> ok
    ensures ok || disk.faultFree ==> Confined(before, disk.tree, root, files)
    ensures Framed(before, disk.tree, root, files)
    ensures old(disk.trace) <= disk.trace
    ensures FramedSince(disk.trace, |old(disk.trace)|, before, root, files)
    ensures PrefixFree(root, files) ==> Untorn(before, disk.tree, root, files)
    ensures PrefixFree(root, files) ==> SafeSince(disk.trace, |old(disk.trace)|, before, root, files)
    ensures forall p :: p <= root ==> SameAt(old(disk.tree), disk.tree, p)
  {
    ghost var base := disk.tree;
    draws := [];
    for k := 0 to |files|
      invariant WellFormed(disk.tree) && IsDir(disk.tree, root) && Parsed(files[..k])
      invariant Drawn(base, root, files[..k], draws) && disk.tree == AfterDraws(base, root, files[..k], draws)
      invariant KeepsAll(base, root, files[..k]) ==> Installable(base, root, files[..k])
      invariant Confined(before, disk.tree, root, files) && Framed(before, disk.tree, root, files)
      invariant old(disk.trace) <= disk.trace
      invariant FramedSince(disk.trace, |old(disk.trace)|, before, root, files)
      invariant PrefixFree(root, files) ==> Untorn(before, disk.tree, root, files)
      invariant PrefixFree(root, files) ==> SafeSince(disk.trace, |old(disk.trace)|, before, root, files)
      invariant forall p :: p <= root ==> SameAt(old(disk.tree), disk.tree, p)
    {
      ghost var above, earlier := disk.tree, disk.trace;
      var name;
      ok, name := InstallFile(disk, root, files[k]);
      FramedStep(before, above, disk.tree, root, files, k);
      FramesStep(before, above, earlier, disk.trace, |old(disk.trace)|, root, files, k);
      RootChainKept(base, above, disk.tree, root);
      if PrefixFree(root, files) {
        UntornStep(before, above, disk.tree, root, files, k);
        TraceStep(before, above, earlier, disk.trace, |old(disk.trace)|, root, files, k);
      }
      if ok || disk.faultFree {
        ConfinedStep(before, above, disk.tree, root, files, k);
      }
      if !ok {
        if Parsed(files) && KeepsAll(base, root, files) {
          TurnSucceeds(base, above, root, files, k, draws);
        }
        return;
      }
      TurnDrawn(base, above, root, files, k, draws, name);
      draws := draws + [name];
    }
    assert files[..|files|] == files;
    ok := true;
  }

  /** In a run that keeps all files, a turn finds what the specification says. */
  lemma TurnSucceeds(base: Tree, above: Tree, root: Path, files: seq<PayloadFile>, k: nat, draws: seq<string>)
    requires k < |files| && Parsed(files) && KeepsAll(base, root, files) && Parsed(files[..k])
    requires Drawn(base, root, files[..k], draws) && above == AfterDraws(base, root, files[..k], draws)
    ensures Room(base, root, files) ==> HasSpare(above, Parent(Dest(root, files[k])))
    ensures Installable(base, root, files) ==> !IsDir(above, Dest(root, files[k]))
  {
    KeepsAllInit(base, root, files, k);
    DrawsDoNotMatter(base, root, files[..k], draws);
    if Room(base, root, files) {
      RoomRemains(base, root, files, k);
    }
    if Installable(base, root, files) {
      NextInstallable(base, root, files, k);
    }
  }

  /** A turn that succeeded extends the run by one draw. */
  lemma TurnDrawn(base: Tree, above: Tree, root: Path, files: seq<PayloadFile>, k: nat, draws: seq<string>, name: string)
    requires k < |files| && files[k].mode.Some? && Parsed(files[..k])
    requires Drawn(base, root, files[..k], draws) && above == AfterDraws(base, root, files[..k], draws)
    requires KeepsAll(base, root, files[..k]) ==> Installable(base, root, files[..k])
    requires !IsDir(above, Dest(root, files[k])) && CanDraw(above, root, files[k], name)
    ensures Parsed(files[..k + 1]) && Drawn(base, root, files[..k + 1], draws + [name])
    ensures AfterDraws(base, root, files[..k + 1], draws + [name]) == AfterInstall(above, root, files[k], name)
    ensures KeepsAll(base, root, files[..k + 1]) ==> Installable(base, root, files[..k + 1])
  {
    assert files[..k + 1] == files[..k] + [files[k]];
    TurnFrom(base, root, files[..k], files[k], draws, name);
  }

  lemma TurnFrom(base: Tree, root: Path, init: seq<PayloadFile>, f: PayloadFile, draws: seq<string>, name: string)
    requires Parsed(init) && f.mode.Some? && Drawn(base, root, init, draws)
    requires KeepsAll(base, root, init) ==> Installable(base, root, init)
    requires var above := AfterDraws(base, root, init, draws); !IsDir(above, Dest(root, f)) && CanDraw(above, root, f, name)
    ensures Parsed(init + [f]) && Drawn(base, root, init + [f], draws + [name])
    ensures AfterDraws(base, root, init + [f], draws + [name]) == AfterInstall(AfterDraws(base, root, init, draws), root, f, name)
    ensures KeepsAll(base, root, init + [f]) ==> Installable(base, root, init + [f])
  {
    var next, all := init + [f], draws + [name];
    var n := |init|;
    assert next[..n] == init && next[n] == f && all[..n] == draws && all[n] == name;
    TurnOnward(base, root, next, all);
  }

  lemma TurnOnward(base: Tree, root: Path, next: seq<PayloadFile>, all: seq<string>)
    requires next != [] && |all| == |next| && Parsed(next)
    requires var n := |next| - 1;
      var above := AfterDraws(base, root, next[..n], all[..n]);
      Drawn(base, root, next[..n], all[..n]) && !IsDir(above, Dest(root, next[n])) && CanDraw(above, root, next[n], all[n])
    requires KeepsAll(base, root, next[..|next| - 1]) ==> Installable(base, root, next[..|next| - 1])
    ensures Drawn(base, root, next, all) && (KeepsAll(base, root, next) ==> Installable(base, root, next))
    ensures var n := |next| - 1;
      AfterDraws(base, root, next, all) == AfterInstall(AfterDraws(base, root, next[..n], all[..n]), root, next[n], all[n])
  {
    TurnKeeps(base, root, next, all[..|all| - 1]);
    DrawnOnward(base, root, next, all);
  }

  lemma DrawnOnward(base: Tree, root: Path, next: seq<PayloadFile>, all: seq<string>)
    requires next != [] && |all| == |next| && Parsed(next)
    requires var n := |next| - 1;
      var above := AfterDraws(base, root, next[..n], all[..n]);
      Drawn(base, root, next[..n], all[..n]) && !IsDir(above, Dest(root, next[n])) && CanDraw(above, root, next[n], all[n])
    ensures Drawn(base, root, next, all)
    ensures var n := |next| - 1;
      AfterDraws(base, root, next, all) == AfterInstall(AfterDraws(base, root, next[..n], all[..n]), root, next[n], all[n])
  {}

  lemma TurnKeeps(base: Tree, root: Path, next: seq<PayloadFile>, draws: seq<string>)
    requires next != [] && Parsed(next) && Drawn(base, root, next[..|next| - 1], draws)
    requires KeepsAll(base, root, next[..|next| - 1]) ==> Installable(base, root, next[..|next| - 1])
    requires !IsDir(AfterDraws(base, root, next[..|next| - 1], draws), Dest(root, next[|next| - 1]))
    ensures KeepsAll(base, root, next) ==> Installable(base, root, next)
  {
    if KeepsAll(base, root, next) {
      DrawsDoNotMatter(base, root, next[..|next| - 1], draws);
    }
  }

  lemma RootChainKept(base: Tree, above: Tree, now: Tree, root: Path)
    requires forall p :: p <= root ==> SameAt(base, above, p)
    requires forall p :: p <= root ==> SameAt(above, now, p)
    ensures forall p :: p <= root ==> SameAt(base, now, p)
  {
    forall p | p <= root ensures SameAt(base, now, p) {
      assert SameAt(above, now, p) && SameAt(base, above, p);
    }
  }

  lemma FramesStep(before: Tree, above: Tree, earlier: seq<Tree>, trace: seq<Tree>, start: nat,
                   root: Path, files: seq<PayloadFile>, k: nat)
    requires k < |files| && Framed(before, above, root, files)
    requires earlier <= trace && FramedSince(earlier, start, before, root, files)
    requires forall i :: |earlier| <= i < |trace| ==> During(above, trace[i], root, files[k])
    ensures FramedSince(trace, start, before, root, files)
  {
    forall i | start <= i < |trace| ensures Framed(before, trace[i], root, files) {
      if i < |earlier| {
        assert trace[i] == earlier[i];
      } else {
        FramedStep(before, above, trace[i], root, files, k);
      }
    }
  }

  /** No draw of this delivery can hit a destination. */
  predicate Kept(t: Tree, root: Path, files: seq<PayloadFile>)
    requires Parsed(files)
  {
    KeepsAll(MakeDirs(t, [], root), root, files)
  }

  /** materialize: checks everything first, then writes file by file. */
  method Materialize(disk: Disk, root: Path, files: seq<PayloadFile>, sha: Bytes -> string)
    returns (r: Status, ghost draws: seq<string>)
    requires WellFormed(disk.tree) && NoLinkOnRoot(disk.tree, root)
    modifies disk
    ensures WellFormed(disk.tree)
    // An invalid path or a wrong hash leaves the disk untouched.
    ensures r == BadPath <==> !AllPathsValid(files)
    ensures r == BadHash <==> AllPathsValid(files) && !AllHashesMatch(files, sha)
    ensures r == BadPath || r == BadHash ==> disk.tree == old(disk.tree) && disk.trace == old(disk.trace)
    // Success leaves exactly the tree of the names drawn.
    ensures r == Done ==>
      && RootUsable(old(disk.tree), root) && Parsed(files)
      && Drawn(MakeDirs(old(disk.tree), [], root), root, files, draws)
      && disk.tree == AfterDraws(MakeDirs(old(disk.tree), [], root), root, files, draws)
    // Where no draw can hit a destination, that is the delivered tree.
    ensures r == Done && Kept(old(disk.tree), root, files) ==>
      && Deliverable(old(disk.tree), root, files)
      && disk.tree == Installed(MakeDirs(old(disk.tree), [], root), root, files)
    // Without faults, delivery succeeds exactly when it can.
    ensures (disk.faultFree && Deliverable(old(disk.tree), root, files) && Kept(old(disk.tree), root, files)
             && Room(old(disk.tree), root, files) && AllPathsValid(files) && AllHashesMatch(files, sha)) ==> r == Done
    // Only destinations and their ancestors moved; a failed call can leave a temporary behind.
    ensures r == Done || disk.faultFree ==> Confined(old(disk.tree), disk.tree, root, files)
    ensures Framed(old(disk.tree), disk.tree, root, files)
    ensures NoLinkOnRoot(disk.tree, root)
    ensures RootUsable(old(disk.tree), root) ==> RootUsable(disk.tree, root)
    // Every crash point.
    ensures old(disk.trace) <= disk.trace
    ensures FramedSince(disk.trace, |old(disk.trace)|, old(disk.tree), root, files)
    ensures PrefixFree(root, files) ==> Untorn(old(disk.tree), disk.tree, root, files)
    ensures PrefixFree(root, files) ==> SafeSince(disk.trace, |old(disk.trace)|, old(disk.tree), root, files)
  {
    ghost var before := disk.tree;
    draws := [];
    UntornFromRoot(before, disk.tree, root, files);
    var valid := ValidateAll(files);
    if !valid { return BadPath, []; }
    var matching := VerifyHashes(files, sha);
    if !matching { return BadHash, []; }
    var ok := MakeRoot(disk, root);
    UntornFromRoot(before, disk.tree, root, files);
    forall i | |old(disk.trace)| <= i < |disk.trace| ensures Untorn(before, disk.trace[i], root, files) {
      UntornFromRoot(before, disk.trace[i], root, files);
    }
    if !ok { return Failed, []; }
    assert root == [] || Between([], root, root);
    ghost var base := disk.tree;
    ok, draws := DeliverFiles(disk, root, files, before);
    SameRoot(base, disk.tree, root);
    r := if ok then Done else Failed;
    RoomAboveRoot(before, root, files);
    if ok && KeepsAll(base, root, files) {
      DrawsDoNotMatter(base, root, files, draws);
    }
  }

  lemma SameRoot(base: Tree, now: Tree, root: Path)
    requires forall p :: p <= root ==> SameAt(base, now, p)
    ensures NoLinkOnRoot(now, root) <==> NoLinkOnRoot(base, root)
    ensures RootUsable(now, root) <==> RootUsable(base, root)
  {
    assert forall k :: 0 <= k <= |root| ==> SameAt(base, now, root[..k]);
  }

  lemma RoomAboveRoot(t: Tree, root: Path, files: seq<PayloadFile>)
    ensures Room(t, root, files) ==> Room(MakeDirs(t, [], root), root, files)
  {
    if Room(t, root, files) {
      forall k | 0 <= k < |files| ensures HasRoom(MakeDirs(t, [], root), root, files, k) {
        assert HasRoom(t, root, files, k);
        var v :| 0 <= v < TEMP_NAMES && Spare(t, root, files, k, v);
        var p := Parent(Dest(root, files[k])) + [TempName(v)];
        assert !Between([], p, root) && SameAt(t, MakeDirs(t, [], root), p);
        assert Spare(MakeDirs(t, [], root), root, files, k, v);
      }
    }
  }

  // --- What the delivered tree is -------------------------------------------

  /** Everything a reader can ask of the tree after a delivery. */
  ghost predicate Delivered(before: Tree, now: Tree, root: Path, files: seq<PayloadFile>)
    requires Parsed(files)
  {
    && (forall k :: 0 <= k < |files| ==>
          Dest(root, files[k]) in now && now[Dest(root, files[k])] == Regular(files[k].content, files[k].mode.value))
    && (forall k, p :: 0 <= k < |files| && Between(root, p, Parent(Dest(root, files[k]))) ==> IsDir(now, p))
    && Confined(before, now, root, files)
  }

  ghost predicate NoDirectoryInTheWay(t: Tree, root: Path, files: seq<PayloadFile>) {
    forall k :: 0 <= k < |files| ==> !IsDir(t, Dest(root, files[k]))
  }

  lemma InstallOneEffect(t: Tree, root: Path, f: PayloadFile, p: Path)
    requires f.mode.Some?
    ensures p == Dest(root, f) ==> p in InstallOne(t, root, f) && InstallOne(t, root, f)[p] == Placed(f)
    ensures Between(root, p, Parent(Dest(root, f))) ==> IsDir(InstallOne(t, root, f), p)
    ensures !Between(root, p, Dest(root, f)) ==> SameAt(t, InstallOne(t, root, f), p)
  {
    var dest := Dest(root, f);
    var dirs := MakeDirs(t, root, Parent(dest));
    if Between(root, p, Parent(dest)) {
      assert |p| < |dest| && IsDir(dirs, p);
    }
    if !Between(root, p, dest) {
      assert !Between(root, p, Parent(dest));
      assert SameAt(t, dirs, p);
    }
  }

  lemma {:induction false} InstalledElsewhere(t: Tree, root: Path, files: seq<PayloadFile>, p: Path)
    requires Parsed(files) && forall k :: 0 <= k < |files| ==> !Between(root, p, Dest(root, files[k]))
    ensures SameAt(t, Installed(t, root, files), p)
  {
    if files != [] {
      var n := |files| - 1;
      var init := files[..n];
      InstalledElsewhere(t, root, init, p);
      InstallOneEffect(Installed(t, root, init), root, files[n], p);
    }
  }

  lemma {:induction false} InstalledAtDest(t: Tree, root: Path, files: seq<PayloadFile>, k: nat)
    requires k < |files| && Parsed(files) && PrefixFree(root, files) && Distinct(root, files)
    ensures Dest(root, files[k]) in Installed(t, root, files)
    ensures Installed(t, root, files)[Dest(root, files[k])] == Placed(files[k])
    decreases |files|
  {
    var n := |files| - 1;
    var init := files[..n];
    var p := Dest(root, files[k]);
    if k < n {
      assert init[k] == files[k];
      InstalledAtDest(t, root, init, k);
      assert p != Dest(root, files[n]) && !Between(root, p, Dest(root, files[n]));
    }
    InstallOneEffect(Installed(t, root, init), root, files[n], p);
  }

  lemma {:induction false} InstalledAncestor(t: Tree, root: Path, files: seq<PayloadFile>, k: nat, p: Path)
    requires k < |files| && Parsed(files) && PrefixFree(root, files)
    requires Between(root, p, Parent(Dest(root, files[k])))
    ensures IsDir(Installed(t, root, files), p)
    decreases |files|
  {
    var n := |files| - 1;
    var init := files[..n];
    var mid := Installed(t, root, init);
    var dest := Dest(root, files[n]);
    InstallOneEffect(mid, root, files[n], p);
    if k < n {
      assert init[k] == files[k];
      InstalledAncestor(t, root, init, k, p);
      assert p < Dest(root, files[k]);
      assert p != dest;
      if Between(root, p, dest) {
        assert p == dest[..|p|] == Parent(dest)[..|p|];
      }
    }
  }

  lemma {:induction false} InstalledInstallable(t: Tree, root: Path, files: seq<PayloadFile>)
    requires Parsed(files) && PrefixFree(root, files) && Distinct(root, files)
    requires NoDirectoryInTheWay(t, root, files)
    ensures Installable(t, root, files)
  {
    if files != [] {
      var n := |files| - 1;
      var init := files[..n];
      InstalledInstallable(t, root, init);
      var dest := Dest(root, files[n]);
      forall k | 0 <= k < |init| ensures !Between(root, dest, Dest(root, init[k])) {
        assert init[k] == files[k];
      }
      InstalledElsewhere(t, root, init, dest);
    }
  }

  lemma UntouchedElsewhere(root: Path, files: seq<PayloadFile>, p: Path)
    requires !Touched(root, files, p)
    ensures !Between([], p, root)
    ensures forall k :: 0 <= k < |files| ==> !Between(root, p, Dest(root, files[k]))
  {}

  /**
    Delivery in full: for destinations that are distinct, none the ancestor of
    another and none an existing directory, delivery can succeed, every file is
    in place under real directories, and everything else is as it was.
   */
  lemma DeliveryTheorem(t: Tree, root: Path, files: seq<PayloadFile>)
    requires WellFormed(t) && RootUsable(t, root) && Parsed(files)
    requires PrefixFree(root, files) && Distinct(root, files) && NoDirectoryInTheWay(t, root, files)
    ensures Deliverable(t, root, files)
    ensures Delivered(t, Installed(MakeDirs(t, [], root), root, files), root, files)
  {
    var base := MakeDirs(t, [], root);
    var now := Installed(base, root, files);
    forall k | 0 <= k < |files| ensures !IsDir(base, Dest(root, files[k])) {
      assert SameAt(t, base, Dest(root, files[k]));
    }
    InstalledInstallable(base, root, files);
    forall k | 0 <= k < |files|
      ensures Dest(root, files[k]) in now && now[Dest(root, files[k])] == Placed(files[k])
    {
      InstalledAtDest(base, root, files, k);
    }
    forall k, p | 0 <= k < |files| && Between(root, p, Parent(Dest(root, files[k]))) ensures IsDir(now, p) {
      InstalledAncestor(base, root, files, k, p);
    }
    forall p | !Touched(root, files, p) ensures SameAt(t, now, p) {
      UntouchedElsewhere(root, files, p);
      InstalledElsewhere(base, root, files, p);
      assert SameAt(t, base, p);
    }
  }

  /** Paths that differ as text have different destinations. */
  lemma DistinctPathsDistinctDests(root: Path, f: PayloadFile, g: PayloadFile)
    requires f.path != g.path
    ensures Dest(root, f) != Dest(root, g)
  {
    Strings.JoinSplit(f.path, '/');
    Strings.JoinSplit(g.path, '/');
    assert Dest(root, f)[|root|..] == Components(f.path);
    assert Dest(root, g)[|root|..] == Components(g.path);
  }
}
