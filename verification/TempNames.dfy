/**
  When a temporary name can cost a delivery a file: mkstemp may draw the name
  of the very destination, the rename then changes nothing, and the clean-up of
  the temporary file removes the file just delivered.
 */
module TempNames {
  import opened FileTree
  import opened Paths
  import opened Materializer
  import Strings

  /** In this run some file is gone when its own turn ends. */
  ghost predicate Loses(t: Tree, root: Path, files: seq<PayloadFile>, draws: seq<string>)
    requires Parsed(files) && |draws| == |files|
  {
    files != [] &&
    var n := |files| - 1;
    || Loses(t, root, files[..n], draws[..n])
    || Dest(root, files[n]) !in AfterDraws(t, root, files, draws)
  }

  /** A run mkstemp can bring about, and in which a file is lost. */
  ghost predicate LosingDraws(t: Tree, root: Path, files: seq<PayloadFile>, draws: seq<string>)
    requires Parsed(files)
  {
    Drawn(t, root, files, draws) && Loses(t, root, files, draws)
  }

  lemma {:induction false} KeptRunsLoseNothing(t: Tree, root: Path, files: seq<PayloadFile>, draws: seq<string>)
    requires Parsed(files) && Drawn(t, root, files, draws) && KeepsAll(t, root, files)
    ensures !Loses(t, root, files, draws)
  {
    if files != [] {
      var n := |files| - 1;
      KeptRunsLoseNothing(t, root, files[..n], draws[..n]);
      DrawsDoNotMatter(t, root, files[..n], draws[..n]);
      var dest := Dest(root, files[n]);
      assert Parent(dest) + [Name(dest)] == dest;
    }
  }

  /** A run adds no path but destinations and their ancestors. */
  lemma {:induction false} AddsOnlyDests(t: Tree, root: Path, files: seq<PayloadFile>, draws: seq<string>, p: Path)
    requires Parsed(files) && |draws| == |files| && p !in t
    requires forall j :: 0 <= j < |files| ==> !(p <= Dest(root, files[j]))
    ensures p !in AfterDraws(t, root, files, draws)
  {
    if files != [] {
      var n := |files| - 1;
      var init := files[..n];
      AddsOnlyDests(t, root, init, draws[..n], p);
      var before, dest := AfterDraws(t, root, init, draws[..n]), Dest(root, files[n]);
      assert !Between(root, p, Parent(dest)) && SameAt(before, MakeDirs(before, root, Parent(dest)), p);
    }
  }

  /** Whatever was drawn, the directories are those of the delivered tree; so a
      run that reached the end met none at a destination. */
  lemma {:induction false} DrawnDirs(t: Tree, root: Path, files: seq<PayloadFile>, draws: seq<string>)
    requires Parsed(files) && Drawn(t, root, files, draws)
    ensures forall p :: IsDir(AfterDraws(t, root, files, draws), p) <==> IsDir(Installed(t, root, files), p)
    ensures Installable(t, root, files)
  {
    if files != [] {
      var n := |files| - 1;
      DrawnDirs(t, root, files[..n], draws[..n]);
      SameDirs(AfterDraws(t, root, files[..n], draws[..n]), Installed(t, root, files[..n]), root, files[n], draws[n]);
    }
  }

  lemma SameDirs(a: Tree, b: Tree, root: Path, f: PayloadFile, name: string)
    requires f.mode.Some? && !IsDir(a, Dest(root, f))
    requires forall p :: IsDir(a, p) <==> IsDir(b, p)
    ensures forall p :: IsDir(AfterInstall(a, root, f, name), p) <==> IsDir(InstallOne(b, root, f), p)
  {
    forall p ensures IsDir(AfterInstall(a, root, f, name), p) <==> IsDir(InstallOne(b, root, f), p) {
      DirAfter(a, root, f, p);
      DirAfter(b, root, f, p);
    }
  }

  /** Where the directories are after one file, in place or lost. */
  lemma DirAfter(t: Tree, root: Path, f: PayloadFile, p: Path)
    requires f.mode.Some?
    ensures var dest := Dest(root, f);
      && (IsDir(MakeDirs(t, root, Parent(dest)), p) <==> Between(root, p, Parent(dest)) || IsDir(t, p))
      && (IsDir(InstallOne(t, root, f), p) <==> Between(root, p, Parent(dest)) || (IsDir(t, p) && p != dest))
  {
    var dest := Dest(root, f);
    var made := MakeDirs(t, root, Parent(dest));
    if !Between(root, p, Parent(dest)) {
      assert SameAt(t, made, p);
    } else {
      assert IsDir(made, p) && |p| < |dest|;
    }
  }

  lemma RoomInit(t: Tree, root: Path, files: seq<PayloadFile>)
    requires files != [] && Room(t, root, files)
    ensures Room(t, root, files[..|files| - 1])
  {
    var init := files[..|files| - 1];
    forall k | 0 <= k < |init| ensures HasRoom(t, root, init, k) {
      assert HasRoom(t, root, files, k);
      var v :| 0 <= v < TEMP_NAMES && Spare(t, root, files, k, v);
      assert Spare(t, root, init, k, v);
    }
  }

  /** Any run of the earlier files goes on with a spare name for the last. */
  lemma DrawSpare(t: Tree, root: Path, files: seq<PayloadFile>, draws: seq<string>) returns (name: string)
    requires files != [] && Parsed(files) && Room(t, root, files) && Installable(t, root, files)
    requires Drawn(t, root, files[..|files| - 1], draws)
    ensures Drawn(t, root, files, draws + [name]) && name != Name(Dest(root, files[|files| - 1]))
  {
    var n := |files| - 1;
    assert HasRoom(t, root, files, n);
    var v :| 0 <= v < TEMP_NAMES && Spare(t, root, files, n, v);
    name := TempName(v);
    SpareDrawable(t, root, files, draws, v);
    DrawnDirs(t, root, files[..n], draws);
    assert (draws + [name])[..n] == draws && (draws + [name])[n] == name;
  }

  lemma SpareDrawable(t: Tree, root: Path, files: seq<PayloadFile>, draws: seq<string>, v: nat)
    requires files != [] && Parsed(files) && Spare(t, root, files, |files| - 1, v)
    requires |draws| == |files| - 1
    ensures CanDraw(AfterDraws(t, root, files[..|files| - 1], draws), root, files[|files| - 1], TempName(v))
    ensures TempName(v) != Name(Dest(root, files[|files| - 1]))
  {
    var n := |files| - 1;
    var dest := Dest(root, files[n]);
    assert forall j :: 0 <= j < n ==> files[..n][j] == files[j];
    AddsOnlyDests(t, root, files[..n], draws, Parent(dest) + [TempName(v)]);
    assert Parent(dest) + [Name(dest)] == dest;
  }

  lemma {:induction false} SomeRun(t: Tree, root: Path, files: seq<PayloadFile>) returns (draws: seq<string>)
    requires Parsed(files) && Room(t, root, files) && Installable(t, root, files)
    ensures Drawn(t, root, files, draws)
  {
    draws := [];
    if files != [] {
      RoomInit(t, root, files);
      draws := SomeRun(t, root, files[..|files| - 1]);
      var name := DrawSpare(t, root, files, draws);
      draws := draws + [name];
    }
  }

  /** Where a destination's name is drawable and unused, a run draws it. */
  lemma {:induction false} LosingRun(t: Tree, root: Path, files: seq<PayloadFile>) returns (draws: seq<string>)
    requires Parsed(files) && Room(t, root, files) && Installable(t, root, files) && !KeepsAll(t, root, files)
    ensures LosingDraws(t, root, files, draws)
  {
    var n := |files| - 1;
    var init, dest := files[..n], Dest(root, files[n]);
    RoomInit(t, root, files);
    if KeepsAll(t, root, init) {
      draws := SomeRun(t, root, init);
      DrawsDoNotMatter(t, root, init, draws);
      LastDraw(t, root, files, draws);
      draws := draws + [Name(dest)];
    } else {
      draws := LosingRun(t, root, init);
      var name := DrawSpare(t, root, files, draws);
      assert (draws + [name])[..n] == draws;
      draws := draws + [name];
    }
  }

  lemma LastDraw(t: Tree, root: Path, files: seq<PayloadFile>, draws: seq<string>)
    requires files != [] && Parsed(files) && Drawn(t, root, files[..|files| - 1], draws)
    requires AtRisk(AfterDraws(t, root, files[..|files| - 1], draws), Dest(root, files[|files| - 1]))
    ensures var all := draws + [Name(Dest(root, files[|files| - 1]))];
      LosingDraws(t, root, files, all)
  {
    var n := |files| - 1;
    var dest := Dest(root, files[n]);
    var before := AfterDraws(t, root, files[..n], draws);
    assert (draws + [Name(dest)])[..n] == draws && Parent(dest) + [Name(dest)] == dest;
    assert SameAt(before, MakeDirs(before, root, Parent(dest)), dest);
  }

  /**
    The exact condition: some run that reaches the end loses a file if and only
    if none meets a directory at its destination and some destination has a name
    mkstemp can draw while nothing stands there when its turn comes. A longer
    name such as ".write-ahead.log" is never lost. For a run that stops at a
    directory, the same holds of the files before it.
   */
  lemma LostExactlyWhenDrawable(t: Tree, root: Path, files: seq<PayloadFile>)
    requires Parsed(files) && Room(t, root, files)
    ensures (exists draws :: LosingDraws(t, root, files, draws)) <==>
      Installable(t, root, files) && !KeepsAll(t, root, files)
  {
    if Installable(t, root, files) && !KeepsAll(t, root, files) {
      var draws := LosingRun(t, root, files);
    } else {
      forall draws ensures !LosingDraws(t, root, files, draws) {
        if Drawn(t, root, files, draws) {
          DrawnDirs(t, root, files, draws);
          KeptRunsLoseNothing(t, root, files, draws);
        }
      }
    }
  }

  /** For distinct, prefix-free destinations the condition is about the disk as
      it was: no drawable destination is missing from it. */
  lemma {:induction false} KeepsAllBeforehand(t: Tree, root: Path, files: seq<PayloadFile>)
    requires Parsed(files) && PrefixFree(root, files) && Distinct(root, files)
    ensures KeepsAll(t, root, files) <==> forall k :: 0 <= k < |files| ==> !AtRisk(t, Dest(root, files[k]))
  {
    if files != [] {
      var n := |files| - 1;
      var init, dest := files[..n], Dest(root, files[n]);
      KeepsAllBeforehand(t, root, init);
      forall k | 0 <= k < n ensures !Between(root, dest, Dest(root, init[k])) {
        assert init[k] == files[k];
      }
      InstalledElsewhere(t, root, init, dest);
      assert forall k :: 0 <= k < n ==> init[k] == files[k];
    }
  }

  /** A fresh root and one file whose name mkstemp can draw: a run loses it. */
  lemma LostExample(f: PayloadFile)
    requires f.path == ".write-abcdefgh" && f.mode.Some?
    ensures exists draws :: LosingDraws(map[[] := Directory], [], [f], draws)
  {
    var t: Tree := map[[] := Directory];
    DrawableName(f.path);
    assert Dest([], f) == [f.path];
    FirstDraw(t, [], f);
  }

  lemma DrawableName(name: string)
    requires name == ".write-abcdefgh"
    ensures IsTempName(name) && Components(name) == [name]
  {
    Strings.SplitWithout(name, '/');
  }

  /** The first file of a delivery is lost when its name is drawn. */
  lemma FirstDraw(t: Tree, root: Path, f: PayloadFile)
    requires f.mode.Some? && AtRisk(t, Dest(root, f))
    ensures LosingDraws(t, root, [f], [Name(Dest(root, f))])
  {
    assert [f][..0] == [] && [] + [Name(Dest(root, f))] == [Name(Dest(root, f))];
    assert Drawn(t, root, [], []) && AfterDraws(t, root, [], []) == t;
    LastDraw(t, root, [f], []);
  }

  // --- There is room ----------------------------------------------------------

  /** The path below `dir` on the way to `p`, when `p` lies below it. */
  function ChildTowards(dir: Path, p: Path): set<Path> {
    if dir < p then {p[..|dir| + 1]} else {}
  }

  function ChildrenTowards(dir: Path, root: Path, files: seq<PayloadFile>): set<Path> {
    if files == [] then {}
    else
      ChildrenTowards(dir, root, files[..|files| - 1]) + ChildTowards(dir, Dest(root, files[|files| - 1]))
  }

  lemma {:induction false} ChildrenCounted(dir: Path, root: Path, files: seq<PayloadFile>)
    ensures |ChildrenTowards(dir, root, files)| <= |files|
    ensures forall k :: 0 <= k < |files| ==> ChildTowards(dir, Dest(root, files[k])) <= ChildrenTowards(dir, root, files)
  {
    if files != [] {
      var init := files[..|files| - 1];
      ChildrenCounted(dir, root, init);
      assert forall k :: 0 <= k < |init| ==> init[k] == files[k];
    }
  }

  /** Fewer entries and files than names: every file finds one. */
  lemma RoomByCount(t: Tree, root: Path, files: seq<PayloadFile>)
    requires |t| + |files| < TEMP_NAMES
    ensures Room(t, root, files)
  {
    forall k | 0 <= k < |files| ensures HasRoom(t, root, files, k) {
      var dir := Parent(Dest(root, files[k]));
      ChildrenCounted(dir, root, files);
      assert |t.Keys| == |t|;
      var v := SparePath(t.Keys + ChildrenTowards(dir, root, files), dir);
      forall j | 0 <= j < |files| ensures !(dir + [TempName(v)] <= Dest(root, files[j])) {
        NotTowards(dir, Dest(root, files[j]), TempName(v), ChildrenTowards(dir, root, files));
      }
      assert Spare(t, root, files, k, v);
    }
  }

  lemma NotTowards(dir: Path, dest: Path, name: string, children: set<Path>)
    requires ChildTowards(dir, dest) <= children && dir + [name] !in children
    ensures !(dir + [name] <= dest)
  {
    OnTheWay(dir, dest, name);
  }

  lemma OnTheWay(dir: Path, dest: Path, name: string)
    ensures dir + [name] <= dest ==> ChildTowards(dir, dest) == {dir + [name]}
  {
    assert dir + [name] <= dest ==> dest[..|dir| + 1] == dir + [name];
  }
}
