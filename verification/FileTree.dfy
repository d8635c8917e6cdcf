/**
  A file system as a map from physical paths to entries, the kernel's path
  resolution through symbolic links, and the system calls the Agent makes.
 */
module FileTree {
  import opened Common

  /** A physical path: its components from the root directory, which is []. */
  type Path = seq<string>

  datatype Entry =
    | Directory
    | Symlink(target: Path)
    | Regular(content: Bytes, mode: nat)

  type Tree = map<Path, Entry>

  /** Mode of a file fresh from mkstemp. */
  const TEMP_MODE: nat := 0x180

  const TEMP_PREFIX: string := ".write-"

  function Parent(p: Path): Path
    requires p != []
  {
    p[..|p| - 1]
  }

  function Name(p: Path): string
    requires p != []
  {
    p[|p| - 1]
  }

  predicate IsDir(t: Tree, p: Path) {
    p in t && t[p].Directory?
  }

  const TEMP_LENGTH: nat := 8

  /** The characters tempfile draws from. */
  const TEMP_LETTERS: string := "abcdefghijklmnopqrstuvwxyz0123456789_"

  predicate TempLetter(c: char) {
    'a' <= c <= 'z' || '0' <= c <= '9' || c == '_'
  }

  /** What mkstemp can draw: the prefix and eight letters. */
  predicate IsTempName(name: string) {
    && |name| == |TEMP_PREFIX| + TEMP_LENGTH && TEMP_PREFIX <= name
    && forall k :: |TEMP_PREFIX| <= k < |name| ==> TempLetter(name[k])
  }

  ghost predicate WellFormed(t: Tree) {
    && IsDir(t, [])
    && forall p {:trigger IsDir(t, Parent(p))} :: p in t && p != [] ==> IsDir(t, Parent(p))
  }

  ghost predicate SameAt(t: Tree, u: Tree, p: Path) {
    && (p in t <==> p in u)
    && (p in t ==> t[p] == u[p])
  }

  lemma {:induction false} PrefixIsDir(t: Tree, p: Path, q: Path)
    requires WellFormed(t) && q in t && p < q
    ensures IsDir(t, p)
    decreases |q|
  {
    var up := Parent(q);
    assert IsDir(t, up);
    if p != up {
      assert p < up;
      PrefixIsDir(t, p, up);
    }
  }

  // --- Path resolution ------------------------------------------------------

  /** The directory reached from `at` by following `parts`, links included. */
  function Walk(t: Tree, at: Path, parts: seq<string>, links: nat): (r: Option<Path>)
    ensures r.Some? ==> IsDir(t, r.value)
    decreases links, |parts|
  {
    if parts == [] then
      if IsDir(t, at) then Some(at) else None
    else
      var next := at + [parts[0]];
      if next !in t then None
      else match t[next]
        case Directory => Walk(t, next, parts[1..], links)
        case Regular(_, _) => None
        case Symlink(target) =>
          if links == 0 then None else Walk(t, [], target + parts[1..], links - 1)
  }

  /** Where the last component of `p` lives once its parent is resolved; the
      kernel gives up after `links` symbolic links. */
  function Locate(t: Tree, p: Path, links: nat): Option<Path>
    requires p != []
  {
    match Walk(t, [], Parent(p), links)
    case None => None
    case Some(dir) => Some(dir + [Name(p)])
  }

  lemma {:induction false} WalkReal(t: Tree, at: Path, parts: seq<string>, links: nat)
    requires WellFormed(t) && IsDir(t, at + parts)
    ensures Walk(t, at, parts, links) == Some(at + parts)
    decreases |parts|
  {
    if parts == [] {
      assert at + parts == at;
    } else {
      var next := at + [parts[0]];
      assert at + parts == next + parts[1..];
      if parts[1..] != [] {
        PrefixIsDir(t, next, at + parts);
      } else {
        assert next == at + parts;
      }
      WalkReal(t, next, parts[1..], links);
    }
  }

  lemma WalkFromRoot(t: Tree, dir: Path, links: nat)
    requires WellFormed(t) && IsDir(t, dir)
    ensures Walk(t, [], dir, links) == Some(dir)
  {
    WalkReal(t, [], dir, links) by {
      assert [] + dir == dir;
    }
    assert [] + dir == dir;
  }

  /** Under a real directory no link can redirect a path. */
  lemma LocateReal(t: Tree, p: Path, links: nat)
    requires WellFormed(t) && p != [] && IsDir(t, Parent(p))
    ensures Locate(t, p, links) == Some(p)
  {
    var dir := Parent(p);
    WalkFromRoot(t, dir, links);
    assert p == dir + [Name(p)];
  }

  lemma LocatedUnderDir(t: Tree, p: Path, links: nat)
    requires p != [] && Locate(t, p, links).Some?
    ensures Locate(t, p, links).value != [] && IsDir(t, Parent(Locate(t, p, links).value))
  {
    var dir := Walk(t, [], Parent(p), links).value;
    assert Parent(dir + [Name(p)]) == dir;
  }

  lemma DropLeafWellFormed(t: Tree, p: Path)
    requires WellFormed(t) && p in t && !t[p].Directory? && p != []
    ensures WellFormed(t - {p})
  {
    var u := t - {p};
    forall q | q in u && q != [] ensures IsDir(u, Parent(q)) {
      assert IsDir(t, Parent(q));
      assert Parent(q) != p;
    }
  }

  lemma PutWellFormed(t: Tree, p: Path, e: Entry)
    requires WellFormed(t) && p != [] && IsDir(t, Parent(p))
    requires !IsDir(t, p) || e.Directory?
    ensures WellFormed(t[p := e])
  {
    var u := t[p := e];
    assert Parent(p) != p;
    forall q | q in u && q != [] ensures IsDir(u, Parent(q)) {
      assert q != p ==> IsDir(t, Parent(q));
    }
  }

  // --- Temporary names ------------------------------------------------------

  /** 37 to the eighth. */
  const TEMP_NAMES: nat := 3_512_479_453_921

  function Power37(n: nat): nat {
    if n == 0 then 1 else 37 * Power37(n - 1)
  }

  function Letters(v: nat, n: nat): (s: string)
    ensures |s| == n && forall k :: 0 <= k < n ==> TempLetter(s[k])
  {
    if n == 0 then "" else Letters(v / 37, n - 1) + [TEMP_LETTERS[v % 37]]
  }

  function TempName(v: nat): (name: string)
    ensures IsTempName(name)
  {
    TEMP_PREFIX + Letters(v, TEMP_LENGTH)
  }

  lemma LettersDiffer(a: nat, b: nat)
    requires a < 37 && b < 37 && TEMP_LETTERS[a] == TEMP_LETTERS[b]
    ensures a == b
  {
    LetterOrder(a);
    LetterOrder(b);
  }

  /** Where each letter stands. */
  lemma LetterOrder(a: nat)
    requires a < 37
    ensures TEMP_LETTERS[a] ==
      if a < 26 then 'a' + a as char else if a < 36 then '0' + (a - 26) as char else '_'
  {}

  lemma {:induction false} LettersInjective(v: nat, w: nat, n: nat)
    requires v < Power37(n) && w < Power37(n) && Letters(v, n) == Letters(w, n)
    ensures v == w
  {
    if n > 0 {
      LastLetter(v, w, n);
      assert Power37(n) == 37 * Power37(n - 1);
      LastDigits(v, w, Power37(n - 1));
      LettersInjective(v / 37, w / 37, n - 1);
    }
  }

  lemma {:induction false} LastLetter(v: nat, w: nat, n: nat)
    requires n > 0 && Letters(v, n) == Letters(w, n)
    ensures v % 37 == w % 37 && Letters(v / 37, n - 1) == Letters(w / 37, n - 1)
  {
    LettersSplit(v, n);
    LettersSplit(w, n);
    LettersDiffer(v % 37, w % 37);
  }

  lemma LastDigits(v: nat, w: nat, p: nat)
    requires v < 37 * p && w < 37 * p
    ensures v / 37 < p && w / 37 < p && (v / 37 == w / 37 && v % 37 == w % 37 ==> v == w)
  {}

  lemma {:induction false} LettersSplit(v: nat, n: nat)
    requires n > 0
    ensures Letters(v, n)[..n - 1] == Letters(v / 37, n - 1) && Letters(v, n)[n - 1] == TEMP_LETTERS[v % 37]
  {}

  lemma CountTempNames()
    ensures Power37(TEMP_LENGTH) == TEMP_NAMES
  {
    assert Power37(4) == 1_874_161;
  }

  lemma TempNamesDiffer(v: nat, w: nat)
    requires v < TEMP_NAMES && w < TEMP_NAMES && TempName(v) == TempName(w)
    ensures v == w
  {
    CountTempNames();
    assert TempName(v)[|TEMP_PREFIX|..] == Letters(v, TEMP_LENGTH);
    assert TempName(w)[|TEMP_PREFIX|..] == Letters(w, TEMP_LENGTH);
    LettersInjective(v, w, TEMP_LENGTH);
  }

  /** Some temporary name is unused in `dir`. */
  predicate HasSpare(t: Tree, dir: Path) {
    exists v :: 0 <= v < TEMP_NAMES && dir + [TempName(v)] !in t
  }

  lemma {:induction false} TempNamesCounted(used: set<Path>, dir: Path, n: nat)
    requires n <= TEMP_NAMES && forall v :: 0 <= v < n ==> dir + [TempName(v)] in used
    ensures |used| >= n
    decreases n
  {
    if n > 0 {
      var last := dir + [TempName(n - 1)];
      forall v | 0 <= v < n - 1 ensures dir + [TempName(v)] in used - {last} {
        if dir + [TempName(v)] == last {
          assert TempName(v) == (dir + [TempName(v)])[|dir|] == TempName(n - 1);
          TempNamesDiffer(v, n - 1);
        }
      }
      TempNamesCounted(used - {last}, dir, n - 1);
    }
  }

  /** With fewer paths in use than there are names, one is free. */
  lemma SparePath(used: set<Path>, dir: Path) returns (v: nat)
    requires |used| < TEMP_NAMES
    ensures v < TEMP_NAMES && dir + [TempName(v)] !in used
  {
    if forall w :: 0 <= w < TEMP_NAMES ==> dir + [TempName(w)] in used {
      TempNamesCounted(used, dir, TEMP_NAMES);
    }
    v :| 0 <= v < TEMP_NAMES && dir + [TempName(v)] !in used;
  }

  // --- System calls ---------------------------------------------------------

  /**
    A mounted disk. `trace` holds the tree after every system call, so a
    statement about all of `trace` is a statement about every crash point.
   */
  class Disk {
    var tree: Tree
    ghost var trace: seq<Tree>
    /** Files that cannot be read or unlinked. */
    const stuck: set<Path>
    /** When false, any call below may fail with an operating system error; when
        true, none fails but a read or unlink of a stuck file. */
    const steady: bool
    const faultFree: bool := steady && stuck == {}
    /** How many symbolic links the kernel follows in one path. */
    const maxLinks: nat

    constructor (tree: Tree, steady: bool, stuck: set<Path>, maxLinks: nat)
      ensures this.tree == tree && this.steady == steady && this.stuck == stuck && this.maxLinks == maxLinks && trace == []
    {
      this.tree := tree;
      this.steady := steady;
      this.stuck := stuck;
      this.maxLinks := maxLinks;
      trace := [];
    }

    function At(p: Path): Option<Path>
      requires p != []
      reads this
    {
      Locate(tree, p, maxLinks)
    }

    method Fault() returns (fault: bool)
      ensures steady ==> !fault
    {
      var any: bool := *;
      fault := any && !steady;
    }

    /** Whether reading or unlinking the entry at the physical path `p` fails. */
    method FaultAt(p: Path) returns (fault: bool)
      ensures p in stuck ==> fault
      ensures steady ==> (fault <==> p in stuck)
    {
      fault := Fault();
      fault := fault || p in stuck;
    }

    method Mkdir(p: Path) returns (ok: bool)
      requires WellFormed(tree) && p != []
      modifies this
      ensures WellFormed(tree) && trace == old(trace) + [tree]
      ensures ok ==> old(At(p)).Some? && old(At(p)).value !in old(tree)
      ensures tree == if ok then old(tree)[old(At(p)).value := Directory] else old(tree)
      ensures faultFree && old(At(p)).Some? && old(At(p)).value !in old(tree) ==> ok
    {
      var at := At(p);
      var fault := Fault();
      ok := !fault && at.Some? && at.value !in tree;
      if ok {
        LocatedUnderDir(tree, p, maxLinks);
        PutWellFormed(tree, at.value, Directory);
        tree := tree[at.value := Directory];
      }
      trace := trace + [tree];
    }

    /** unlink removes the entry itself, never what a link points to. */
    method Unlink(p: Path) returns (ok: bool)
      requires WellFormed(tree) && p != []
      modifies this
      ensures WellFormed(tree) && trace == old(trace) + [tree]
      ensures ok ==> Unlinkable(old(tree), old(At(p))) && old(At(p)).value !in stuck
      ensures tree == if ok then old(tree) - {old(At(p)).value} else old(tree)
      ensures steady && Unlinkable(old(tree), old(At(p))) && old(At(p)).value !in stuck ==> ok
    {
      var at := At(p);
      ok := Unlinkable(tree, at);
      if ok {
        var fault := FaultAt(at.value);
        ok := !fault;
      }
      if ok {
        LocatedUnderDir(tree, p, maxLinks);
        DropLeafWellFormed(tree, at.value);
        tree := tree - {at.value};
      }
      trace := trace + [tree];
    }

    /** Creates an empty private file in `dir` under a name drawn at random until
        an unused one turns up. */
    method MkTemp(dir: Path) returns (name: Option<string>)
      requires WellFormed(tree)
      modifies this
      ensures WellFormed(tree) && trace == old(trace) + [tree]
      ensures name.Some? ==>
        && Walk(old(tree), [], dir, maxLinks).Some?
        && IsTempName(name.value)
        && Walk(old(tree), [], dir, maxLinks).value + [name.value] !in old(tree)
      ensures tree == if name.None? then old(tree) else
        old(tree)[Walk(old(tree), [], dir, maxLinks).value + [name.value] := Regular([], TEMP_MODE)]
      ensures (faultFree && Walk(old(tree), [], dir, maxLinks).Some?
               && HasSpare(old(tree), Walk(old(tree), [], dir, maxLinks).value)) ==> name.Some?
    {
      var fault := Fault();
      var base := Walk(tree, [], dir, maxLinks);
      name := None;
      if !fault && base.Some? && HasSpare(tree, base.value) {
        var v: nat :| v < TEMP_NAMES && base.value + [TempName(v)] !in tree;
        name := Some(TempName(v));
        var tmp := base.value + [name.value];
        assert Parent(tmp) == base.value;
        PutWellFormed(tree, tmp, Regular([], TEMP_MODE));
        tree := tree[tmp := Regular([], TEMP_MODE)];
      }
      trace := trace + [tree];
    }

    /** Writes through an open descriptor of the file at the physical path `p`;
        a fault may leave any prefix of the content behind. */
    method Write(p: Path, content: Bytes) returns (ok: bool)
      requires WellFormed(tree) && p != [] && p in tree && tree[p].Regular?
      modifies this
      ensures WellFormed(tree) && trace == old(trace) + [tree]
      ensures p in tree && tree == old(tree)[p := tree[p]]
      ensures tree[p].Regular? && tree[p].mode == old(tree)[p].mode
      ensures ok ==> tree[p].content == content
      ensures faultFree ==> ok
    {
      var fault := Fault();
      var written: nat := |content|;
      if fault {
        written :| 0 <= written <= |content|;
      }
      ok := !fault;
      var e := Regular(content[..written], tree[p].mode);
      PutWellFormed(tree, p, e);
      tree := tree[p := e];
      trace := trace + [tree];
    }

    method Chmod(p: Path, mode: nat) returns (ok: bool)
      requires WellFormed(tree) && p != []
      modifies this
      ensures WellFormed(tree) && trace == old(trace) + [tree]
      ensures ok ==> old(At(p)).Some? && old(At(p)).value in old(tree) && old(tree)[old(At(p)).value].Regular?
      ensures tree == if !ok then old(tree) else
        old(tree)[old(At(p)).value := Regular(old(tree)[old(At(p)).value].content, mode)]
      ensures (faultFree && old(At(p)).Some? && old(At(p)).value in old(tree)
               && old(tree)[old(At(p)).value].Regular?) ==> ok
    {
      var at := At(p);
      var fault := Fault();
      ok := !fault && at.Some? && at.value in tree && tree[at.value].Regular?;
      if ok {
        var e := Regular(tree[at.value].content, mode);
        LocatedUnderDir(tree, p, maxLinks);
        PutWellFormed(tree, at.value, e);
        tree := tree[at.value := e];
      }
      trace := trace + [tree];
    }

    /** rename of a regular file: one atomic step that replaces any
        non-directory at the destination and refuses a directory. */
    method Replace(src: Path, dest: Path) returns (ok: bool)
      requires WellFormed(tree) && src != [] && dest != []
      modifies this
      ensures WellFormed(tree) && trace == old(trace) + [tree]
      ensures ok ==> Renameable(old(tree), old(At(src)), old(At(dest)))
      ensures tree == if !ok then old(tree) else
        (old(tree) - {old(At(src)).value})[old(At(dest)).value := old(tree)[old(At(src)).value]]
      ensures faultFree && Renameable(old(tree), old(At(src)), old(At(dest))) ==> ok
    {
      var from, to := At(src), At(dest);
      var fault := Fault();
      ok := !fault && Renameable(tree, from, to);
      if ok {
        var e := tree[from.value];
        LocatedUnderDir(tree, src, maxLinks);
        LocatedUnderDir(tree, dest, maxLinks);
        DropLeafWellFormed(tree, from.value);
        PutWellFormed(tree - {from.value}, to.value, e);
        tree := (tree - {from.value})[to.value := e];
      }
      trace := trace + [tree];
    }
  }

  predicate Unlinkable(t: Tree, at: Option<Path>) {
    at.Some? && at.value in t && !t[at.value].Directory?
  }

  predicate Renameable(t: Tree, from: Option<Path>, to: Option<Path>) {
    && from.Some? && to.Some?
    && from.value in t && t[from.value].Regular?
    && !IsDir(t, to.value)
  }
}
