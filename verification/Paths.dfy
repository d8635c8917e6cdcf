/**
  Which relative paths the Agent writes and which File Binding paths Core
  stores: validate_path of the Agent and validateBindingPath of Core.
 */
module Paths {
  import opened Common
  import opened Strings
  import Utf8

  datatype PathError = Unsafe | TooLong | ControlCharacter

  const MAX_COMPONENT_BYTES: nat := 255

  predicate IsControl(c: char) {
    c < ' ' || c == '\U{7F}'
  }

  /** White space both languages trim. */
  predicate SharedSpace(c: char) {
    || '\t' <= c <= '\r' || c == ' ' || c == '\U{85}' || c == '\U{A0}' || c == '\U{1680}'
    || '\U{2000}' <= c <= '\U{200A}' || c == '\U{2028}' || c == '\U{2029}' || c == '\U{202F}'
    || c == '\U{205F}' || c == '\U{3000}'
  }

  /** str.strip also removes the four information separators; strings.TrimSpace does not. */
  predicate PythonSpace(c: char) {
    SharedSpace(c) || '\U{1C}' <= c <= '\U{1F}'
  }

  function TrimLeft(s: string, space: char -> bool): string {
    if s != [] && space(s[0]) then TrimLeft(s[1..], space) else s
  }

  function TrimRight(s: string, space: char -> bool): string {
    if s != [] && space(s[|s| - 1]) then TrimRight(s[..|s| - 1], space) else s
  }

  lemma {:induction false} TrimLeftShape(s: string, space: char -> bool)
    ensures var r := TrimLeft(s, space);
      && |r| <= |s| && r == s[|s| - |r|..]
      && (forall k :: 0 <= k < |s| - |r| ==> space(s[k]))
      && (r != [] ==> !space(r[0]))
  {
    if s != [] && space(s[0]) {
      var rest, r := s[1..], TrimLeft(s[1..], space);
      TrimLeftShape(rest, space);
      assert r == s[|s| - |r|..];
      forall k | 0 <= k < |s| - |r| ensures space(s[k]) {
        assert k > 0 ==> s[k] == rest[k - 1];
      }
    }
  }

  lemma {:induction false} TrimRightShape(s: string, space: char -> bool)
    ensures var r := TrimRight(s, space);
      && r <= s
      && (forall k :: |r| <= k < |s| ==> space(s[k]))
      && (r != [] ==> !space(r[|r| - 1]))
  {
    if s != [] && space(s[|s| - 1]) {
      TrimRightShape(s[..|s| - 1], space);
    }
  }

  function Trim(s: string, space: char -> bool): string {
    TrimRight(TrimLeft(s, space), space)
  }

  predicate Dotted(part: string) {
    part == "" || part == "." || part == ".."
  }

  predicate HasControl(s: string) {
    exists k :: 0 <= k < |s| && IsControl(s[k])
  }

  /** The checks both sides run on one component, in their order. */
  function PartError(part: string): Option<PathError> {
    if Dotted(part) then Some(Unsafe)
    else if |Utf8.Encode(part)| > MAX_COMPONENT_BYTES then Some(TooLong)
    else if HasControl(part) then Some(ControlCharacter)
    else None
  }

  function FirstError(parts: seq<string>): Option<PathError> {
    if parts == [] then None
    else if PartError(parts[0]).Some? then PartError(parts[0])
    else FirstError(parts[1..])
  }

  lemma {:induction false} NoError(parts: seq<string>)
    ensures FirstError(parts).None? <==> forall k :: 0 <= k < |parts| ==> PartError(parts[k]).None?
  {
    if parts != [] {
      NoError(parts[1..]);
      assert forall k :: 1 <= k < |parts| ==> parts[k] == parts[1..][k - 1];
      assert forall k :: 0 <= k < |parts| - 1 ==> parts[1..][k] == parts[k + 1];
    }
  }

  function CheckTrimmed(rel: string): Result<string, PathError> {
    if rel == "" || rel[0] == '/' then Err(Unsafe)
    else match FirstError(Split(rel, '/'))
      case Some(e) => Err(e)
      case None => Ok(rel)
  }

  /** The Agent's validate_path. */
  function ValidatePath(rel: string): Result<string, PathError> {
    CheckTrimmed(Trim(rel, PythonSpace))
  }

  /** Core's validateBindingPath. */
  function ValidateBindingPath(p: string): Result<string, PathError> {
    CheckTrimmed(Trim(p, SharedSpace))
  }

  /** What a part of a path may be: not empty, not a dot or two, at most 255 bytes
      long, without control characters. */
  ghost predicate GoodPart(part: string) {
    && part != "" && part != "." && part != ".." && |Utf8.Encode(part)| <= 255
    && forall k :: 0 <= k < |part| ==> part[k] >= ' ' && part[k] != '\U{7F}'
  }

  ghost predicate GoodParts(parts: seq<string>) {
    forall k :: 0 <= k < |parts| ==> GoodPart(parts[k])
  }

  lemma GoodPartHasNoError(part: string)
    ensures PartError(part).None? <==> GoodPart(part)
  {}

  /** The Agent accepts a path exactly when, stripped, it is relative and every part
      is good; Core a binding exactly when the same holds of its own trim. */
  lemma AcceptedExactly(rel: string)
    ensures ValidatePath(rel).Ok? <==>
      var s := Trim(rel, PythonSpace); s != "" && s[0] != '/' && GoodParts(Split(s, '/'))
    ensures ValidateBindingPath(rel).Ok? <==>
      var s := Trim(rel, SharedSpace); s != "" && s[0] != '/' && GoodParts(Split(s, '/'))
    ensures ValidatePath(rel).Ok? ==> ValidatePath(rel).value == Trim(rel, PythonSpace)
    ensures ValidateBindingPath(rel).Ok? ==> ValidateBindingPath(rel).value == Trim(rel, SharedSpace)
  {
    CheckedExactly(Trim(rel, PythonSpace));
    CheckedExactly(Trim(rel, SharedSpace));
  }

  lemma CheckedExactly(s: string)
    ensures CheckTrimmed(s).Ok? <==> s != "" && s[0] != '/' && GoodParts(Split(s, '/'))
  {
    var parts := Split(s, '/');
    NoError(parts);
    forall k | 0 <= k < |parts| ensures PartError(parts[k]).None? <==> GoodPart(parts[k]) {
      GoodPartHasNoError(parts[k]);
    }
    assert FirstError(parts).None? <==> GoodParts(parts);
    assert s != "" && s[0] != '/' ==> (CheckTrimmed(s).Ok? <==> FirstError(parts).None?);
  }

  /** The white space each side trims, by code point. */
  lemma SpacesExactly(c: char)
    ensures SharedSpace(c) <==>
      c as int in {9, 10, 11, 12, 13, 32, 0x85, 0xA0, 0x1680, 0x2000, 0x2001, 0x2002, 0x2003, 0x2004, 0x2005, 0x2006, 0x2007,
                   0x2008, 0x2009, 0x200A, 0x2028, 0x2029, 0x202F, 0x205F, 0x3000}
    ensures PythonSpace(c) <==> SharedSpace(c) || c as int in {0x1C, 0x1D, 0x1E, 0x1F}
  {}

  /** The components pathlib sees in the text it is given. */
  function Components(rel: string): (parts: seq<string>)
    ensures parts != []
  {
    Split(rel, '/')
  }

  predicate SafeComponents(parts: seq<string>) {
    forall k :: 0 <= k < |parts| ==> !Dotted(parts[k])
  }

  lemma {:induction false} SplitSuffix(s: string, b: string, sep: char)
    requires sep !in b
    ensures |Split(s + b, sep)| == |Split(s, sep)|
    ensures forall k :: 0 <= k < |Split(s, sep)| ==>
      Split(s + b, sep)[k] == Split(s, sep)[k] + (if k == |Split(s, sep)| - 1 then b else [])
  {
    if s == [] {
      assert s + b == b && b == b + [];
      SplitPrefix(b, [], sep);
    } else {
      assert (s + b)[1..] == s[1..] + b;
      SplitSuffix(s[1..], b, sep);
      if s[0] != sep {
        var last := if |Split(s[1..], sep)| == 1 then b else [];
        assert [s[0]] + (Split(s[1..], sep)[0] + last) == [s[0]] + Split(s[1..], sep)[0] + last;
      }
    }
  }

  lemma SplitAffixed(lead: string, core: string, trail: string, k: nat)
    requires '/' !in lead && '/' !in trail && k < |Split(lead + (core + trail), '/')|
    ensures |Split(lead + (core + trail), '/')| == |Split(core, '/')|
    ensures Split(lead + (core + trail), '/')[k]
         == (if k == 0 then lead else []) + (Split(core, '/')[k] + if k == |Split(core, '/')| - 1 then trail else [])
  {
    var body := core + trail;
    SplitPrefix(lead, body, '/');
    SplitSuffix(core, trail, '/');
    if k > 0 {
      assert Split(lead + body, '/')[k] == Split(body, '/')[k];
      assert [] + Split(body, '/')[k] == Split(body, '/')[k];
    }
  }

  lemma TrimShape(s: string, space: char -> bool) returns (lead: string, trail: string)
    ensures s == lead + Trim(s, space) + trail
    ensures forall c :: c in lead || c in trail ==> space(c)
  {
    var left := TrimLeft(s, space);
    var core := TrimRight(left, space);
    TrimLeftShape(s, space);
    TrimRightShape(left, space);
    lead := s[..|s| - |left|];
    trail := left[|core|..];
  }

  lemma AffixedNotDotted(lead: string, core: string, trail: string)
    requires forall c :: c in lead || c in trail ==> PythonSpace(c)
    requires SafeComponents(Split(core, '/'))
    ensures SafeComponents(Split(lead + (core + trail), '/'))
  {
    forall k | 0 <= k < |Split(lead + (core + trail), '/')| ensures !Dotted(Split(lead + (core + trail), '/')[k]) {
      SplitAffixed(lead, core, trail, k);
      var part := Split(core, '/')[k];
      var a, b := if k == 0 then lead else [], if k == |Split(core, '/')| - 1 then trail else [];
      assert a + (part + b) == a + part + b;
      PaddedNotDotted(a, part, b);
    }
  }

  lemma CheckedComponentsSafe(rel: string)
    requires CheckTrimmed(rel).Ok?
    ensures SafeComponents(Split(rel, '/'))
  {
    NoError(Split(rel, '/'));
  }

  /**
    The callers validate the trimmed text but open the text they were given.
    That text still has no "", "." or ".." component, so joined under the
    bundle root it stays below the root.
   */
  lemma ValidatedComponentsSafe(rel: string)
    requires ValidatePath(rel).Ok?
    ensures SafeComponents(Components(rel))
  {
    var lead, trail := TrimShape(rel, PythonSpace);
    var core := Trim(rel, PythonSpace);
    CheckedComponentsSafe(core);
    assert rel == lead + (core + trail);
    AffixedNotDotted(lead, core, trail);
  }

  lemma PaddedNotDotted(lead: string, part: string, trail: string)
    requires !Dotted(part) && forall c :: c in lead || c in trail ==> PythonSpace(c)
    ensures !Dotted(lead + part + trail)
  {
    var all := lead + part + trail;
    if lead != [] {
      assert all[0] == lead[0] && lead[0] in lead;
    } else if trail != [] {
      assert all[|all| - 1] == trail[|trail| - 1] && trail[|trail| - 1] in trail;
    } else {
      assert all == part;
    }
  }

  lemma {:induction false} JoinNoControl(parts: seq<string>)
    requires forall p :: p in parts ==> !HasControl(p)
    ensures !HasControl(Join(parts, '/'))
  {
    if |parts| == 1 {
      assert parts[0] in parts;
    } else if |parts| > 1 {
      JoinNoControl(parts[1..]);
      assert parts[0] in parts;
      var rest := Join(parts[1..], '/');
      forall k | 0 <= k < |Join(parts, '/')| ensures !IsControl(Join(parts, '/')[k]) {
        if k > |parts[0]| {
          assert Join(parts, '/')[k] == rest[k - |parts[0]| - 1];
        }
      }
    }
  }

  lemma CheckedHasNoControl(rel: string)
    requires CheckTrimmed(rel).Ok?
    ensures !HasControl(rel)
  {
    var parts := Split(rel, '/');
    NoError(parts);
    JoinNoControl(parts);
    JoinSplit(rel, '/');
  }

  /**
    validate_path says it rejects control characters. The text that is then
    written to does carry one exactly when it has one in the white space that
    was trimmed off for the check.
   */
  lemma ControlSlipsThroughTrim(rel: string, lead: string, trail: string)
    requires ValidatePath(rel).Ok?
    requires rel == lead + Trim(rel, PythonSpace) + trail
    ensures HasControl(rel) <==> HasControl(lead) || HasControl(trail)
  {
    CheckedHasNoControl(Trim(rel, PythonSpace));
    HasControlConcat(lead, Trim(rel, PythonSpace));
    HasControlConcat(lead + Trim(rel, PythonSpace), trail);
  }

  lemma HasControlConcat(a: string, b: string)
    ensures HasControl(a + b) <==> HasControl(a) || HasControl(b)
  {
    forall k | 0 <= k < |a + b| ensures (a + b)[k] == if k < |a| then a[k] else b[k - |a|] {}
    if HasControl(a) {
      var k :| 0 <= k < |a| && IsControl(a[k]);
      assert IsControl((a + b)[k]);
    }
    if HasControl(b) {
      var k :| 0 <= k < |b| && IsControl(b[k]);
      assert IsControl((a + b)[|a| + k]);
    }
  }

  /** Core keeps the information separator at the end of a name; Python strips it. */
  lemma ControlSlipsThroughExample()
    ensures DefaultPath("\U{1F}a") == Some("\U{1F}a")
    ensures ValidatePath("\U{1F}a") == Ok("a") && HasControl("\U{1F}a")
  {
    var name := "\U{1F}a";
    assert Utf8.Encode(name[1..]) == Utf8.EncodeChar('a') + Utf8.Encode(name[2..]) && Utf8.Encode(name[2..]) == [];
    assert Utf8.Encode(name) == Utf8.EncodeChar('\U{1F}') + Utf8.Encode(name[1..]);
    assert name[0] == '\U{1F}' && name[1] == 'a' && !SharedSpace('\U{1F}') && !SharedSpace('a');
    UntouchedByTrim(name, SharedSpace);
    assert name[1..] == "a" && Trim(name, PythonSpace) == "a";
    SplitWithout("a", '/');
    assert IsControl(name[0]);
  }

  lemma UntouchedByTrim(s: string, space: char -> bool)
    requires s != [] ==> !space(s[0]) && !space(s[|s| - 1])
    ensures Trim(s, space) == s
  {}

  /**
    What a binding update stores the Agent accepts unchanged, control characters
    and all rules included: the two trims differ only on characters Core refuses.
   */
  lemma UpdatedPathsAreAccepted(p: string)
    requires ValidateBindingPath(p).Ok?
    ensures ValidatePath(ValidateBindingPath(p).value) == Ok(ValidateBindingPath(p).value)
    ensures !HasControl(ValidateBindingPath(p).value)
  {
    var q := ValidateBindingPath(p).value;
    CheckedHasNoControl(q);
    assert q == Trim(p, SharedSpace);
    var left := TrimLeft(p, SharedSpace);
    TrimLeftShape(p, SharedSpace);
    TrimRightShape(left, SharedSpace);
    assert q[0] == left[0];
    assert !IsControl(q[0]) && !IsControl(q[|q| - 1]);
    UntouchedByTrim(q, PythonSpace);
  }

  // --- The default path of a new secret -------------------------------------

  const MAX_NAME_BYTES: nat := 128

  /** The path a secret created under `name` is first bound to, its trimmed
      name; None when the handler refuses the name. */
  function DefaultPath(name: string): Option<string> {
    var trimmed := Trim(name, SharedSpace);
    if trimmed == "" || |Utf8.Encode(trimmed)| > MAX_NAME_BYTES then None
    else if '/' in name || '\U{00}' in name then None
    else Some(trimmed)
  }

  lemma TrimMembers(s: string, space: char -> bool, c: char)
    ensures c in Trim(s, space) ==> c in s
  {
    var lead, trail := TrimShape(s, space);
  }

  lemma TrimEncodesShorter(s: string, space: char -> bool)
    ensures |Utf8.Encode(Trim(s, space))| <= |Utf8.Encode(s)|
  {
    var lead, trail := TrimShape(s, space);
    Utf8.EncodeConcat(lead, Trim(s, space));
    Utf8.EncodeConcat(lead + Trim(s, space), trail);
  }

  /**
    The default path never went through validateBindingPath. The Agent accepts
    it exactly when, stripped as Python strips, it is no dotted name and has no
    control character; otherwise it refuses every bundle with that file.
   */
  lemma DefaultPathAccepted(name: string)
    requires DefaultPath(name).Some?
    ensures var stripped := Trim(DefaultPath(name).value, PythonSpace);
      ValidatePath(DefaultPath(name).value).Ok? <==> !Dotted(stripped) && !HasControl(stripped)
  {
    var p := DefaultPath(name).value;
    var stripped := Trim(p, PythonSpace);
    TrimMembers(name, SharedSpace, '/');
    TrimMembers(p, PythonSpace, '/');
    TrimEncodesShorter(p, PythonSpace);
    SplitWithout(stripped, '/');
    NoError([stripped]);
    assert [stripped][0] == stripped && |Utf8.Encode(stripped)| <= MAX_NAME_BYTES;
    assert stripped != "" ==> stripped[0] in stripped;
  }

  /** Core accepts these names and the Agent refuses the paths they become. */
  lemma DefaultPathRefusedExamples()
    ensures DefaultPath("..") == Some("..") && ValidatePath("..") == Err(Unsafe)
    ensures DefaultPath("a\tb") == Some("a\tb") && ValidatePath("a\tb").Err?
  {
    EncodeThree('a', '\t', 'b');
    assert Utf8.Encode("..") == Utf8.EncodeChar('.') + Utf8.Encode(".."[1..]);
    assert Utf8.Encode(".."[1..]) == Utf8.EncodeChar('.') + Utf8.Encode(".."[2..]) && Utf8.Encode(".."[2..]) == [];
    UntouchedByTrim("..", SharedSpace);
    UntouchedByTrim("..", PythonSpace);
    DefaultPathAccepted("..");
    SplitWithout("..", '/');
    var tabbed := "a\tb";
    assert tabbed == ['a', '\t', 'b'];
    UntouchedByTrim(tabbed, SharedSpace);
    UntouchedByTrim(tabbed, PythonSpace);
    assert IsControl(tabbed[1]);
    DefaultPathAccepted(tabbed);
  }

  lemma EncodeThree(a: char, b: char, c: char)
    ensures |Utf8.Encode([a, b, c])| <= 12
  {
    Utf8.EncodeConcat([a], [b]);
    Utf8.EncodeConcat([a] + [b], [c]);
    assert [a] + [b] + [c] == [a, b, c];
    assert Utf8.Encode([a]) == Utf8.EncodeChar(a) && Utf8.Encode([b]) == Utf8.EncodeChar(b);
    assert Utf8.Encode([c]) == Utf8.EncodeChar(c);
  }
}
