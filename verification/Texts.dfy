/**
  The texts themselves: how the printers join and escape, and reference values of
  the standards, so that a reader need not take the functions' word for it.
 */
module Texts {
  import opened Common
  import opened Json
  import Base64
  import Decimal
  import D = Delivery
  import E = Envelope
  import F = FileTree
  import N = NodeList
  import Sorting
  import Strings
  import Totp
  import Utf8

  // --- JSON -----------------------------------------------------------------------------

  function Texts(items: seq<Json>): seq<string> {
    if items == [] then [] else [GoMarshal(items[0])] + Texts(items[1..])
  }

  /** "key":value for each field. */
  function Members(fields: seq<Field>): seq<string> {
    if fields == [] then []
    else [GoMarshal(Str(fields[0].key)) + ":" + GoMarshal(fields[0].value)] + Members(fields[1..])
  }

  /** What follows an entry: the other entries, each after a comma, and the bracket. */
  function Tail(parts: seq<string>, close: string): string {
    if parts == [] then close else "," + (Strings.Join(parts, ',') + close)
  }

  lemma JoinTail(a: string, rest: seq<string>, close: string)
    ensures a + Tail(rest, close) == Strings.Join([a] + rest, ',') + close
  {
    assert ([a] + rest)[1..] == rest;
  }

  /** A list is its items' texts between brackets, with commas and nothing else between. */
  lemma ListText(items: seq<Json>)
    ensures GoMarshal(List(items)) == "[" + Strings.Join(Texts(items), ',') + "]"
  {
    if items != [] {
      ItemsTail(items, 1);
      assert Texts(items) == [GoMarshal(items[0])] + Texts(items[1..]);
      JoinTail(GoMarshal(items[0]), Texts(items[1..]), "]");
      Bracketed("[", GoMarshal(items[0]), Tail(Texts(items[1..]), "]"), Strings.Join(Texts(items), ','), "]");
    }
  }

  lemma Bracketed(open: string, first: string, tail: string, joined: string, close: string)
    requires first + tail == joined + close
    ensures open + (first + tail) == open + joined + close
  {}

  lemma {:induction false} ItemsTail(items: seq<Json>, i: nat)
    requires i <= |items|
    ensures PrintItems(List(items), i, EscapeGo) == Tail(Texts(items[i..]), "]")
    decreases |items| - i
  {
    if i < |items| {
      ItemsTail(items, i + 1);
      var rest := items[i + 1..];
      assert items[i..][0] == items[i] && items[i..][1..] == rest;
      JoinTail(GoMarshal(items[i]), Texts(rest), "]");
    }
  }

  /** An object likewise, of its members, in the order given. */
  lemma ObjText(fields: seq<Field>)
    ensures GoMarshal(Obj(fields)) == "{" + Strings.Join(Members(fields), ',') + "}"
  {
    if fields != [] {
      FieldsTail(fields, 1);
      var first := Members(fields)[0];
      MemberText(fields, 0);
      assert Members(fields) == [first] + Members(fields[1..]);
      JoinTail(first, Members(fields[1..]), "}");
      Bracketed("{", first, Tail(Members(fields[1..]), "}"), Strings.Join(Members(fields), ','), "}");
    }
  }

  lemma MemberText(fields: seq<Field>, i: nat)
    requires i < |fields|
    ensures PrintField(Obj(fields), i, EscapeGo) == GoMarshal(Str(fields[i].key)) + ":" + GoMarshal(fields[i].value)
  {}

  lemma {:induction false} FieldsTail(fields: seq<Field>, i: nat)
    requires i <= |fields|
    ensures PrintFields(Obj(fields), i, EscapeGo) == Tail(Members(fields[i..]), "}")
    decreases |fields| - i
  {
    if i < |fields| {
      FieldsTail(fields, i + 1);
      var rest := fields[i + 1..];
      assert fields[i..][0] == fields[i] && fields[i..][1..] == rest;
      MemberText(fields, i);
      JoinTail(GoMarshal(Str(fields[i].key)) + ":" + GoMarshal(fields[i].value), Members(rest), "}");
    }
  }

  /** A string is its characters' texts between quotes. */
  lemma StringText(a: string, b: string)
    ensures GoMarshal(Str("")) == "\"\""
    ensures GoMarshal(Str(a)) == "\"" + EscapeAll(a, EscapeGo) + "\""
    ensures EscapeAll(a + b, EscapeGo) == EscapeAll(a, EscapeGo) + EscapeAll(b, EscapeGo)
  {
    EscapesConcat(a, b);
  }

  lemma {:induction false} EscapesConcat(a: string, b: string)
    ensures EscapeAll(a + b, EscapeGo) == EscapeAll(a, EscapeGo) + EscapeAll(b, EscapeGo)
  {
    if a == "" {
      assert a + b == b;
    } else {
      assert (a + b)[1..] == a[1..] + b;
      EscapesConcat(a[1..], b);
    }
  }

  const HEX: string := "0123456789abcdef"

  /** encoding/json: short escapes where there are any, four lower-case hexadecimal
      digits for the other control characters and the five special ones, and every
      other character as it is. */
  lemma EscapeTable(c: char)
    ensures EscapeAll([c], EscapeGo) ==
      if c == '"' then "\\\"" else if c == '\\' then "\\\\"
      else if c == '\U{08}' then "\\b" else if c == '\U{0C}' then "\\f"
      else if c == '\n' then "\\n" else if c == '\r' then "\\r" else if c == '\t' then "\\t"
      else if c < ' ' then ['\\', 'u', '0', '0', HEX[c as int / 16], HEX[c as int % 16]]
      else if c == '<' then "\\u003c" else if c == '>' then "\\u003e" else if c == '&' then "\\u0026"
      else if c == '\U{2028}' then "\\u2028" else if c == '\U{2029}' then "\\u2029"
      else [c]
  {
    OneEscape(c);
    if c < ' ' && !ShortEscape(c) {
      ControlEscape(c);
    } else if c >= ' ' {
      VisibleEscape(c);
    }
  }

  predicate ShortEscape(c: char) {
    c == '\U{08}' || c == '\U{0C}' || c == '\n' || c == '\r' || c == '\t'
  }

  lemma VisibleEscape(c: char)
    requires c >= ' '
    ensures EscapeGo(c) ==
      if c == '"' then "\\\"" else if c == '\\' then "\\\\"
      else if c == '<' then "\\u003c" else if c == '>' then "\\u003e" else if c == '&' then "\\u0026"
      else if c == '\U{2028}' then "\\u2028" else if c == '\U{2029}' then "\\u2029"
      else [c]
  {}

  lemma OneEscape(c: char)
    ensures EscapeAll([c], EscapeGo) == EscapeGo(c)
  {
    assert [c][1..] == "" && EscapeGo(c) + "" == EscapeGo(c);
  }

  lemma ControlEscape(c: char)
    requires c < ' ' && !ShortEscape(c)
    ensures EscapeGo(c) == ['\\', 'u', '0', '0', HEX[c as int / 16], HEX[c as int % 16]]
  {
    HexDigits(c as int / 16);
    HexDigits(c as int % 16);
  }

  lemma HexDigits(d: int)
    requires 0 <= d < 16
    ensures HexDigit(d) == HEX[d]
  {}

  // --- Fields by name ---------------------------------------------------------------------

  lemma EntryNames(f: E.FileSpec)
    ensures |E.Entry(f).fields| == 5
    ensures D.Get(E.Entry(f).fields, "path") == Some(f.path) && D.Get(E.Entry(f).fields, "mode") == Some(f.mode)
    ensures D.Get(E.Entry(f).fields, "uid") == Some(f.uid) && D.Get(E.Entry(f).fields, "gid") == Some(f.gid)
    ensures D.Get(E.Entry(f).fields, "sha256") == Some(f.sha256)
  {
    var x := E.Entry(f).fields;
    ByName(x, 0);
    ByName(x, 1);
    ByName(x, 2);
    ByName(x, 3);
    ByName(x, 4);
  }

  lemma PayloadNames(r: D.Row)
    ensures |D.PayloadEntry(r).fields| == 5
    ensures D.Get(D.PayloadEntry(r).fields, "path") == Some(r.path) && D.Get(D.PayloadEntry(r).fields, "mode") == Some(r.mode)
    ensures D.Get(D.PayloadEntry(r).fields, "uid") == Some(r.uid) && D.Get(D.PayloadEntry(r).fields, "gid") == Some(r.gid)
    ensures D.Get(D.PayloadEntry(r).fields, "content") == Some(Base64.Encode(Base64.Std, r.plain))
  {
    var x := D.PayloadEntry(r).fields;
    ByName(x, 0);
    ByName(x, 1);
    ByName(x, 2);
    ByName(x, 3);
    ByName(x, 4);
  }

  /** The first text field of a name is the one found. */
  lemma {:induction false} ByName(fields: seq<Field>, i: nat)
    requires i < |fields| && fields[i].value.Str? && forall j :: 0 <= j < i ==> fields[j].key != fields[i].key
    ensures D.Get(fields, fields[i].key) == Some(fields[i].value.text)
  {
    if i > 0 {
      ByName(fields[1..], i - 1);
    }
  }

  lemma SignedNames(e: E.Envelope)
    ensures var x := E.SignedFields(e);
      && |x| == 10
      && D.Get(x, "protocol") == Some(e.protocol) && D.Get(x, "version") == Some(Decimal.FormatInt(e.version))
      && D.Get(x, "node_id") == Some(e.nodeId) && D.Get(x, "revision_id") == Some(e.revisionId)
      && D.Get(x, "created_at") == Some(e.createdAt) && D.Get(x, "expires_at") == Some(e.expiresAt)
      && D.Get(x, "manifest_sha256") == Some(e.manifestSha256) && D.Get(x, "suite") == Some(e.suite)
      && D.Get(x, "ciphertext") == Some(e.ciphertext) && D.Get(x, "signing_key_id") == Some(e.signingKeyId)
  {
    var x := E.SignedFields(e);
    forall i | 0 <= i < 10 ensures D.Get(x, x[i].key) == Some(x[i].value.text) {
      SignedByName(e, i);
    }
    assert x[0].key == "ciphertext" && x[1].key == "created_at" && x[2].key == "expires_at" && x[3].key == "manifest_sha256";
    assert x[4].key == "node_id" && x[5].key == "protocol" && x[6].key == "revision_id" && x[7].key == "signing_key_id";
    assert x[8].key == "suite" && x[9].key == "version";
  }

  lemma SignedByName(e: E.Envelope, i: nat)
    requires i < 10
    ensures var x := E.SignedFields(e);
      |x| == 10 && x[i].value.Str? && D.Get(x, x[i].key) == Some(x[i].value.text)
  {
    var x := E.SignedFields(e);
    E.SignedFieldsAscending(e);
    forall j | 0 <= j < i ensures x[j].key != x[i].key {
      E.AscendingOrder(x, j, i);
      Utf8.CharsLessTrichotomy(x[j].key, x[i].key);
    }
    ByName(x, i);
  }

  /** A payload entry without mode, uid or gid gets 0400, 0 and 0; without a path or
      content, or with content that is no base64, it is refused. */
  lemma PayloadDefaults(fields: seq<Field>, t: D.Toolkit)
    ensures var file := D.ParseFile(Obj(fields), t);
      && (file.Some? <==>
            && D.Get(fields, "path").Some? && D.Get(fields, "content").Some?
            && Base64.Decode(Base64.Std, D.Get(fields, "content").value).Some?)
      && (file.Some? ==>
            && file.value.path == D.Get(fields, "path").value
            && Some(file.value.content) == Base64.Decode(Base64.Std, D.Get(fields, "content").value)
            && file.value.sha256 == t.sha256(file.value.content)
            && (D.Get(fields, "mode").None? ==> file.value.mode == "0400")
            && (D.Get(fields, "uid").None? ==> file.value.uid == "0") && (D.Get(fields, "gid").None? ==> file.value.gid == "0")
            && (D.Get(fields, "mode").Some? ==> file.value.mode == D.Get(fields, "mode").value)
            && (D.Get(fields, "uid").Some? ==> file.value.uid == D.Get(fields, "uid").value)
            && (D.Get(fields, "gid").Some? ==> file.value.gid == D.Get(fields, "gid").value))
  {}

  // --- Reference values ---------------------------------------------------------------------

  /** Section 10 of RFC 4648, and the letters and paddings of both variants. */
  lemma Base64Reference()
    ensures Base64.Encode(Base64.Std, []) == ""
    ensures Base64.Encode(Base64.Std, [0x66]) == "Zg=="
    ensures Base64.Encode(Base64.Std, [0x66, 0x6F]) == "Zm8="
    ensures Base64.Encode(Base64.Std, [0x66, 0x6F, 0x6F]) == "Zm9v"
    ensures Base64.Encode(Base64.Std, [0xFB, 0xFF, 0xBF]) == "+/+/"
    ensures Base64.Encode(Base64.RawUrl, [0xFB, 0xFF, 0xBF]) == "-_-_"
    ensures Base64.Encode(Base64.RawUrl, [0x66]) == "Zg"
  {}

  /** Section 7 of RFC 3629. */
  lemma Utf8Reference()
    ensures Utf8.EncodeChar('A') == [0x41] && Utf8.EncodeChar('\U{2262}') == [0xE2, 0x89, 0xA2]
    ensures Utf8.EncodeChar('\U{0391}') == [0xCE, 0x91] && Utf8.EncodeChar('\U{D55C}') == [0xED, 0x95, 0x9C]
    ensures Utf8.EncodeChar('\U{233B4}') == [0xF0, 0xA3, 0x8E, 0xB4]
  {}

  lemma NumberReference()
    ensures Decimal.FormatInt(0) == "0" && Decimal.FormatInt(7) == "7"
    ensures Decimal.FormatInt(120) == "120" && Decimal.FormatInt(-35) == "-35"
    ensures Decimal.ModeString(0x100) == "0400" && Decimal.ModeString(0x1A4) == "0644" && Decimal.ModeString(0) == "0000"
  {
    assert Decimal.FormatNat(12) == "12" && Decimal.FormatNat(35) == "35";
    assert Decimal.Octal(0x100) == "400" && Decimal.Octal(0x1A4) == "644";
  }

  /** The tag: the quoted digest of the ids, in code point order however they came,
      joined by commas. */
  lemma EtagText(ids: seq<string>, ordered: seq<string>, sha256: Bytes -> string)
    requires multiset(ordered) == multiset(ids)
    requires forall i, j :: 0 <= i < j < |ordered| ==> !Utf8.CharsLess(ordered[j], ordered[i])
    ensures D.EtagOf(ids, sha256) == "\"" + sha256(Utf8.Encode(Strings.Join(ordered, ','))) + "\""
  {
    var sorted := Sorting.SortBy(ids, Utf8.GoLess);
    D.GoLessIsWeakOrder();
    Sorting.SortBySorted(ids, Utf8.GoLess);
    D.GoLessHasNoTies(ordered);
    forall i, j | 0 <= i < j < |ordered| ensures !Utf8.GoLess(ordered[j], ordered[i]) {
      Utf8.Utf8Order(ordered[j], ordered[i]);
    }
    Sorting.SortedUnique(ordered, sorted, Utf8.GoLess);
  }

  /** The cursor of the node "x" at nanosecond 7: "7|x" in the URL-safe alphabet. */
  lemma CursorReference()
    ensures N.EncodeCursor(7, [0x78]) == "N3x4"
  {
    assert Decimal.FormatInt(7) == "7" && N.AsciiBytes("7") == [0x37] by {
      assert "7"[1..] == "";
    }
    assert [0x37] + [N.BAR] + [0x78] == [0x37, 0x7C, 0x78];
    assert Base64.Encode(Base64.RawUrl, [0x37, 0x7C, 0x78]) == "N3x4";
  }

  /** What mkstemp can draw and what it cannot. */
  lemma TempNameReference()
    ensures F.IsTempName(".write-abcdefgh") && F.IsTempName(".write-0_9zzzza")
    ensures !F.IsTempName(".write-ahead.log") && !F.IsTempName(".write-ABCDEFGH") && !F.IsTempName(".write-abc")
    ensures F.TEMP_MODE == 0x180
  {
    assert ".write-ABCDEFGH"[7] == 'A' && |".write-abc"| == 10 && |".write-ahead.log"| == 16;
  }

  /** The example of section 5.4 of RFC 4226. */
  lemma TruncateReference()
    ensures var digest := [0x1f, 0x86, 0x98, 0x69, 0x0e, 0x02, 0xca, 0x16, 0x61, 0x85, 0x50, 0xef, 0x7f, 0x19, 0xda, 0x8e, 0x94,
                           0x5b, 0x55, 0x5a];
      Totp.Truncate(digest) == 0x50ef7f19 && Totp.CodeOf(digest) == "872921"
  {
    assert 0x50ef7f19 % 1_000_000 == 872921;
  }

  /** Steps of thirty seconds from zero. */
  lemma ClockSteps(unix: int)
    ensures unix >= 0 ==> Totp.CounterAt(unix) * 30 <= unix < Totp.CounterAt(unix) * 30 + 30
    ensures Totp.CounterAt(0) == 0 && Totp.CounterAt(29) == 0 && Totp.CounterAt(30) == 1 && Totp.CounterAt(1111111109) == 37037036
  {}

  /** A code is accepted exactly when it is the one of the step half a minute ago, of
      now, or of half a minute ahead; the earliest of them counts. */
  lemma SkewExactly(key: Bytes, code: string, unix: int, mac: Totp.Mac)
    ensures var c := Totp.Matching(key, code, unix, mac);
      && (c.Some? <==>
            && key != []
            && (|| code == Totp.CodeFor(key, Totp.CounterAt(unix - 30), mac)
                || code == Totp.CodeFor(key, Totp.CounterAt(unix), mac)
                || code == Totp.CodeFor(key, Totp.CounterAt(unix + 30), mac)))
      && (c.Some? ==> c.value in {Totp.CounterAt(unix - 30), Totp.CounterAt(unix), Totp.CounterAt(unix + 30)})
      && (c.Some? && c.value != Totp.CounterAt(unix - 30) ==> code != Totp.CodeFor(key, Totp.CounterAt(unix - 30), mac))
      && (c.Some? && c.value !in {Totp.CounterAt(unix - 30), Totp.CounterAt(unix)} ==> code != Totp.CodeFor(key, Totp.CounterAt(unix), mac))
  {}
}
