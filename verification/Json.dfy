/**
  The JSON text both languages agree on (section 7 of RFC 8259): Go's
  encoding/json, Python's json.dumps followed by five replacements, and a
  parser that inverts them.
 */
module Json {

  datatype Field = Field(key: string, value: Json)

  /** The values exchanged: strings, lists and objects with fields in the order printed. */
  datatype Json = Str(text: string) | List(items: seq<Json>) | Obj(fields: seq<Field>)

  type Escape = char -> string

  // --- Escaping ---------------------------------------------------------------

  function HexDigit(d: int): char
    requires 0 <= d < 16
  {
    if d < 10 then '0' + d as char else 'a' + (d - 10) as char
  }

  function UnicodeEscape(n: int): string
    requires 0 <= n < 0x10000
  {
    var n1 := n / 16;
    var n2 := n1 / 16;
    ['\\', 'u', HexDigit(n2 / 16), HexDigit(n2 % 16), HexDigit(n1 % 16), HexDigit(n % 16)]
  }

  /** json.dumps with ensure_ascii=False: quotes, backslashes and control characters. */
  function EscapePy(c: char): string {
    if c == '"' then ['\\', '"']
    else if c == '\\' then ['\\', '\\']
    else if c == '\U{08}' then ['\\', 'b']
    else if c == '\U{0C}' then ['\\', 'f']
    else if c == '\n' then ['\\', 'n']
    else if c == '\r' then ['\\', 'r']
    else if c == '\t' then ['\\', 't']
    else if c < ' ' then UnicodeEscape(c as int)
    else [c]
  }

  /** What is special to HTML and JavaScript. */
  predicate Special(c: char) {
    c in {'<', '>', '&', '\U{2028}', '\U{2029}'}
  }

  /** encoding/json also escapes the special characters. */
  function EscapeGo(c: char): string {
    if Special(c) then UnicodeEscape(c as int) else EscapePy(c)
  }

  function EscapeAll(s: string, escape: Escape): string {
    if s == "" then "" else escape(s[0]) + EscapeAll(s[1..], escape)
  }

  // --- Printing ---------------------------------------------------------------

  function Quote(s: string, escape: Escape): string {
    ['"'] + EscapeAll(s, escape) + ['"']
  }

  /** Compact form: no white space, fields and items in the order given. */
  function Print(v: Json, escape: Escape): string
    decreases v, 1, 0
  {
    match v
    case Str(text) => Quote(text, escape)
    case List(items) =>
      if items == [] then "[]" else "[" + (Print(items[0], escape) + PrintItems(v, 1, escape))
    case Obj(fields) =>
      if fields == [] then "{}" else "{" + (PrintField(v, 0, escape) + PrintFields(v, 1, escape))
  }

  /** The items from the i-th on, each after a comma, and the closing bracket. */
  function PrintItems(v: Json, i: nat, escape: Escape): string
    requires v.List? && i <= |v.items|
    decreases v, 0, |v.items| - i
  {
    if i == |v.items| then "]" else "," + (Print(v.items[i], escape) + PrintItems(v, i + 1, escape))
  }

  function PrintField(v: Json, i: nat, escape: Escape): string
    requires v.Obj? && i < |v.fields|
    decreases v, 0, 0
  {
    Quote(v.fields[i].key, escape) + (":" + Print(v.fields[i].value, escape))
  }

  function PrintFields(v: Json, i: nat, escape: Escape): string
    requires v.Obj? && i <= |v.fields|
    decreases v, 0, |v.fields| - i + 1
  {
    if i == |v.fields| then "}" else "," + (PrintField(v, i, escape) + PrintFields(v, i + 1, escape))
  }

  function GoMarshal(v: Json): string {
    Print(v, EscapeGo)
  }

  /** str.replace for a pattern of one character. */
  function Replace(s: string, c: char, put: string): string {
    if s == "" then "" else (if s[0] == c then put else [s[0]]) + Replace(s[1..], c, put)
  }

  /** The five replacements of canonical_json, one after the other. */
  function Canonicalized(s: string): string {
    var s1 := Replace(s, '<', UnicodeEscape(0x3c));
    var s2 := Replace(s1, '>', UnicodeEscape(0x3e));
    var s3 := Replace(s2, '&', UnicodeEscape(0x26));
    var s4 := Replace(s3, '\U{2028}', UnicodeEscape(0x2028));
    Replace(s4, '\U{2029}', UnicodeEscape(0x2029))
  }

  function CanonicalJson(v: Json): string {
    Canonicalized(Print(v, EscapePy))
  }

  // --- Both printers give the same text ---------------------------------------

  lemma {:induction false} ReplaceConcat(a: string, b: string, c: char, put: string)
    ensures Replace(a + b, c, put) == Replace(a, c, put) + Replace(b, c, put)
  {
    if a == "" {
      assert a + b == b;
    } else {
      assert (a + b)[1..] == a[1..] + b;
      ReplaceConcat(a[1..], b, c, put);
    }
  }

  lemma CanonicalizedConcat(a: string, b: string)
    ensures Canonicalized(a + b) == Canonicalized(a) + Canonicalized(b)
  {
    ReplaceConcat(a, b, '<', UnicodeEscape(0x3c));
    var a1, b1 := Replace(a, '<', UnicodeEscape(0x3c)), Replace(b, '<', UnicodeEscape(0x3c));
    ReplaceConcat(a1, b1, '>', UnicodeEscape(0x3e));
    var a2, b2 := Replace(a1, '>', UnicodeEscape(0x3e)), Replace(b1, '>', UnicodeEscape(0x3e));
    ReplaceConcat(a2, b2, '&', UnicodeEscape(0x26));
    var a3, b3 := Replace(a2, '&', UnicodeEscape(0x26)), Replace(b2, '&', UnicodeEscape(0x26));
    ReplaceConcat(a3, b3, '\U{2028}', UnicodeEscape(0x2028));
    var a4, b4 := Replace(a3, '\U{2028}', UnicodeEscape(0x2028)), Replace(b3, '\U{2028}', UnicodeEscape(0x2028));
    ReplaceConcat(a4, b4, '\U{2029}', UnicodeEscape(0x2029));
  }

  lemma {:induction false} ReplaceNothing(s: string, c: char, put: string)
    requires forall k :: 0 <= k < |s| ==> s[k] != c
    ensures Replace(s, c, put) == s
  {
    if s != "" {
      ReplaceNothing(s[1..], c, put);
    }
  }

  lemma CanonicalizedPlain(s: string)
    requires forall k :: 0 <= k < |s| ==> !Special(s[k])
    ensures Canonicalized(s) == s
  {
    ReplaceNothing(s, '<', UnicodeEscape(0x3c));
    ReplaceNothing(s, '>', UnicodeEscape(0x3e));
    ReplaceNothing(s, '&', UnicodeEscape(0x26));
    ReplaceNothing(s, '\U{2028}', UnicodeEscape(0x2028));
    ReplaceNothing(s, '\U{2029}', UnicodeEscape(0x2029));
  }

  lemma ReplaceOne(c: char, put: string)
    ensures Replace([c], c, put) == put
  {}

  lemma HexDigitsPlain(n: int)
    requires 0 <= n < 0x10000
    ensures forall k :: 0 <= k < 6 ==> !Special(UnicodeEscape(n)[k])
  {}

  /** A special character meets exactly one of the replacements, and what
      replaces it meets none of the later ones. */
  lemma CanonicalizedSpecial(c: char)
    requires Special(c)
    ensures Canonicalized([c]) == UnicodeEscape(c as int)
  {
    var put := UnicodeEscape(c as int);
    HexDigitsPlain(c as int);
    ReplaceOne(c, put);
    if c != '<' { ReplaceNothing([c], '<', UnicodeEscape(0x3c)); }
    if c == '<' {
      ReplaceNothing(put, '>', UnicodeEscape(0x3e));
    } else if c != '>' {
      ReplaceNothing([c], '>', UnicodeEscape(0x3e));
    }
    if c in {'<', '>'} {
      ReplaceNothing(put, '&', UnicodeEscape(0x26));
    } else if c != '&' {
      ReplaceNothing([c], '&', UnicodeEscape(0x26));
    }
    if c in {'<', '>', '&'} {
      ReplaceNothing(put, '\U{2028}', UnicodeEscape(0x2028));
    } else if c != '\U{2028}' {
      ReplaceNothing([c], '\U{2028}', UnicodeEscape(0x2028));
    }
    if c != '\U{2029}' { ReplaceNothing(put, '\U{2029}', UnicodeEscape(0x2029)); }
  }

  lemma EscapesAgree(c: char)
    ensures Canonicalized(EscapePy(c)) == EscapeGo(c)
  {
    if Special(c) {
      CanonicalizedSpecial(c);
    } else {
      if c < ' ' { HexDigitsPlain(c as int); }
      CanonicalizedPlain(EscapePy(c));
    }
  }

  lemma {:induction false} EscapeAllAgrees(s: string)
    ensures Canonicalized(EscapeAll(s, EscapePy)) == EscapeAll(s, EscapeGo)
  {
    if s == "" {
      CanonicalizedPlain("");
    } else {
      CanonicalizedConcat(EscapePy(s[0]), EscapeAll(s[1..], EscapePy));
      EscapesAgree(s[0]);
      EscapeAllAgrees(s[1..]);
    }
  }

  lemma BothAgree(a: string, b: string, c: string, d: string)
    requires Canonicalized(a) == c && Canonicalized(b) == d
    ensures Canonicalized(a + b) == c + d
  {
    CanonicalizedConcat(a, b);
  }

  /** A punctuation mark in front changes nothing. */
  lemma MarkAgrees(mark: string, a: string, b: string)
    requires |mark| == 1 && !Special(mark[0]) && Canonicalized(a) == b
    ensures Canonicalized(mark + a) == mark + b
  {
    CanonicalizedPlain(mark);
    BothAgree(mark, a, mark, b);
  }

  lemma QuotesAgree(s: string)
    ensures Canonicalized(Quote(s, EscapePy)) == Quote(s, EscapeGo)
  {
    EscapeAllAgrees(s);
    CanonicalizedPlain(['"']);
    MarkAgrees(['"'], EscapeAll(s, EscapePy), EscapeAll(s, EscapeGo));
    BothAgree(['"'] + EscapeAll(s, EscapePy), ['"'], ['"'] + EscapeAll(s, EscapeGo), ['"']);
  }

  /** Sorted alike, both printers write the same text for every value. */
  lemma {:induction false} PrintersAgree(v: Json)
    ensures CanonicalJson(v) == GoMarshal(v)
    decreases v, 1, 0
  {
    match v {
      case Str(text) => QuotesAgree(text);
      case List(items) =>
        if items == [] {
          CanonicalizedPlain("[]");
        } else {
          PrintersAgree(items[0]);
          ItemsAgree(v, 1);
          ListAgrees("[", Print(items[0], EscapePy), PrintItems(v, 1, EscapePy), GoMarshal(items[0]), PrintItems(v, 1, EscapeGo));
        }
      case Obj(fields) =>
        if fields == [] {
          CanonicalizedPlain("{}");
        } else {
          FieldAgrees(v, 0);
          FieldsAgree(v, 1);
          ListAgrees("{", PrintField(v, 0, EscapePy), PrintFields(v, 1, EscapePy),
                     PrintField(v, 0, EscapeGo), PrintFields(v, 1, EscapeGo));
        }
    }
  }

  lemma ListAgrees(mark: string, a: string, b: string, c: string, d: string)
    requires |mark| == 1 && !Special(mark[0]) && Canonicalized(a) == c && Canonicalized(b) == d
    ensures Canonicalized(mark + (a + b)) == mark + (c + d)
  {
    BothAgree(a, b, c, d);
    MarkAgrees(mark, a + b, c + d);
  }

  lemma {:induction false} ItemsAgree(v: Json, i: nat)
    requires v.List? && i <= |v.items|
    ensures Canonicalized(PrintItems(v, i, EscapePy)) == PrintItems(v, i, EscapeGo)
    decreases v, 0, |v.items| - i
  {
    if i == |v.items| {
      CanonicalizedPlain("]");
    } else {
      PrintersAgree(v.items[i]);
      ItemsAgree(v, i + 1);
      ListAgrees(",", Print(v.items[i], EscapePy), PrintItems(v, i + 1, EscapePy),
                 GoMarshal(v.items[i]), PrintItems(v, i + 1, EscapeGo));
    }
  }

  lemma {:induction false} FieldAgrees(v: Json, i: nat)
    requires v.Obj? && i < |v.fields|
    ensures Canonicalized(PrintField(v, i, EscapePy)) == PrintField(v, i, EscapeGo)
    decreases v, 0, 0
  {
    QuotesAgree(v.fields[i].key);
    PrintersAgree(v.fields[i].value);
    MarkAgrees(":", Print(v.fields[i].value, EscapePy), GoMarshal(v.fields[i].value));
    BothAgree(Quote(v.fields[i].key, EscapePy), ":" + Print(v.fields[i].value, EscapePy),
              Quote(v.fields[i].key, EscapeGo), ":" + GoMarshal(v.fields[i].value));
  }

  lemma {:induction false} FieldsAgree(v: Json, i: nat)
    requires v.Obj? && i <= |v.fields|
    ensures Canonicalized(PrintFields(v, i, EscapePy)) == PrintFields(v, i, EscapeGo)
    decreases v, 0, |v.fields| - i + 1
  {
    if i == |v.fields| {
      CanonicalizedPlain("}");
    } else {
      FieldAgrees(v, i);
      FieldsAgree(v, i + 1);
      NextFieldAgrees(v, i);
    }
  }

  lemma NextFieldAgrees(v: Json, i: nat)
    requires v.Obj? && i < |v.fields|
    requires Canonicalized(PrintField(v, i, EscapePy)) == PrintField(v, i, EscapeGo)
    requires Canonicalized(PrintFields(v, i + 1, EscapePy)) == PrintFields(v, i + 1, EscapeGo)
    ensures Canonicalized(PrintFields(v, i, EscapePy)) == PrintFields(v, i, EscapeGo)
  {
    ListAgrees(",", PrintField(v, i, EscapePy), PrintFields(v, i + 1, EscapePy),
               PrintField(v, i, EscapeGo), PrintFields(v, i + 1, EscapeGo));
  }
}
