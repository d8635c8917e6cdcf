/**
  A parser for the printed form: it reads back every value from the text Go
  and Python write for it, so the text determines the value.
 */
module JsonParser {
  import opened Common
  import opened Json

  datatype Parsed<T> = Parsed(value: T, rest: string)

  function HexValue(c: char): Option<int> {
    if '0' <= c <= '9' then Some(c as int - '0' as int)
    else if 'a' <= c <= 'f' then Some(c as int - 'a' as int + 10)
    else if 'A' <= c <= 'F' then Some(c as int - 'A' as int + 10)
    else None
  }

  /** Four hexadecimal digits naming a character outside the surrogates. */
  function HexChar(s: string): Option<char>
    requires |s| == 4
  {
    var a, b, c, d := HexValue(s[0]), HexValue(s[1]), HexValue(s[2]), HexValue(s[3]);
    if a.None? || b.None? || c.None? || d.None? then None
    else
      var n := a.value * 0x1000 + b.value * 0x100 + c.value * 16 + d.value;
      if 0 <= n < 0xD800 || 0xE000 <= n < 0x10000 then Some(n as char) else None
  }

  /** One character of a string, raw or escaped. */
  function ParseChar(s: string): (r: Option<Parsed<char>>)
    requires s != ""
    ensures r.Some? ==> |r.value.rest| < |s|
  {
    if s[0] != '\\' then (if s[0] < ' ' then None else Some(Parsed(s[0], s[1..])))
    else if |s| < 2 then None
    else if s[1] == '"' || s[1] == '\\' || s[1] == '/' then Some(Parsed(s[1], s[2..]))
    else if s[1] == 'b' then Some(Parsed('\U{08}', s[2..]))
    else if s[1] == 'f' then Some(Parsed('\U{0C}', s[2..]))
    else if s[1] == 'n' then Some(Parsed('\n', s[2..]))
    else if s[1] == 'r' then Some(Parsed('\r', s[2..]))
    else if s[1] == 't' then Some(Parsed('\t', s[2..]))
    else if s[1] == 'u' && |s| >= 6 && HexChar(s[2..6]).Some? then Some(Parsed(HexChar(s[2..6]).value, s[6..]))
    else None
  }

  /** The rest of a string after its opening quote. */
  function ParseText(s: string): (r: Option<Parsed<string>>)
    ensures r.Some? ==> |r.value.rest| < |s|
    decreases |s|
  {
    if s == "" then None
    else if s[0] == '"' then Some(Parsed("", s[1..]))
    else
      match ParseChar(s)
      case None => None
      case Some(first) =>
        match ParseText(first.rest)
        case None => None
        case Some(text) => Some(Parsed([first.value] + text.value, text.rest))
  }

  function ParseValue(s: string): (r: Option<Parsed<Json>>)
    ensures r.Some? ==> |r.value.rest| < |s|
    decreases |s|, 1
  {
    if s == "" then None
    else if s[0] == '"' then
      match ParseText(s[1..])
      case None => None
      case Some(text) => Some(Parsed(Str(text.value), text.rest))
    else if s[0] == '[' then
      if |s| > 1 && s[1] == ']' then Some(Parsed(List([]), s[2..]))
      else
        match ParseValue(s[1..])
        case None => None
        case Some(first) =>
          match ParseItems(first.rest)
          case None => None
          case Some(items) => Some(Parsed(List([first.value] + items.value), items.rest))
    else if s[0] == '{' then
      if |s| > 1 && s[1] == '}' then Some(Parsed(Obj([]), s[2..]))
      else
        match ParseField(s[1..])
        case None => None
        case Some(first) =>
          match ParseFields(first.rest)
          case None => None
          case Some(fields) => Some(Parsed(Obj([first.value] + fields.value), fields.rest))
    else None
  }

  function ParseItems(s: string): (r: Option<Parsed<seq<Json>>>)
    ensures r.Some? ==> |r.value.rest| < |s|
    decreases |s|, 0
  {
    if s == "" then None
    else if s[0] == ']' then Some(Parsed([], s[1..]))
    else if s[0] != ',' then None
    else
      match ParseValue(s[1..])
      case None => None
      case Some(first) =>
        match ParseItems(first.rest)
        case None => None
        case Some(items) => Some(Parsed([first.value] + items.value, items.rest))
  }

  function ParseField(s: string): (r: Option<Parsed<Field>>)
    ensures r.Some? ==> |r.value.rest| < |s|
    decreases |s|, 0
  {
    if s == "" || s[0] != '"' then None
    else
      match ParseText(s[1..])
      case None => None
      case Some(key) =>
        if key.rest == "" || key.rest[0] != ':' then None
        else
          match ParseValue(key.rest[1..])
          case None => None
          case Some(value) => Some(Parsed(Field(key.value, value.value), value.rest))
  }

  function ParseFields(s: string): (r: Option<Parsed<seq<Field>>>)
    ensures r.Some? ==> |r.value.rest| < |s|
    decreases |s|, 0
  {
    if s == "" then None
    else if s[0] == '}' then Some(Parsed([], s[1..]))
    else if s[0] != ',' then None
    else
      match ParseField(s[1..])
      case None => None
      case Some(first) =>
        match ParseFields(first.rest)
        case None => None
        case Some(fields) => Some(Parsed([first.value] + fields.value, fields.rest))
  }

  // --- The parser inverts the printer -----------------------------------------

  lemma HexDigitReads(d: int)
    requires 0 <= d < 16
    ensures HexValue(HexDigit(d)) == Some(d)
  {}

  lemma HexCharReads(n: int)
    requires 0 <= n < 0xD800
    ensures HexChar(UnicodeEscape(n)[2..]) == Some(n as char)
  {
    var n1 := n / 16;
    var n2 := n1 / 16;
    var e := UnicodeEscape(n);
    HexDigitReads(n2 / 16);
    HexDigitReads(n2 % 16);
    HexDigitReads(n1 % 16);
    HexDigitReads(n % 16);
    assert e[2..] == [HexDigit(n2 / 16), HexDigit(n2 % 16), HexDigit(n1 % 16), HexDigit(n % 16)];
    assert n2 / 16 * 0x1000 + n2 % 16 * 0x100 + n1 % 16 * 16 + n % 16 == n;
  }

  lemma ParseCharReads(c: char, rest: string)
    ensures EscapeGo(c) != "" && EscapeGo(c)[0] != '"'
    ensures ParseChar(EscapeGo(c) + rest) == Some(Parsed(c, rest))
  {
    var e := EscapeGo(c);
    if Special(c) || (c < ' ' && |e| == 6) {
      assert e == UnicodeEscape(c as int);
      HexCharReads(c as int);
      assert (e + rest)[2..6] == e[2..] && (e + rest)[6..] == rest;
    } else if |e| == 2 {
      assert (e + rest)[2..] == rest;
    } else {
      assert e == [c] && (e + rest)[1..] == rest;
    }
  }

  lemma ParseTextStep(c: char, more: string, text: string, rest: string)
    requires ParseText(more) == Some(Parsed(text, rest))
    ensures ParseText(EscapeGo(c) + more) == Some(Parsed([c] + text, rest))
  {
    ParseCharReads(c, more);
  }

  lemma {:induction false} ParseTextReads(text: string, rest: string)
    ensures ParseText(EscapeAll(text, EscapeGo) + (['"'] + rest)) == Some(Parsed(text, rest))
  {
    var tail := ['"'] + rest;
    if text == "" {
      assert EscapeAll(text, EscapeGo) + tail == tail;
    } else {
      var more := EscapeAll(text[1..], EscapeGo) + tail;
      assert EscapeAll(text, EscapeGo) + tail == EscapeGo(text[0]) + more;
      ParseTextReads(text[1..], rest);
      ParseTextStep(text[0], more, text[1..], rest);
      assert text == [text[0]] + text[1..];
    }
  }

  lemma QuoteReads(text: string, rest: string)
    ensures (Quote(text, EscapeGo) + rest)[0] == '"'
    ensures ParseText((Quote(text, EscapeGo) + rest)[1..]) == Some(Parsed(text, rest))
  {
    ParseTextReads(text, rest);
    Unquoted(EscapeAll(text, EscapeGo), rest);
  }

  lemma Unquoted(body: string, rest: string)
    ensures ((['"'] + body + ['"']) + rest)[0] == '"' && ((['"'] + body + ['"']) + rest)[1..] == body + (['"'] + rest)
  {}

  lemma PrintStarts(v: Json)
    ensures GoMarshal(v) != "" && GoMarshal(v)[0] in {'"', '[', '{'}
  {}

  lemma PrintFieldStarts(v: Json, i: nat)
    requires v.Obj? && i < |v.fields|
    ensures PrintField(v, i, EscapeGo) != "" && PrintField(v, i, EscapeGo)[0] == '"'
  {}

  /** Parsing what was printed gives the value back, and leaves what follows it. */
  lemma {:induction false} ParseReads(v: Json, rest: string)
    ensures ParseValue(GoMarshal(v) + rest) == Some(Parsed(v, rest))
    decreases v, 1, 0
  {
    match v {
      case Str(text) => QuoteReads(text, rest);
      case List(items) =>
        if items != [] {
          ItemsRead(v, 1, rest);
          ParseReads(items[0], PrintItems(v, 1, EscapeGo) + rest);
        }
        ListReads(v, rest);
      case Obj(fields) =>
        if fields != [] {
          FieldsRead(v, 1, rest);
          FieldReads(v, 0, PrintFields(v, 1, EscapeGo) + rest);
        }
        ObjectReads(v, rest);
    }
  }

  lemma ListFromParts(s: string, a: string, b: string, first: Json, others: seq<Json>, rest: string)
    requires s == "[" + (a + b) && a != "" && a[0] != ']'
    requires ParseValue(a + b) == Some(Parsed(first, b)) && ParseItems(b) == Some(Parsed(others, rest))
    ensures ParseValue(s) == Some(Parsed(List([first] + others), rest))
  {
    assert s[1..] == a + b;
  }

  lemma ObjectFromParts(s: string, a: string, b: string, first: Field, others: seq<Field>, rest: string)
    requires s == "{" + (a + b) && a != "" && a[0] != '}'
    requires ParseField(a + b) == Some(Parsed(first, b)) && ParseFields(b) == Some(Parsed(others, rest))
    ensures ParseValue(s) == Some(Parsed(Obj([first] + others), rest))
  {
    assert s[1..] == a + b;
  }

  lemma ItemsFromParts(s: string, a: string, b: string, first: Json, others: seq<Json>, rest: string)
    requires s == "," + (a + b)
    requires ParseValue(a + b) == Some(Parsed(first, b)) && ParseItems(b) == Some(Parsed(others, rest))
    ensures ParseItems(s) == Some(Parsed([first] + others, rest))
  {
    assert s[1..] == a + b;
  }

  lemma FieldsFromParts(s: string, a: string, b: string, first: Field, others: seq<Field>, rest: string)
    requires s == "," + (a + b)
    requires ParseField(a + b) == Some(Parsed(first, b)) && ParseFields(b) == Some(Parsed(others, rest))
    ensures ParseFields(s) == Some(Parsed([first] + others, rest))
  {
    assert s[1..] == a + b;
  }

  lemma HeadAndRest<T>(s: seq<T>, i: nat)
    requires i < |s|
    ensures s[i..] == [s[i]] + s[i + 1..]
  {}

  lemma Reassociate(mark: string, a: string, b: string, rest: string)
    ensures (mark + (a + b)) + rest == mark + (a + (b + rest))
  {}

  lemma ListReads(v: Json, rest: string)
    requires v.List?
    requires v.items != [] ==>
      && ParseItems(PrintItems(v, 1, EscapeGo) + rest) == Some(Parsed(v.items[1..], rest))
      && ParseValue(GoMarshal(v.items[0]) + (PrintItems(v, 1, EscapeGo) + rest))
         == Some(Parsed(v.items[0], PrintItems(v, 1, EscapeGo) + rest))
    ensures ParseValue(GoMarshal(v) + rest) == Some(Parsed(v, rest))
  {
    if v.items == [] {
      assert ("[]" + rest)[2..] == rest;
    } else {
      var a, b := GoMarshal(v.items[0]), PrintItems(v, 1, EscapeGo);
      PrintStarts(v.items[0]);
      Reassociate("[", a, b, rest);
      ListFromParts(GoMarshal(v) + rest, a, b + rest, v.items[0], v.items[1..], rest);
      assert v.items == [v.items[0]] + v.items[1..];
    }
  }

  lemma ObjectReads(v: Json, rest: string)
    requires v.Obj?
    requires v.fields != [] ==>
      && ParseFields(PrintFields(v, 1, EscapeGo) + rest) == Some(Parsed(v.fields[1..], rest))
      && ParseField(PrintField(v, 0, EscapeGo) + (PrintFields(v, 1, EscapeGo) + rest))
         == Some(Parsed(v.fields[0], PrintFields(v, 1, EscapeGo) + rest))
    ensures ParseValue(GoMarshal(v) + rest) == Some(Parsed(v, rest))
  {
    if v.fields == [] {
      assert ("{}" + rest)[2..] == rest;
    } else {
      var a, b := PrintField(v, 0, EscapeGo), PrintFields(v, 1, EscapeGo);
      PrintFieldStarts(v, 0);
      Reassociate("{", a, b, rest);
      ObjectFromParts(GoMarshal(v) + rest, a, b + rest, v.fields[0], v.fields[1..], rest);
      assert v.fields == [v.fields[0]] + v.fields[1..];
    }
  }

  lemma {:induction false} ItemsRead(v: Json, i: nat, rest: string)
    requires v.List? && i <= |v.items|
    ensures ParseItems(PrintItems(v, i, EscapeGo) + rest) == Some(Parsed(v.items[i..], rest))
    decreases v, 0, |v.items| - i
  {
    if i == |v.items| {
      assert ("]" + rest)[1..] == rest && v.items[i..] == [];
    } else {
      ItemsRead(v, i + 1, rest);
      ParseReads(v.items[i], PrintItems(v, i + 1, EscapeGo) + rest);
      NextItemReads(v, i, rest);
    }
  }

  lemma NextItemReads(v: Json, i: nat, rest: string)
    requires v.List? && i < |v.items|
    requires ParseItems(PrintItems(v, i + 1, EscapeGo) + rest) == Some(Parsed(v.items[i + 1..], rest))
    requires ParseValue(GoMarshal(v.items[i]) + (PrintItems(v, i + 1, EscapeGo) + rest))
          == Some(Parsed(v.items[i], PrintItems(v, i + 1, EscapeGo) + rest))
    ensures ParseItems(PrintItems(v, i, EscapeGo) + rest) == Some(Parsed(v.items[i..], rest))
  {
    NextItemText(GoMarshal(v.items[i]), PrintItems(v, i + 1, EscapeGo), v.items, i, rest);
  }

  lemma NextItemText(a: string, b: string, items: seq<Json>, i: nat, rest: string)
    requires i < |items| && ParseItems(b + rest) == Some(Parsed(items[i + 1..], rest))
    requires ParseValue(a + (b + rest)) == Some(Parsed(items[i], b + rest))
    ensures ParseItems(("," + (a + b)) + rest) == Some(Parsed(items[i..], rest))
  {
    Reassociate(",", a, b, rest);
    ItemsFromParts("," + (a + (b + rest)), a, b + rest, items[i], items[i + 1..], rest);
    HeadAndRest(items, i);
  }

  lemma {:induction false} FieldReads(v: Json, i: nat, rest: string)
    requires v.Obj? && i < |v.fields|
    ensures ParseField(PrintField(v, i, EscapeGo) + rest) == Some(Parsed(v.fields[i], rest))
    decreases v, 0, 0
  {
    var f := v.fields[i];
    var key, value := Quote(f.key, EscapeGo), GoMarshal(f.value);
    ParseReads(f.value, rest);
    QuoteReads(f.key, ":" + (value + rest));
    assert (key + (":" + value)) + rest == key + (":" + (value + rest));
    FieldFromParts(PrintField(v, i, EscapeGo) + rest, f, ":" + (value + rest), rest);
  }

  lemma FieldFromParts(s: string, f: Field, after: string, rest: string)
    requires s != "" && s[0] == '"' && ParseText(s[1..]) == Some(Parsed(f.key, after))
    requires after != "" && after[0] == ':' && ParseValue(after[1..]) == Some(Parsed(f.value, rest))
    ensures ParseField(s) == Some(Parsed(f, rest))
  {}

  lemma {:induction false} NextFieldReads(v: Json, i: nat, rest: string)
    requires v.Obj? && i < |v.fields|
    requires ParseFields(PrintFields(v, i + 1, EscapeGo) + rest) == Some(Parsed(v.fields[i + 1..], rest))
    requires ParseField(PrintField(v, i, EscapeGo) + (PrintFields(v, i + 1, EscapeGo) + rest))
          == Some(Parsed(v.fields[i], PrintFields(v, i + 1, EscapeGo) + rest))
    ensures ParseFields(PrintFields(v, i, EscapeGo) + rest) == Some(Parsed(v.fields[i..], rest))
  {
    NextFieldText(PrintField(v, i, EscapeGo), PrintFields(v, i + 1, EscapeGo), v.fields, i, rest);
  }

  lemma NextFieldText(a: string, b: string, fields: seq<Field>, i: nat, rest: string)
    requires i < |fields| && ParseFields(b + rest) == Some(Parsed(fields[i + 1..], rest))
    requires ParseField(a + (b + rest)) == Some(Parsed(fields[i], b + rest))
    ensures ParseFields(("," + (a + b)) + rest) == Some(Parsed(fields[i..], rest))
  {
    Reassociate(",", a, b, rest);
    FieldsFromParts("," + (a + (b + rest)), a, b + rest, fields[i], fields[i + 1..], rest);
    HeadAndRest(fields, i);
  }

  lemma {:induction false} FieldsRead(v: Json, i: nat, rest: string)
    requires v.Obj? && i <= |v.fields|
    ensures ParseFields(PrintFields(v, i, EscapeGo) + rest) == Some(Parsed(v.fields[i..], rest))
    decreases v, 0, |v.fields| - i + 1
  {
    if i == |v.fields| {
      assert ("}" + rest)[1..] == rest && v.fields[i..] == [];
    } else {
      FieldsRead(v, i + 1, rest);
      FieldReads(v, i, PrintFields(v, i + 1, EscapeGo) + rest);
      NextFieldReads(v, i, rest);
    }
  }

  /** A whole document: a value and nothing after it. */
  function Parse(s: string): Option<Json> {
    match ParseValue(s)
    case None => None
    case Some(p) => if p.rest == "" then Some(p.value) else None
  }

  /** Canonical JSON is invertible, also where characters were replaced after serialising. */
  lemma CanonicalJsonParses(v: Json)
    ensures Parse(CanonicalJson(v)) == Some(v) && Parse(GoMarshal(v)) == Some(v)
  {
    PrintersAgree(v);
    ParseReads(v, "");
    assert GoMarshal(v) + "" == GoMarshal(v);
  }
}
