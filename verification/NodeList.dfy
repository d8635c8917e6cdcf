/** Page cursors and the node list: the sort, the cursor lookup, the page cut,
    and the walk a client makes by following next_cursor. */
module NodeList {
  import opened Common
  import opened Sorting
  import Base64
  import Decimal
  import Utf8

  // --- Cursors ----------------------------------------------------------------

  /** A position in a list: nanoseconds since 1970 (None for Go's zero time) and an id. */
  datatype Cursor = Cursor(at: Option<int>, id: Bytes)

  const BAR: byte := 0x7C

  function AsciiBytes(s: string): Bytes {
    if s == "" then [] else [(s[0] as int % 128) as byte] + AsciiBytes(s[1..])
  }

  function Chars(b: Bytes): string {
    if b == [] then "" else [b[0] as int as char] + Chars(b[1..])
  }

  function EncodeCursor(at: int, id: Bytes): string {
    Base64.Encode(Base64.RawUrl, AsciiBytes(Decimal.FormatInt(at)) + [BAR] + id)
  }

  /** The position of the first bar, or the length. */
  function FirstBar(b: Bytes): (k: nat)
    ensures k <= |b|
  {
    if b == [] || b[0] == BAR then 0 else 1 + FirstBar(b[1..])
  }

  /** Go's decoder skips line breaks. */
  function WithoutNewlines(s: string): string {
    if s == "" then ""
    else if s[0] == '\r' || s[0] == '\n' then WithoutNewlines(s[1..])
    else [s[0]] + WithoutNewlines(s[1..])
  }

  /** None is a malformed cursor; the empty text is no cursor. */
  function DecodeCursor(value: string): Option<Cursor> {
    if value == "" then Some(Cursor(None, []))
    else
      match Base64.Decode(Base64.RawUrl, WithoutNewlines(value))
      case None => None
      case Some(raw) =>
        var bar := FirstBar(raw);
        if bar == |raw| then None
        else
          match Decimal.ParseInt(Chars(raw[..bar]))
          case None => None
          case Some(nanos) => Some(Cursor(Some(nanos), raw[bar + 1..]))
  }

  lemma {:induction false} CharsOfAscii(s: string)
    requires forall k :: 0 <= k < |s| ==> s[k] < '\U{80}'
    ensures Chars(AsciiBytes(s)) == s
  {
    if s != "" {
      CharsOfAscii(s[1..]);
    }
  }

  lemma {:induction false} BarAfter(s: string, rest: Bytes)
    requires forall k :: 0 <= k < |s| ==> s[k] < '\U{80}' && s[k] != '|'
    ensures FirstBar(AsciiBytes(s) + [BAR] + rest) == |AsciiBytes(s)|
  {
    var b := AsciiBytes(s) + [BAR] + rest;
    if s != "" {
      assert b[1..] == AsciiBytes(s[1..]) + [BAR] + rest;
      BarAfter(s[1..], rest);
    }
  }

  lemma {:induction false} NewlinesStay(s: string)
    requires forall k :: 0 <= k < |s| ==> s[k] !in {'\r', '\n'}
    ensures WithoutNewlines(s) == s
  {
    if s != "" {
      NewlinesStay(s[1..]);
    }
  }

  lemma FormatIntAscii(n: int)
    ensures FormatIntIsAscii(n)
  {
    Decimal.FormatNatReads(Decimal.Magnitude(n));
  }

  ghost predicate FormatIntIsAscii(n: int) {
    forall k :: 0 <= k < |Decimal.FormatInt(n)| ==> Decimal.FormatInt(n)[k] < '\U{80}' && Decimal.FormatInt(n)[k] != '|'
  }

  /** Every representable time and every id come back, even an id with a bar in it. */
  lemma CursorRoundTrip(at: int, id: Bytes)
    requires Decimal.MIN_INT64 <= at <= Decimal.MAX_INT64
    ensures EncodeCursor(at, id) != "" && DecodeCursor(EncodeCursor(at, id)) == Some(Cursor(Some(at), id))
  {
    var number := Decimal.FormatInt(at);
    var raw := AsciiBytes(number) + [BAR] + id;
    var value := EncodeCursor(at, id);
    Base64.DecodeEncode(Base64.RawUrl, raw);
    forall k | 0 <= k < |value| ensures value[k] !in {'\r', '\n'} {
      Base64.EncodeHasNoNewlines(Base64.RawUrl, raw, k);
    }
    NewlinesStay(value);
    FormatIntAscii(at);
    RawParts(number, id);
    Decimal.ParseFormat(at);
  }

  /** The first bar ends the number, whatever the id holds. */
  lemma RawParts(number: string, id: Bytes)
    requires forall k :: 0 <= k < |number| ==> number[k] < '\U{80}' && number[k] != '|'
    ensures var raw := AsciiBytes(number) + [BAR] + id;
      FirstBar(raw) < |raw| && Chars(raw[..FirstBar(raw)]) == number && raw[FirstBar(raw) + 1..] == id
  {
    var head := AsciiBytes(number);
    var raw := head + [BAR] + id;
    BarAfter(number, id);
    CharsOfAscii(number);
    assert raw[..|head|] == head && raw[|head| + 1..] == id;
  }

  // --- One page ---------------------------------------------------------------

  datatype Node = Node(id: Bytes, createdAt: int)

  /** Newest first, then by descending id. */
  predicate Before(a: Node, b: Node) {
    if a.createdAt != b.createdAt then a.createdAt > b.createdAt else Utf8.BytesLess(b.id, a.id)
  }

  predicate Named(node: Node, cursor: Cursor) {
    node.id == cursor.id && (cursor.at == None || cursor.at == Some(node.createdAt))
  }

  /** The place after the first node the cursor names, looking from the i-th on; 0 when there is none. */
  function After(sorted: seq<Node>, cursor: Cursor, i: nat): nat
    requires i <= |sorted|
    decreases |sorted| - i
  {
    if i == |sorted| then 0 else if Named(sorted[i], cursor) then i + 1 else After(sorted, cursor, i + 1)
  }

  /** At most a hundred, twenty-five when none or a non-positive one is asked for. */
  function Limit(asked: Option<int>): nat {
    if asked.None? || asked.value <= 0 then 25 else if asked.value > 100 then 100 else asked.value
  }

  datatype Page = Page(items: seq<Node>, next: string, total: nat)

  function Cut(sorted: seq<Node>, start: nat, limit: nat): Page
    requires limit > 0
  {
    if start >= |sorted| then Page([], "", |sorted|)
    else if start + limit < |sorted| then
      var last := sorted[start + limit - 1];
      Page(sorted[start..start + limit], EncodeCursor(last.createdAt, last.id), |sorted|)
    else Page(sorted[start..], "", |sorted|)
  }

  /** The answer to a request; None is a malformed cursor. */
  function Answer(nodes: seq<Node>, cursorText: string, asked: Option<int>, page: nat): Option<Page> {
    match DecodeCursor(cursorText)
    case None => None
    case Some(cursor) => Some(AnswerTo(SortBy(nodes, Before), cursor, asked, page))
  }

  function AnswerTo(sorted: seq<Node>, cursor: Cursor, asked: Option<int>, page: nat): Page {
    var start :=
      if cursor.id != [] then After(sorted, cursor, 0) else if page > 1 then (page - 1) * Limit(asked) else 0;
    Cut(sorted, start, Limit(asked))
  }

  method FindStart(sorted: seq<Node>, cursor: Cursor, page: nat, limit: nat) returns (start: nat)
    ensures start ==
      if cursor.id != [] then After(sorted, cursor, 0) else if page > 1 then (page - 1) * limit else 0
  {
    start := 0;
    if page > 1 && cursor.id == [] {
      start := (page - 1) * limit;
    } else if cursor.id != [] {
      for i := 0 to |sorted|
        invariant start == 0 && After(sorted, cursor, 0) == After(sorted, cursor, i)
      {
        if Named(sorted[i], cursor) {
          start := i + 1;
          break;
        }
      }
    }
  }

  method CutPage(sorted: seq<Node>, start: nat, limit: nat) returns (p: Page)
    requires limit > 0
    ensures p == Cut(sorted, start, limit)
  {
    var items, next := sorted, "";
    if start < |sorted| {
      var end := start + limit;
      if end > |sorted| {
        end := |sorted|;
      }
      items := sorted[start..end];
      if end < |sorted| {
        var last := sorted[end - 1];
        next := EncodeCursor(last.createdAt, last.id);
      }
    } else {
      items := [];
    }
    return Page(items, next, |sorted|);
  }

  method HandleListNodes(nodes: seq<Node>, cursorText: string, asked: Option<int>, page: nat)
    returns (answer: Option<Page>)
    ensures answer == Answer(nodes, cursorText, asked, page)
  {
    var sorted := SortBy(nodes, Before);
    var decoded := DecodeCursor(cursorText);
    if decoded.None? { return None; }
    var start := FindStart(sorted, decoded.value, page, Limit(asked));
    var p := CutPage(sorted, start, Limit(asked));
    return Some(p);
  }

  // --- The walk ---------------------------------------------------------------

  /** Ids are distinct and not empty, and times have a nanosecond count. */
  ghost predicate Listable(nodes: seq<Node>) {
    && (forall i :: 0 <= i < |nodes| ==>
          nodes[i].id != [] && Decimal.MIN_INT64 <= nodes[i].createdAt <= Decimal.MAX_INT64)
    && (forall i, j :: 0 <= i < j < |nodes| ==> nodes[i].id != nodes[j].id)
  }

  /** The pages a client gets by following next_cursor until it is empty. */
  ghost predicate IsWalk(answer: string -> Option<Page>, cursorText: string, pages: seq<seq<Node>>)
    decreases |pages|
  {
    pages != [] &&
    var page := answer(cursorText);
    && page.Some? && page.value.items == pages[0]
    && (if page.value.next == "" then |pages| == 1 else IsWalk(answer, page.value.next, pages[1..]))
  }

  function Concat(pages: seq<seq<Node>>): seq<Node> {
    if pages == [] then [] else pages[0] + Concat(pages[1..])
  }

  lemma {:induction false} AfterFinds(sorted: seq<Node>, i: nat, k: nat)
    requires Listable(sorted) && i <= k < |sorted|
    ensures After(sorted, Cursor(Some(sorted[k].createdAt), sorted[k].id), i) == k + 1
    decreases k - i
  {
    if i < k {
      AfterFinds(sorted, i + 1, k);
    }
  }

  /** The cursor text that stands for a place in the list. */
  function Token(sorted: seq<Node>, start: nat): string {
    if 0 < start <= |sorted| then EncodeCursor(sorted[start - 1].createdAt, sorted[start - 1].id) else ""
  }

  /** Asked with the text of a place, `answer` gives the page from that place on. */
  ghost predicate Serves(answer: string -> Option<Page>, token: nat -> string, sorted: seq<Node>, limit: nat) {
    && limit > 0
    && (forall k :: 0 < k < |sorted| ==> token(k) != "")
    && (forall k :: 0 <= k <= |sorted| ==> ServesAt(answer, token, sorted, limit, k))
  }

  ghost predicate ServesAt(answer: string -> Option<Page>, token: nat -> string, sorted: seq<Node>, limit: nat, k: nat)
    requires k <= |sorted|
  {
    answer(token(k)) == Some(PageFrom(token, sorted, limit, k))
  }

  function PageFrom(token: nat -> string, sorted: seq<Node>, limit: nat, k: nat): Page
    requires k <= |sorted|
  {
    if k + limit < |sorted| then Page(sorted[k..k + limit], token(k + limit), |sorted|)
    else Page(sorted[k..], "", |sorted|)
  }

  lemma AnswerAt(nodes: seq<Node>, asked: Option<int>, start: nat)
    requires Listable(SortBy(nodes, Before)) && start <= |SortBy(nodes, Before)|
    ensures Answer(nodes, Token(SortBy(nodes, Before), start), asked, 0) ==
      Some(Cut(SortBy(nodes, Before), start, Limit(asked)))
  {
    var sorted := SortBy(nodes, Before);
    if start > 0 {
      var last := sorted[start - 1];
      CursorRoundTrip(last.createdAt, last.id);
      AnswerToLast(sorted, asked, start);
      assert DecodeCursor(Token(sorted, start)) == Some(Cursor(Some(last.createdAt), last.id));
    } else {
      assert DecodeCursor("") == Some(Cursor(None, []));
    }
  }

  lemma AnswerToLast(sorted: seq<Node>, asked: Option<int>, start: nat)
    requires Listable(sorted) && 0 < start <= |sorted|
    ensures AnswerTo(sorted, Cursor(Some(sorted[start - 1].createdAt), sorted[start - 1].id), asked, 0) ==
      Cut(sorted, start, Limit(asked))
  {
    AfterFinds(sorted, 0, start - 1);
  }

  lemma AnswersServe(nodes: seq<Node>, asked: Option<int>, answer: string -> Option<Page>, token: nat -> string)
    requires Listable(SortBy(nodes, Before))
    requires forall text :: answer(text) == Answer(nodes, text, asked, 0)
    requires forall k :: token(k) == Token(SortBy(nodes, Before), k)
    ensures Serves(answer, token, SortBy(nodes, Before), Limit(asked)) && token(0) == ""
  {
    var sorted, limit := SortBy(nodes, Before), Limit(asked);
    forall k | 0 < k < |sorted| ensures token(k) != "" {
      TokenNotEmpty(sorted, k);
    }
    forall k | 0 <= k <= |sorted| ensures ServesAt(answer, token, sorted, limit, k) {
      AnswerAt(nodes, asked, k);
      CutIsPageFrom(token, sorted, limit, k);
    }
  }

  lemma TokenNotEmpty(sorted: seq<Node>, k: nat)
    requires Listable(sorted) && 0 < k < |sorted|
    ensures Token(sorted, k) != ""
  {
    CursorRoundTrip(sorted[k - 1].createdAt, sorted[k - 1].id);
  }

  lemma CutIsPageFrom(token: nat -> string, sorted: seq<Node>, limit: nat, k: nat)
    requires k <= |sorted| && limit > 0 && token(k + limit) == Token(sorted, k + limit)
    ensures Cut(sorted, k, limit) == PageFrom(token, sorted, limit, k)
  {}

  lemma WalkUnfolds(answer: string -> Option<Page>, text: string, page: Page, pages: seq<seq<Node>>)
    requires IsWalk(answer, text, pages) && answer(text) == Some(page)
    ensures pages != [] && pages[0] == page.items && Concat(pages) == page.items + Concat(pages[1..])
    ensures if page.next == "" then pages[1..] == [] else IsWalk(answer, page.next, pages[1..])
  {}

  /** From any place, every walk covers exactly the rest of the list. */
  lemma {:induction false} WalkCovers(
    answer: string -> Option<Page>, token: nat -> string, sorted: seq<Node>, limit: nat, start: nat, pages: seq<seq<Node>>)
    requires Serves(answer, token, sorted, limit) && start <= |sorted| && IsWalk(answer, token(start), pages)
    ensures Concat(pages) == sorted[start..]
    decreases |pages|
  {
    var page := PageFrom(token, sorted, limit, start);
    assert ServesAt(answer, token, sorted, limit, start);
    WalkUnfolds(answer, token(start), page, pages);
    if start + limit < |sorted| {
      WalkCovers(answer, token, sorted, limit, start + limit, pages[1..]);
      assert sorted[start..] == sorted[start..start + limit] + sorted[start + limit..];
    }
  }

  lemma {:induction false} WalkEnds(
    answer: string -> Option<Page>, token: nat -> string, sorted: seq<Node>, limit: nat, start: nat)
    returns (pages: seq<seq<Node>>)
    requires Serves(answer, token, sorted, limit) && start <= |sorted|
    ensures IsWalk(answer, token(start), pages)
    decreases |sorted| - start
  {
    assert ServesAt(answer, token, sorted, limit, start);
    if start + limit < |sorted| {
      var others := WalkEnds(answer, token, sorted, limit, start + limit);
      pages := [sorted[start..start + limit]] + others;
      assert pages[1..] == others;
    } else {
      pages := [sorted[start..]];
    }
  }

  lemma SortedListable(nodes: seq<Node>)
    requires Listable(nodes)
    ensures Listable(SortBy(nodes, Before))
  {
    var sorted := SortBy(nodes, Before);
    forall i | 0 <= i < |sorted|
      ensures sorted[i].id != [] && Decimal.MIN_INT64 <= sorted[i].createdAt <= Decimal.MAX_INT64
    {
      assert sorted[i] in multiset(sorted);
      assert sorted[i] in nodes;
    }
    forall i, j | 0 <= i < j < |sorted| ensures sorted[i].id != sorted[j].id {
      TwiceOnce(nodes, sorted, i, j);
    }
  }

  /** Two places of a rearrangement are two places of the original. */
  lemma TwiceOnce(nodes: seq<Node>, sorted: seq<Node>, i: nat, j: nat)
    requires Listable(nodes) && multiset(nodes) == multiset(sorted) && i < j < |sorted|
    ensures sorted[i].id != sorted[j].id
  {
    var x, y := sorted[i], sorted[j];
    assert x in multiset(sorted) && y in multiset(sorted);
    assert x in nodes && y in nodes;
    if x == y {
      assert sorted == sorted[..j] + sorted[j..];
      assert multiset(sorted) == multiset(sorted[..j]) + multiset(sorted[j..]);
      assert sorted[..j][i] == x && sorted[j..][0] == x;
      assert multiset(sorted)[x] >= 2;
      OnceIn(nodes, x);
    }
  }

  lemma {:induction false} OnceIn(nodes: seq<Node>, x: Node)
    requires Listable(nodes)
    ensures multiset(nodes)[x] <= 1
  {
    if nodes != [] {
      assert nodes == [nodes[0]] + nodes[1..];
      OnceIn(nodes[1..], x);
      if nodes[0] == x {
        assert x !in nodes[1..];
      }
    }
  }

  /** Following next_cursor from the first page over an unchanged set of nodes
      ends, and the pages together are the whole sorted list: each node once. */
  lemma WalkListsEverything(nodes: seq<Node>, asked: Option<int>)
    requires Listable(nodes)
    ensures var answer := (text: string) => Answer(nodes, text, asked, 0);
      && (exists pages :: IsWalk(answer, "", pages))
      && (forall pages :: IsWalk(answer, "", pages) ==> Concat(pages) == SortBy(nodes, Before))
    ensures multiset(SortBy(nodes, Before)) == multiset(nodes) && Sorted(SortBy(nodes, Before), Before)
  {
    var answer := (text: string) => Answer(nodes, text, asked, 0);
    var sorted := SortBy(nodes, Before);
    var token := (k: nat) => Token(sorted, k);
    SortedListable(nodes);
    BeforeIsWeakOrder();
    SortBySorted(nodes, Before);
    AnswersServe(nodes, asked, answer, token);
    var pages := WalkEnds(answer, token, sorted, Limit(asked), 0);
    forall pages | IsWalk(answer, "", pages) ensures Concat(pages) == sorted {
      WalkCovers(answer, token, sorted, Limit(asked), 0, pages);
    }
  }

  lemma {:induction false} BytesLessTrichotomy(a: Bytes, b: Bytes)
    ensures Utf8.BytesLess(a, b) ==> !Utf8.BytesLess(b, a)
    ensures a != b ==> Utf8.BytesLess(a, b) || Utf8.BytesLess(b, a)
  {
    if a != [] && b != [] {
      BytesLessTrichotomy(a[1..], b[1..]);
      assert a == [a[0]] + a[1..] && b == [b[0]] + b[1..];
    }
  }

  lemma {:induction false} BytesNotLessTransitive(a: Bytes, b: Bytes, c: Bytes)
    requires !Utf8.BytesLess(b, a) && !Utf8.BytesLess(c, b)
    ensures !Utf8.BytesLess(c, a)
  {
    if a != [] && b != [] && c != [] && a[0] == b[0] == c[0] {
      BytesNotLessTransitive(a[1..], b[1..], c[1..]);
    }
  }

  lemma BeforeIsWeakOrder()
    ensures WeakOrder(Before)
  {
    forall x, y | Before(x, y) ensures !Before(y, x) {
      BytesLessTrichotomy(x.id, y.id);
    }
    forall x, y, z | !Before(y, x) && !Before(z, y) ensures !Before(z, x) {
      if x.createdAt == y.createdAt == z.createdAt {
        BytesNotLessTransitive(z.id, y.id, x.id);
      }
    }
  }

  /** No two nodes tie, so any sort of the same nodes gives the same list. */
  lemma AnySortAgrees(nodes: seq<Node>, other: seq<Node>)
    requires Listable(nodes) && multiset(other) == multiset(nodes) && Sorted(other, Before)
    ensures other == SortBy(nodes, Before)
  {
    BeforeIsWeakOrder();
    SortBySorted(nodes, Before);
    forall x, y | x in other && y in other && x != y ensures Before(x, y) || Before(y, x) {
      BytesLessTrichotomy(x.id, y.id);
      assert x in multiset(other) && y in multiset(other);
      assert x in nodes && y in nodes;
    }
    SortedUnique(other, SortBy(nodes, Before), Before);
  }

  // --- What a page holds -------------------------------------------------------

  /** Newest first; equal times by descending id. */
  ghost predicate InOrder(items: seq<Node>) {
    forall i, j :: 0 <= i < j < |items| ==>
      items[i].createdAt > items[j].createdAt
      || (items[i].createdAt == items[j].createdAt && !Utf8.BytesLess(items[i].id, items[j].id))
  }

  lemma SortedInOrder(nodes: seq<Node>)
    ensures InOrder(SortBy(nodes, Before))
  {
    var sorted := SortBy(nodes, Before);
    BeforeIsWeakOrder();
    SortBySorted(nodes, Before);
    forall i, j | 0 <= i < j < |sorted|
      ensures sorted[i].createdAt > sorted[j].createdAt
              || (sorted[i].createdAt == sorted[j].createdAt && !Utf8.BytesLess(sorted[i].id, sorted[j].id))
    {
      assert !Before(sorted[j], sorted[i]);
    }
  }

  /** How many nodes a page holds at most: 25 unless asked, never more than 100. */
  lemma LimitExactly(asked: Option<int>)
    ensures asked.None? ==> Limit(asked) == 25
    ensures asked.Some? && asked.value <= 0 ==> Limit(asked) == 25
    ensures asked.Some? && 1 <= asked.value <= 100 ==> Limit(asked) == asked.value
    ensures asked.Some? && asked.value > 100 ==> Limit(asked) == 100
  {}

  /** Where the page starts in the sorted list: after the named node if there is one, else
      after the pages before, else at the front. */
  ghost predicate StartsAt(sorted: seq<Node>, cursor: Cursor, asked: Option<int>, page: nat, start: nat) {
    if cursor.id == [] then start == (if page > 1 then (page - 1) * Limit(asked) else 0)
    else if exists i :: 0 <= i < |sorted| && Names(cursor, sorted[i]) then
      0 < start <= |sorted| && Names(cursor, sorted[start - 1]) && forall i :: 0 <= i < start - 1 ==> !Names(cursor, sorted[i])
    else start == 0
  }

  /** A cursor names a node by its id, and by its time if it carries one. */
  ghost predicate Names(cursor: Cursor, node: Node) {
    node.id == cursor.id && (cursor.at.Some? ==> cursor.at.value == node.createdAt)
  }

  lemma {:induction false} AfterStarts(sorted: seq<Node>, cursor: Cursor, i: nat)
    requires i <= |sorted| && forall k :: 0 <= k < i ==> !Names(cursor, sorted[k])
    ensures var start := After(sorted, cursor, i);
      if exists k :: 0 <= k < |sorted| && Names(cursor, sorted[k]) then
        0 < start <= |sorted| && Names(cursor, sorted[start - 1]) && forall k :: 0 <= k < start - 1 ==> !Names(cursor, sorted[k])
      else start == 0
    decreases |sorted| - i
  {
    if i < |sorted| && !Named(sorted[i], cursor) {
      AfterStarts(sorted, cursor, i + 1);
    }
  }

  /** A stretch of the list from `start`, at most `limit` long, with a cursor naming
      its last node exactly when more follow. */
  ghost predicate Stretch(sorted: seq<Node>, start: nat, limit: nat, p: Page) {
    && p.total == |sorted|
    && |p.items| == (if start >= |sorted| then 0 else if |sorted| - start < limit then |sorted| - start else limit)
    && (forall k :: 0 <= k < |p.items| ==> p.items[k] == sorted[start + k])
    && (if start + limit < |sorted|
        then limit > 0 && p.next == EncodeCursor(p.items[limit - 1].createdAt, p.items[limit - 1].id) else p.next == "")
  }

  lemma CutExactly(sorted: seq<Node>, start: nat, limit: nat)
    requires limit > 0
    ensures Stretch(sorted, start, limit, Cut(sorted, start, limit))
  {}

  /** All nodes, newest first, and a stretch of them from where the cursor or the
      page number says. */
  ghost predicate ServesStretch(nodes: seq<Node>, sorted: seq<Node>, cursor: Cursor, asked: Option<int>, page: nat, start: nat, p: Page) {
    && multiset(sorted) == multiset(nodes) && InOrder(sorted)
    && StartsAt(sorted, cursor, asked, page, start) && Stretch(sorted, start, Limit(asked), p)
  }

  lemma StretchServed(nodes: seq<Node>, cursor: Cursor, asked: Option<int>, page: nat) returns (start: nat)
    ensures var sorted := SortBy(nodes, Before);
      ServesStretch(nodes, sorted, cursor, asked, page, start, AnswerTo(sorted, cursor, asked, page))
  {
    SortedInOrder(nodes);
    start := PageStarts(SortBy(nodes, Before), cursor, asked, page);
    CutExactly(SortBy(nodes, Before), start, Limit(asked));
  }

  lemma PageStarts(sorted: seq<Node>, cursor: Cursor, asked: Option<int>, page: nat) returns (start: nat)
    ensures StartsAt(sorted, cursor, asked, page, start)
    ensures AnswerTo(sorted, cursor, asked, page) == Cut(sorted, start, Limit(asked))
  {
    if cursor.id == [] {
      start := if page > 1 then (page - 1) * Limit(asked) else 0;
    } else {
      start := After(sorted, cursor, 0);
      CursorStarts(sorted, cursor, asked, page);
    }
  }

  lemma CursorStarts(sorted: seq<Node>, cursor: Cursor, asked: Option<int>, page: nat)
    requires cursor.id != []
    ensures StartsAt(sorted, cursor, asked, page, After(sorted, cursor, 0))
  {
    AfterStarts(sorted, cursor, 0);
  }

  /**
    The page in full: refused exactly for a malformed cursor; else a stretch of
    all nodes, newest first, from where the cursor or the page number says, as
    long as the limit allows, with the whole count, and with a cursor naming its
    last node exactly when more follow.
   */
  lemma AnswerExactly(nodes: seq<Node>, cursorText: string, asked: Option<int>, page: nat)
    ensures Answer(nodes, cursorText, asked, page).None? <==> DecodeCursor(cursorText).None?
    ensures Answer(nodes, cursorText, asked, page).Some? ==>
      exists sorted, start ::
        ServesStretch(nodes, sorted, DecodeCursor(cursorText).value, asked, page, start, Answer(nodes, cursorText, asked, page).value)
  {
    if DecodeCursor(cursorText).Some? {
      var start := StretchServed(nodes, DecodeCursor(cursorText).value, asked, page);
    }
  }
}
