/**
  The signed envelope and its manifest: what Core builds in Go, what the Agent
  checks in Python, and why an honest envelope always passes. Cryptography is a
  parameter with the usual laws.
 */
module Envelope {
  import opened Common
  import opened Json
  import opened Sorting
  import opened Utf8
  import Decimal
  import JsonParser

  const PROTOCOL_NAME := "autosecrets-envelope"
  const VERSION: int := 1
  const SUITE := "age-x25519"

  // --- The canonical manifest -------------------------------------------------

  datatype FileSpec = FileSpec(path: string, mode: string, uid: string, gid: string, sha256: string)

  predicate GoByPath(a: FileSpec, b: FileSpec) {
    GoLess(a.path, b.path)
  }

  predicate PyByPath(a: FileSpec, b: FileSpec) {
    CharsLess(a.path, b.path)
  }

  function Entry(f: FileSpec): Json {
    Obj([Field("gid", Str(f.gid)), Field("mode", Str(f.mode)), Field("path", Str(f.path)),
         Field("sha256", Str(f.sha256)), Field("uid", Str(f.uid))])
  }

  function Entries(files: seq<FileSpec>): seq<Json> {
    seq(|files|, i requires 0 <= i < |files| => Entry(files[i]))
  }

  function ManifestFields(entries: seq<Json>): seq<Field> {
    [Field("files", List(entries)), Field("protocol", Str("autosecrets-manifest")), Field("version", Str("1"))]
  }

  function ManifestOf(files: seq<FileSpec>): Json {
    Obj(ManifestFields(Entries(files)))
  }

  /** Core: sort a copy, append an entry per file, marshal. */
  method CanonicalManifestGo(files: seq<FileSpec>) returns (manifest: Bytes)
    ensures manifest == Encode(GoMarshal(ManifestOf(SortBy(files, GoByPath))))
  {
    var sorted := SortBy(files, GoByPath);
    var entries: seq<Json> := [];
    for i := 0 to |sorted|
      invariant entries == Entries(sorted[..i])
    {
      entries := entries + [Entry(sorted[i])];
    }
    assert sorted[..|sorted|] == sorted;
    return Encode(GoMarshal(Obj(ManifestFields(entries))));
  }

  /** Agent: sorted by code point, json.dumps, five replacements. */
  function CanonicalManifestPy(files: seq<FileSpec>): Bytes {
    Encode(CanonicalJson(ManifestOf(SortBy(files, PyByPath))))
  }

  ghost predicate DistinctPaths(files: seq<FileSpec>) {
    forall x, y :: x in files && y in files && x != y ==> x.path != y.path
  }

  lemma PyByPathIsWeakOrder()
    ensures WeakOrder(PyByPath)
  {
    CharsLessIsWeakOrder();
  }

  lemma OrdersAgree(a: FileSpec, b: FileSpec)
    ensures GoByPath(a, b) <==> PyByPath(a, b)
  {
    Utf8Order(a.path, b.path);
  }

  lemma SortedEitherWay(files: seq<FileSpec>)
    ensures Sorted(files, GoByPath) <==> Sorted(files, PyByPath)
  {
    forall a: FileSpec, b: FileSpec ensures GoByPath(a, b) <==> PyByPath(a, b) {
      OrdersAgree(a, b);
    }
  }

  lemma DistinctPathsHaveNoTies(files: seq<FileSpec>)
    requires DistinctPaths(files)
    ensures NoTies(files, PyByPath)
  {
    forall x, y | x in files && y in files && x != y ensures PyByPath(x, y) || PyByPath(y, x) {
      CharsLessTrichotomy(x.path, y.path);
    }
  }

  lemma SameMembers(a: seq<FileSpec>, b: seq<FileSpec>)
    requires multiset(a) == multiset(b)
    ensures forall x :: x in a <==> x in b
  {
    forall x ensures x in a <==> x in b {
      assert x in a <==> x in multiset(a);
      assert x in b <==> x in multiset(b);
    }
  }

  /** Whatever way either side sorts, and whatever order the files come in, both
      build the same manifest bytes when no two files share a path. */
  lemma ManifestsAgree(files: seq<FileSpec>, goSorted: seq<FileSpec>, pySorted: seq<FileSpec>)
    requires DistinctPaths(files)
    requires multiset(goSorted) == multiset(files) && Sorted(goSorted, GoByPath)
    requires multiset(pySorted) == multiset(files) && Sorted(pySorted, PyByPath)
    ensures goSorted == pySorted
    ensures Encode(GoMarshal(ManifestOf(goSorted))) == Encode(CanonicalJson(ManifestOf(pySorted)))
  {
    SortedEitherWay(goSorted);
    SameMembers(goSorted, files);
    DistinctPathsHaveNoTies(goSorted);
    SortedUnique(goSorted, pySorted, PyByPath);
    PrintersAgree(ManifestOf(goSorted));
  }

  lemma GoOrderIsWeakOrder()
    ensures WeakOrder(GoByPath)
  {
    PyByPathIsWeakOrder();
    forall a: FileSpec, b: FileSpec ensures GoByPath(a, b) <==> PyByPath(a, b) {
      OrdersAgree(a, b);
    }
  }

  /** The Agent rebuilds Core's manifest from the same files in any order. */
  lemma AgentRebuildsManifest(files: seq<FileSpec>, received: seq<FileSpec>)
    requires DistinctPaths(files) && multiset(received) == multiset(files)
    ensures CanonicalManifestPy(received) == Encode(GoMarshal(ManifestOf(SortBy(files, GoByPath))))
  {
    GoOrderIsWeakOrder();
    PyByPathIsWeakOrder();
    SortBySorted(files, GoByPath);
    SortBySorted(received, PyByPath);
    ManifestsAgree(files, SortBy(files, GoByPath), SortBy(received, PyByPath));
  }

  lemma ManifestInjective(a: seq<FileSpec>, b: seq<FileSpec>)
    requires GoMarshal(ManifestOf(a)) == GoMarshal(ManifestOf(b))
    ensures a == b
  {
    JsonParser.CanonicalJsonParses(ManifestOf(a));
    JsonParser.CanonicalJsonParses(ManifestOf(b));
    assert ManifestOf(a).fields[0].value.items == Entries(a);
    assert ManifestOf(b).fields[0].value.items == Entries(b);
    assert |Entries(a)| == |a| && |Entries(b)| == |b|;
    forall i | 0 <= i < |a| ensures a[i] == b[i] {
      assert Entries(a)[i] == Entry(a[i]) && Entries(b)[i] == Entry(b[i]);
      EntryInjective(a[i], b[i]);
    }
  }

  lemma EntryInjective(a: FileSpec, b: FileSpec)
    requires Entry(a) == Entry(b)
    ensures a == b
  {
    var x, y := Entry(a).fields, Entry(b).fields;
    assert x[0] == y[0] && x[1] == y[1] && x[2] == y[2] && x[3] == y[3] && x[4] == y[4];
  }

  ghost predicate Arranges(a: seq<FileSpec>, files: seq<FileSpec>) {
    multiset(a) == multiset(files) && Sorted(a, PyByPath)
  }

  ghost predicate OnlyOneManifest(files: seq<FileSpec>) {
    forall a, b :: Arranges(a, files) && Arranges(b, files) ==> GoMarshal(ManifestOf(a)) == GoMarshal(ManifestOf(b))
  }

  lemma DistinctPathsGiveOne(files: seq<FileSpec>, a: seq<FileSpec>, b: seq<FileSpec>)
    requires DistinctPaths(files) && Arranges(a, files) && Arranges(b, files)
    ensures a == b
  {
    SameMembers(a, files);
    DistinctPathsHaveNoTies(a);
    SortedUnique(a, b, PyByPath);
  }

  lemma TiesGiveTwo(files: seq<FileSpec>) returns (a: seq<FileSpec>, b: seq<FileSpec>)
    requires !DistinctPaths(files)
    ensures Arranges(a, files) && Arranges(b, files) && a != b
  {
    var x, y :| x in files && y in files && x != y && x.path == y.path;
    PyByPathIsWeakOrder();
    SortBySorted(files, PyByPath);
    a := SortBy(files, PyByPath);
    SameMembers(a, files);
    var i :| 0 <= i < |a| && a[i] == x;
    var j :| 0 <= j < |a| && a[j] == y;
    SwappedTies(a, i, j);
    b := a[i := y][j := x];
    assert b[j] != a[j];
  }

  /** Exactly then: two different files with one path leave the sorted order,
      and so the bytes, to the sorting algorithm. */
  lemma OneManifestIffDistinctPaths(files: seq<FileSpec>)
    ensures OnlyOneManifest(files) <==> DistinctPaths(files)
  {
    if DistinctPaths(files) {
      forall a, b | Arranges(a, files) && Arranges(b, files) ensures GoMarshal(ManifestOf(a)) == GoMarshal(ManifestOf(b)) {
        DistinctPathsGiveOne(files, a, b);
      }
    } else {
      var a, b := TiesGiveTwo(files);
      if GoMarshal(ManifestOf(a)) == GoMarshal(ManifestOf(b)) {
        ManifestInjective(a, b);
      }
    }
  }

  lemma SwappedTies(a: seq<FileSpec>, i: nat, j: nat)
    requires i < |a| && j < |a| && a[i].path == a[j].path && Sorted(a, PyByPath)
    ensures multiset(a[i := a[j]][j := a[i]]) == multiset(a) && Sorted(a[i := a[j]][j := a[i]], PyByPath)
  {
    var b := a[i := a[j]][j := a[i]];
    forall p, q | 0 <= p < q < |b| ensures !PyByPath(b[q], b[p]) {
      assert b[p].path == a[p].path && b[q].path == a[q].path;
    }
  }

  // --- The signature payload --------------------------------------------------

  datatype Envelope = Envelope(
    protocol: string, version: int, nodeId: string, revisionId: string, createdAt: string, expiresAt: string,
    manifestSha256: string, suite: string, ciphertext: string, signingKeyId: string, signature: string)

  /** The ten signed fields, in the order sorting puts their names. */
  function SignedFields(e: Envelope): seq<Field> {
    [Field("ciphertext", Str(e.ciphertext)), Field("created_at", Str(e.createdAt)),
     Field("expires_at", Str(e.expiresAt)), Field("manifest_sha256", Str(e.manifestSha256)),
     Field("node_id", Str(e.nodeId)), Field("protocol", Str(e.protocol)),
     Field("revision_id", Str(e.revisionId)), Field("signing_key_id", Str(e.signingKeyId)),
     Field("suite", Str(e.suite)), Field("version", Str(Decimal.FormatInt(e.version)))]
  }

  function SignaturePayloadGo(e: Envelope): Bytes {
    Encode(GoMarshal(Obj(SignedFields(e))))
  }

  function SignaturePayloadPy(e: Envelope): Bytes {
    Encode(CanonicalJson(Obj(SignedFields(e))))
  }

  // --- The order of the names -------------------------------------------------

  // A Go map has no order of its own and encoding/json sorts its keys by bytes;
  // json.dumps with sort_keys sorts a dict by code points.

  predicate KeyLess(a: Field, b: Field) {
    CharsLess(a.key, b.key)
  }

  predicate GoKeyLess(a: Field, b: Field) {
    GoLess(a.key, b.key)
  }

  /** `v` is a map of these fields as Go prints it. */
  ghost predicate GoMap(fields: multiset<Field>, v: Json) {
    v.Obj? && multiset(v.fields) == fields && Sorted(v.fields, GoKeyLess)
  }

  /** `v` is a dict of these fields as Python prints it under sort_keys. */
  ghost predicate PyMap(fields: multiset<Field>, v: Json) {
    v.Obj? && multiset(v.fields) == fields && Sorted(v.fields, KeyLess)
  }

  ghost predicate Ascending(fields: seq<Field>) {
    forall k :: 0 < k < |fields| ==> KeyLess(fields[k - 1], fields[k])
  }

  lemma {:induction false} AscendingOrder(fields: seq<Field>, i: nat, j: nat)
    requires Ascending(fields) && i < j < |fields|
    ensures KeyLess(fields[i], fields[j]) && !KeyLess(fields[j], fields[i])
  {
    assert KeyLess(fields[j - 1], fields[j]);
    if i < j - 1 {
      AscendingOrder(fields, i, j - 1);
      CharsLessTransitive(fields[i].key, fields[j - 1].key, fields[j].key);
    } else {
      CharsLessTrichotomy(fields[i].key, fields[j].key);
    }
  }

  lemma CharsLessTransitive(a: string, b: string, c: string)
    requires CharsLess(a, b) && CharsLess(b, c)
    ensures CharsLess(a, c) && !CharsLess(c, a)
  {
    CharsLessTrichotomy(a, b);
    CharsLessTrichotomy(b, c);
    CharsLessTrichotomy(a, c);
    NotLessTransitive(a, b, c);
    assert a != c;
  }

  lemma AscendingIsOnlyOrder(fields: seq<Field>, s: seq<Field>)
    requires Ascending(fields) && multiset(s) == multiset(fields) && Sorted(s, KeyLess)
    ensures s == fields
  {
    forall i, j | 0 <= i < j < |fields| ensures !KeyLess(fields[j], fields[i]) {
      AscendingOrder(fields, i, j);
    }
    forall x, y | x in fields && y in fields && x != y ensures KeyLess(x, y) || KeyLess(y, x) {
      var i :| 0 <= i < |fields| && fields[i] == x;
      var j :| 0 <= j < |fields| && fields[j] == y;
      AscendingOrder(fields, if i < j then i else j, if i < j then j else i);
    }
    SortedUnique(fields, s, KeyLess);
  }

  /** However Go and Python sort, a map of these names comes out as the ascending
      list, and prints as the same text. */
  lemma MapsPrintAlike(fields: seq<Field>, go: Json, py: Json)
    requires Ascending(fields) && GoMap(multiset(fields), go) && PyMap(multiset(fields), py)
    ensures go == Obj(fields) && py == Obj(fields) && GoMarshal(go) == CanonicalJson(py)
  {
    forall i, j | 0 <= i < j < |go.fields| ensures !KeyLess(go.fields[j], go.fields[i]) {
      Utf8Order(go.fields[j].key, go.fields[i].key);
    }
    AscendingIsOnlyOrder(fields, go.fields);
    AscendingIsOnlyOrder(fields, py.fields);
    PrintersAgree(go);
  }

  lemma EntryAscending(f: FileSpec)
    ensures Ascending(Entry(f).fields)
  {
    var s := Entry(f).fields;
    assert KeyLess(s[0], s[1]) && KeyLess(s[1], s[2]) && KeyLess(s[2], s[3]) && KeyLess(s[3], s[4]);
  }

  lemma ManifestAscending(entries: seq<Json>)
    ensures Ascending(ManifestFields(entries))
  {
    var s := ManifestFields(entries);
    assert KeyLess(s[0], s[1]) && KeyLess(s[1], s[2]);
  }

  lemma SignedFieldsAscending(e: Envelope)
    ensures Ascending(SignedFields(e))
  {
    var s := SignedFields(e);
    assert KeyLess(s[0], s[1]) && KeyLess(s[1], s[2]) && KeyLess(s[2], s[3]) && KeyLess(s[3], s[4]);
    assert KeyLess(s[4], s[5]) && KeyLess(s[5], s[6]) && KeyLess(s[6], s[7]);
    assert KeyLess(s[7], s[8]) by {
      assert s[7].key[0] == s[8].key[0] && s[7].key[1..][0] < s[8].key[1..][0];
    }
    assert KeyLess(s[8], s[9]);
  }

  /** The signed document: the map of the ten fields, whichever way it is sorted. */
  lemma SignedDocument(e: Envelope, go: Json, py: Json)
    requires GoMap(multiset(SignedFields(e)), go) && PyMap(multiset(SignedFields(e)), py)
    ensures Encode(GoMarshal(go)) == SignaturePayloadGo(e) && Encode(CanonicalJson(py)) == SignaturePayloadPy(e)
    ensures SignaturePayloadGo(e) == SignaturePayloadPy(e)
  {
    SignedFieldsAscending(e);
    MapsPrintAlike(SignedFields(e), go, py);
  }

  /** The manifest document: maps within a map, each sorted either way. */
  lemma ManifestDocument(files: seq<FileSpec>, goEntries: seq<Json>, pyEntries: seq<Json>, go: Json, py: Json)
    requires |goEntries| == |files| == |pyEntries|
    requires forall i :: 0 <= i < |files| ==>
      GoMap(multiset(Entry(files[i]).fields), goEntries[i]) && PyMap(multiset(Entry(files[i]).fields), pyEntries[i])
    requires GoMap(multiset(ManifestFields(goEntries)), go)
    requires PyMap(multiset(ManifestFields(pyEntries)), py)
    ensures go == ManifestOf(files) && py == ManifestOf(files) && GoMarshal(go) == CanonicalJson(py)
  {
    forall i | 0 <= i < |files| ensures goEntries[i] == Entry(files[i]) && pyEntries[i] == Entry(files[i]) {
      EntryAscending(files[i]);
      MapsPrintAlike(Entry(files[i]).fields, goEntries[i], pyEntries[i]);
    }
    assert goEntries == Entries(files) && pyEntries == Entries(files);
    ManifestAscending(Entries(files));
    MapsPrintAlike(ManifestFields(Entries(files)), go, py);
  }

  /** Two envelopes with the same signature payload agree on all ten signed fields. */
  lemma SignaturePayloadInjective(a: Envelope, b: Envelope)
    requires SignaturePayloadGo(a) == SignaturePayloadPy(b)
    ensures a == b.(signature := a.signature)
  {
    var x, y := SignedFields(a), SignedFields(b);
    EncodeInjective(GoMarshal(Obj(x)), CanonicalJson(Obj(y)));
    JsonParser.CanonicalJsonParses(Obj(x));
    JsonParser.CanonicalJsonParses(Obj(y));
    assert x == y;
    assert x[0] == y[0] && x[1] == y[1] && x[2] == y[2] && x[3] == y[3] && x[4] == y[4];
    assert x[5] == y[5] && x[6] == y[6] && x[7] == y[7] && x[8] == y[8] && x[9] == y[9];
    Decimal.FormatIntInjective(a.version, b.version);
  }
}
