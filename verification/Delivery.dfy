/**
  Core's delivery of a revision to a node and the Agent's acceptance of it:
  the desired-state tag, the envelope Core builds, and what the Agent does with
  it before anything is written to disk.
 */
module Delivery {
  import opened Common
  import opened Envelope
  import opened Json
  import opened Sorting
  import Base64
  import JsonParser
  import Strings
  import Utf8

  // --- The desired-state tag --------------------------------------------------

  /** The quoted digest of the sorted ids joined by commas. */
  function EtagOf(ids: seq<string>, sha256: Bytes -> string): string {
    "\"" + sha256(Utf8.Encode(Strings.Join(SortBy(ids, Utf8.GoLess), ','))) + "\""
  }

  ghost predicate IsId(s: string) {
    s != "" && forall k :: 0 <= k < |s| ==> s[k] != ','
  }

  ghost predicate AreIds(ids: seq<string>) {
    forall k :: 0 <= k < |ids| ==> IsId(ids[k])
  }

  ghost predicate Injective(sha256: Bytes -> string) {
    forall a, b :: sha256(a) == sha256(b) ==> a == b
  }

  lemma GoLessIsWeakOrder()
    ensures WeakOrder(Utf8.GoLess)
  {
    Utf8.CharsLessIsWeakOrder();
    forall a: string, b: string ensures Utf8.GoLess(a, b) <==> Utf8.CharsLess(a, b) {
      Utf8.Utf8Order(a, b);
    }
  }

  lemma GoLessHasNoTies(ids: seq<string>)
    ensures NoTies(ids, Utf8.GoLess)
  {
    forall a, b | a in ids && b in ids && a != b ensures Utf8.GoLess(a, b) || Utf8.GoLess(b, a) {
      Utf8.CharsLessTrichotomy(a, b);
      Utf8.Utf8Order(a, b);
      Utf8.Utf8Order(b, a);
    }
  }

  lemma SortedIds(ids: seq<string>)
    requires AreIds(ids)
    ensures AreIds(SortBy(ids, Utf8.GoLess))
  {
    var sorted := SortBy(ids, Utf8.GoLess);
    forall k | 0 <= k < |sorted| ensures IsId(sorted[k]) {
      assert sorted[k] in multiset(sorted);
      assert sorted[k] in ids;
    }
  }

  lemma JoinInjective(a: seq<string>, b: seq<string>)
    requires AreIds(a) && AreIds(b) && Strings.Join(a, ',') == Strings.Join(b, ',')
    ensures a == b
  {
    if a != [] { Strings.SplitJoin(a, ','); }
    if b != [] { Strings.SplitJoin(b, ','); }
    JoinOfIds(a);
    JoinOfIds(b);
  }

  lemma JoinOfIds(ids: seq<string>)
    requires AreIds(ids)
    ensures Strings.Join(ids, ',') == "" <==> ids == []
  {}

  /** Two desired states have one tag exactly when they list the same ids. */
  lemma EtagFaithful(a: seq<string>, b: seq<string>, sha256: Bytes -> string)
    requires Injective(sha256) && AreIds(a) && AreIds(b)
    ensures EtagOf(a, sha256) == EtagOf(b, sha256) <==> multiset(a) == multiset(b)
  {
    var x, y := SortBy(a, Utf8.GoLess), SortBy(b, Utf8.GoLess);
    GoLessIsWeakOrder();
    SortBySorted(a, Utf8.GoLess);
    SortBySorted(b, Utf8.GoLess);
    if multiset(a) == multiset(b) {
      GoLessHasNoTies(x);
      SortedUnique(x, y, Utf8.GoLess);
    }
    if EtagOf(a, sha256) == EtagOf(b, sha256) {
      var p, q := Strings.Join(x, ','), Strings.Join(y, ',');
      assert EtagOf(a, sha256)[1..|EtagOf(a, sha256)| - 1] == sha256(Utf8.Encode(p));
      assert EtagOf(b, sha256)[1..|EtagOf(b, sha256)| - 1] == sha256(Utf8.Encode(q));
      Utf8.EncodeInjective(p, q);
      SortedIds(a);
      SortedIds(b);
      JoinInjective(x, y);
    }
  }

  lemma {:induction false} CountIn(s: seq<string>, x: string)
    ensures multiset(s)[x] > 0 <==> x in s
  {}

  /** A tag answered with "not modified" means the same revisions and the same
      open cleanups as when it was saved: ids of the two kinds never coincide. */
  lemma NotModifiedMeansUnchanged(
    revisions1: seq<string>, cleanups1: seq<string>, revisions2: seq<string>, cleanups2: seq<string>,
    assignments: set<string>, sha256: Bytes -> string)
    requires Injective(sha256) && AreIds(revisions1 + cleanups1) && AreIds(revisions2 + cleanups2)
    requires forall k :: 0 <= k < |cleanups1| ==> cleanups1[k] in assignments
    requires forall k :: 0 <= k < |cleanups2| ==> cleanups2[k] in assignments
    requires forall k :: 0 <= k < |revisions1| ==> revisions1[k] !in assignments
    requires forall k :: 0 <= k < |revisions2| ==> revisions2[k] !in assignments
    requires EtagOf(revisions1 + cleanups1, sha256) == EtagOf(revisions2 + cleanups2, sha256)
    ensures multiset(revisions1) == multiset(revisions2) && multiset(cleanups1) == multiset(cleanups2)
  {
    EtagFaithful(revisions1 + cleanups1, revisions2 + cleanups2, sha256);
    forall x ensures multiset(revisions1)[x] == multiset(revisions2)[x] && multiset(cleanups1)[x] == multiset(cleanups2)[x] {
      assert multiset(revisions1 + cleanups1)[x] == multiset(revisions1)[x] + multiset(cleanups1)[x];
      assert multiset(revisions2 + cleanups2)[x] == multiset(revisions2)[x] + multiset(cleanups2)[x];
      CountIn(revisions1, x);
      CountIn(revisions2, x);
      CountIn(cleanups1, x);
      CountIn(cleanups2, x);
    }
  }

  // --- Core builds an envelope ------------------------------------------------

  /** Cryptography and the clock's text form; `random` is what age draws. */
  datatype Toolkit = Toolkit(
    sha256: Bytes -> string,
    encrypt: (Bytes, Bytes, Bytes) -> Bytes, decrypt: (Bytes, Bytes) -> Option<Bytes>,
    sign: (Bytes, Bytes) -> Bytes, verify: (Bytes, Bytes, Bytes) -> bool,
    formatTime: int -> string, parseTime: string -> Option<int>)

  datatype Keys = Keys(recipient: Bytes, identity: Bytes, signer: Bytes, public: Bytes, keyId: string)

  /** Decrypting what was encrypted, parsing what was formatted. */
  ghost predicate Opens(t: Toolkit, k: Keys) {
    && (forall random, plain :: t.decrypt(k.identity, t.encrypt(k.recipient, random, plain)) == Some(plain))
    && (forall at :: t.formatTime(at) != "" && t.parseTime(t.formatTime(at)) == Some(at))
  }

  /** And verifying what was signed. */
  ghost predicate Lawful(t: Toolkit, k: Keys) {
    Opens(t, k) && forall message :: t.verify(k.public, message, t.sign(k.signer, message))
  }

  /** A row of the revision with its numbers printed and its value unsealed. */
  datatype Row = Row(path: string, mode: string, uid: string, gid: string, plain: Bytes)

  function SpecOf(r: Row, t: Toolkit): FileSpec {
    FileSpec(r.path, r.mode, r.uid, r.gid, t.sha256(r.plain))
  }

  function PayloadEntry(r: Row): Json {
    Obj([Field("path", Str(r.path)), Field("mode", Str(r.mode)), Field("uid", Str(r.uid)), Field("gid", Str(r.gid)),
         Field("content", Str(Base64.Encode(Base64.Std, r.plain)))])
  }

  function SpecsOf(rows: seq<Row>, t: Toolkit): seq<FileSpec> {
    if rows == [] then [] else [SpecOf(rows[0], t)] + SpecsOf(rows[1..], t)
  }

  function PayloadEntries(rows: seq<Row>): seq<Json> {
    if rows == [] then [] else [PayloadEntry(rows[0])] + PayloadEntries(rows[1..])
  }

  function Payload(appId: string, envId: string, rows: seq<Row>): Json {
    Obj([Field("app_id", Str(appId)), Field("env_id", Str(envId)), Field("files", List(PayloadEntries(rows)))])
  }

  lemma {:induction false} SpecsAppend(rows: seq<Row>, r: Row, t: Toolkit)
    ensures SpecsOf(rows + [r], t) == SpecsOf(rows, t) + [SpecOf(r, t)]
    ensures PayloadEntries(rows + [r]) == PayloadEntries(rows) + [PayloadEntry(r)]
  {
    if rows == [] {
      assert [] + [r] == [r];
    } else {
      assert (rows + [r])[1..] == rows[1..] + [r];
      SpecsAppend(rows[1..], r, t);
    }
  }

  function Unsigned(nodeId: string, revisionId: string, created: int, expires: int, manifest: Bytes, ciphertext: Bytes,
                    t: Toolkit, k: Keys): Envelope
  {
    Envelope(PROTOCOL_NAME, VERSION, nodeId, revisionId, t.formatTime(created), t.formatTime(expires),
                      t.sha256(manifest), SUITE, Base64.Encode(Base64.Std, ciphertext), k.keyId, "")
  }

  function Built(nodeId: string, revisionId: string, appId: string, envId: string, rows: seq<Row>,
                 created: int, expires: int, random: Bytes, t: Toolkit, k: Keys): Envelope
  {
    var manifest := Utf8.Encode(GoMarshal(ManifestOf(SortBy(SpecsOf(rows, t), GoByPath))));
    var plaintext := Utf8.Encode(GoMarshal(Payload(appId, envId, rows)));
    var e := Unsigned(nodeId, revisionId, created, expires, manifest, t.encrypt(k.recipient, random, plaintext), t, k);
    e.(signature := Base64.Encode(Base64.Std, t.sign(k.signer, SignaturePayloadGo(e))))
  }

  /** The row loop of buildEnvelope, then the envelope around its two documents. */
  method BuildEnvelope(nodeId: string, revisionId: string, appId: string, envId: string, rows: seq<Row>,
                       created: int, expires: int, random: Bytes, t: Toolkit, k: Keys)
    returns (e: Envelope)
    ensures e == Built(nodeId, revisionId, appId, envId, rows, created, expires, random, t, k)
  {
    var specs: seq<FileSpec> := [];
    var entries: seq<Json> := [];
    for i := 0 to |rows|
      invariant specs == SpecsOf(rows[..i], t) && entries == PayloadEntries(rows[..i])
    {
      specs := specs + [SpecOf(rows[i], t)];
      entries := entries + [PayloadEntry(rows[i])];
      SpecsAppend(rows[..i], rows[i], t);
      assert rows[..i + 1] == rows[..i] + [rows[i]];
    }
    assert rows[..|rows|] == rows;
    var manifest := CanonicalManifestGo(specs);
    var payload := Obj([Field("app_id", Str(appId)), Field("env_id", Str(envId)), Field("files", List(entries))]);
    var ciphertext := t.encrypt(k.recipient, random, Utf8.Encode(GoMarshal(payload)));
    e := Unsigned(nodeId, revisionId, created, expires, manifest, ciphertext, t, k);
    e := e.(signature := Base64.Encode(Base64.Std, t.sign(k.signer, SignaturePayloadGo(e))));
  }

  // --- The Agent accepts it ---------------------------------------------------

  datatype EnvelopeError =
    | UnsupportedProtocol | UnsupportedVersion | UnsupportedSuite | BadTime | Expired
    | BadSignature | BadCiphertext | BadPayload | BadManifest

  datatype ReceivedFile = ReceivedFile(path: string, mode: string, uid: string, gid: string, sha256: string, content: Bytes)

  datatype Received = Received(appId: string, envId: string, files: seq<ReceivedFile>)

  /** verify: None when everything holds, else the first error. */
  function Verified(e: Envelope, now: int, public: Bytes, t: Toolkit): Option<EnvelopeError> {
    if e.protocol != PROTOCOL_NAME then Some(UnsupportedProtocol)
    else if e.version != VERSION then Some(UnsupportedVersion)
    else if e.suite != SUITE then Some(UnsupportedSuite)
    else if e.expiresAt != "" && t.parseTime(e.expiresAt).None? then Some(BadTime)
    else if e.expiresAt != "" && now > t.parseTime(e.expiresAt).value then Some(Expired)
    else
      match Base64.Decode(Base64.Std, e.signature)
      case None => Some(BadSignature)
      case Some(signature) =>
        if t.verify(public, SignaturePayloadPy(e), signature) then None else Some(BadSignature)
  }

  function Get(fields: seq<Field>, key: string): Option<string> {
    if fields == [] then None
    else if fields[0].key == key && fields[0].value.Str? then Some(fields[0].value.text)
    else Get(fields[1..], key)
  }

  function GetOr(fields: seq<Field>, key: string, fallback: string): string {
    match Get(fields, key) case Some(text) => text case None => fallback
  }

  function ParseFile(v: Json, t: Toolkit): Option<ReceivedFile> {
    if !v.Obj? then None
    else
      var path, content := Get(v.fields, "path"), Get(v.fields, "content");
      if path.None? || content.None? then None
      else
        match Base64.Decode(Base64.Std, content.value)
        case None => None
        case Some(bytes) =>
          Some(ReceivedFile(path.value, GetOr(v.fields, "mode", "0400"), GetOr(v.fields, "uid", "0"),
                           GetOr(v.fields, "gid", "0"), t.sha256(bytes), bytes))
  }

  function ParseFiles(items: seq<Json>, t: Toolkit): Option<seq<ReceivedFile>> {
    if items == [] then Some([])
    else
      match ParseFile(items[0], t)
      case None => None
      case Some(file) =>
        match ParseFiles(items[1..], t)
        case None => None
        case Some(files) => Some([file] + files)
  }

  function GetList(fields: seq<Field>, key: string): Option<seq<Json>> {
    if fields == [] then None
    else if fields[0].key == key && fields[0].value.List? then Some(fields[0].value.items)
    else GetList(fields[1..], key)
  }

  ghost function ParsePayload(plaintext: Bytes, t: Toolkit): Option<Received> {
    var text := Utf8.Decode(plaintext);
    if text.None? then None
    else
      var v := JsonParser.Parse(text.value);
      if v.None? || !v.value.Obj? then None
      else
        var fields := v.value.fields;
        var appId, envId, items := Get(fields, "app_id"), Get(fields, "env_id"), GetList(fields, "files");
        if appId.None? || envId.None? || items.None? then None
        else
          match ParseFiles(items.value, t)
          case None => None
          case Some(files) => Some(Received(appId.value, envId.value, files))
  }

  function Specs(files: seq<ReceivedFile>): seq<FileSpec> {
    if files == [] then []
    else
      var f := files[0];
      [FileSpec(f.path, f.mode, f.uid, f.gid, f.sha256)] + Specs(files[1..])
  }

  /** Everything _activate_envelope does before it touches the disk. */
  ghost function Accepted(e: Envelope, now: int, identity: Bytes, public: Bytes, t: Toolkit)
    : Result<Received, EnvelopeError>
  {
    var error := Verified(e, now, public, t);
    if error.Some? then Err(error.value)
    else
      match Base64.Decode(Base64.Std, e.ciphertext)
      case None => Err(BadCiphertext)
      case Some(ciphertext) =>
        match t.decrypt(identity, ciphertext)
        case None => Err(BadCiphertext)
        case Some(plaintext) =>
          match ParsePayload(plaintext, t)
          case None => Err(BadPayload)
          case Some(received) =>
            if t.sha256(CanonicalManifestPy(Specs(received.files))) == e.manifestSha256
            then Ok(received) else Err(BadManifest)
  }

  // --- Honest envelopes pass --------------------------------------------------

  function FileOf(r: Row, t: Toolkit): ReceivedFile {
    ReceivedFile(r.path, r.mode, r.uid, r.gid, t.sha256(r.plain), r.plain)
  }

  function FilesOf(rows: seq<Row>, t: Toolkit): seq<ReceivedFile> {
    if rows == [] then [] else [FileOf(rows[0], t)] + FilesOf(rows[1..], t)
  }

  lemma ParseFileReads(r: Row, t: Toolkit)
    ensures ParseFile(PayloadEntry(r), t) == Some(FileOf(r, t))
  {
    var f := PayloadEntry(r).fields;
    Base64.DecodeEncode(Base64.Std, r.plain);
    assert f[1..][0] == f[1] && f[1..][1..] == f[2..] && f[2..][1..] == f[3..] && f[3..][1..] == f[4..];
    assert Get(f, "path") == Some(r.path);
    assert Get(f[1..], "mode") == Some(r.mode);
    assert Get(f[2..], "uid") == Some(r.uid) && Get(f[1..], "uid") == Get(f[2..], "uid");
    assert Get(f[3..], "gid") == Some(r.gid);
    assert Get(f[2..], "gid") == Get(f[3..], "gid") && Get(f[1..], "gid") == Get(f[2..], "gid");
    assert Get(f[4..], "content") == Some(Base64.Encode(Base64.Std, r.plain));
    assert Get(f[3..], "content") == Get(f[4..], "content") && Get(f[2..], "content") == Get(f[3..], "content");
    assert Get(f[1..], "content") == Get(f[2..], "content");
  }

  lemma {:induction false} ParseFilesReads(rows: seq<Row>, t: Toolkit)
    ensures ParseFiles(PayloadEntries(rows), t) == Some(FilesOf(rows, t))
    ensures Specs(FilesOf(rows, t)) == SpecsOf(rows, t)
  {
    if rows != [] {
      ParseFileReads(rows[0], t);
      ParseFilesReads(rows[1..], t);
    }
  }

  lemma ParsePayloadReads(appId: string, envId: string, rows: seq<Row>, t: Toolkit)
    ensures ParsePayload(Utf8.Encode(GoMarshal(Payload(appId, envId, rows))), t) ==
      Some(Received(appId, envId, FilesOf(rows, t)))
  {
    var v := Payload(appId, envId, rows);
    Utf8.DecodeEncode(GoMarshal(v));
    JsonParser.CanonicalJsonParses(v);
    ParseFilesReads(rows, t);
    PayloadLookups(appId, envId, rows);
  }

  lemma PayloadLookups(appId: string, envId: string, rows: seq<Row>)
    ensures var f := Payload(appId, envId, rows).fields;
      Get(f, "app_id") == Some(appId) && Get(f, "env_id") == Some(envId) && GetList(f, "files") == Some(PayloadEntries(rows))
  {
    var f := Payload(appId, envId, rows).fields;
    assert f[1..][0] == f[1] && Get(f[1..], "env_id") == Some(envId);
    assert f[1..][1..] == f[2..] && GetList(f[2..], "files") == Some(PayloadEntries(rows));
    assert GetList(f[1..], "files") == GetList(f[2..], "files");
  }

  lemma HonestSignatureVerifies(e: Envelope, t: Toolkit, k: Keys, now: int, expires: int)
    requires Lawful(t, k) && now <= expires
    requires e.protocol == PROTOCOL_NAME && e.version == VERSION && e.suite == SUITE && e.expiresAt == t.formatTime(expires)
    requires e.signature == Base64.Encode(Base64.Std, t.sign(k.signer, SignaturePayloadGo(e.(signature := ""))))
    ensures Verified(e, now, k.public, t) == None
  {
    Base64.DecodeEncode(Base64.Std, t.sign(k.signer, SignaturePayloadGo(e.(signature := ""))));
    assert SignedFields(e) == SignedFields(e.(signature := ""));
    PrintersAgree(Obj(SignedFields(e)));
  }

  /** An honest envelope of files with distinct paths is accepted until it
      expires, and the Agent recovers exactly Core's rows, in Core's order. */
  lemma HonestEnvelopeAccepted(
    nodeId: string, revisionId: string, appId: string, envId: string, rows: seq<Row>,
    created: int, expires: int, random: Bytes, t: Toolkit, k: Keys, now: int)
    requires Lawful(t, k) && DistinctPaths(SpecsOf(rows, t)) && now <= expires
    ensures Accepted(Built(nodeId, revisionId, appId, envId, rows, created, expires, random, t, k),
                     now, k.identity, k.public, t)
         == Ok(Received(appId, envId, FilesOf(rows, t)))
  {
    var e := Built(nodeId, revisionId, appId, envId, rows, created, expires, random, t, k);
    var plaintext := Utf8.Encode(GoMarshal(Payload(appId, envId, rows)));
    HonestSignatureVerifies(e, t, k, now, expires);
    Base64.DecodeEncode(Base64.Std, t.encrypt(k.recipient, random, plaintext));
    ParsePayloadReads(appId, envId, rows, t);
    ParseFilesReads(rows, t);
    AgentRebuildsManifest(SpecsOf(rows, t), SpecsOf(rows, t));
  }

  /** Whatever the Agent accepts of Core's envelopes is the rows Core put in. */
  lemma AcceptedIsSent(
    nodeId: string, revisionId: string, appId: string, envId: string, rows: seq<Row>,
    created: int, expires: int, random: Bytes, t: Toolkit, k: Keys, now: int)
    requires Lawful(t, k)
    ensures var a := Accepted(Built(nodeId, revisionId, appId, envId, rows, created, expires, random, t, k),
                              now, k.identity, k.public, t);
      a.Ok? ==> a.value == Received(appId, envId, FilesOf(rows, t))
  {
    var plaintext := Utf8.Encode(GoMarshal(Payload(appId, envId, rows)));
    var ciphertext := t.encrypt(k.recipient, random, plaintext);
    Base64.DecodeEncode(Base64.Std, ciphertext);
    ParsePayloadReads(appId, envId, rows, t);
    var e := Built(nodeId, revisionId, appId, envId, rows, created, expires, random, t, k);
    AcceptedIsParsed(e, now, k.identity, k.public, t, ciphertext, plaintext);
  }

  lemma AcceptedIsParsed(e: Envelope, now: int, identity: Bytes, public: Bytes, t: Toolkit, ciphertext: Bytes, plaintext: Bytes)
    requires Base64.Decode(Base64.Std, e.ciphertext) == Some(ciphertext) && t.decrypt(identity, ciphertext) == Some(plaintext)
    ensures var a := Accepted(e, now, identity, public, t);
      a.Ok? ==> ParsePayload(plaintext, t) == Some(a.value)
  {}

  lemma AcceptedManifest(e: Envelope, now: int, identity: Bytes, public: Bytes, t: Toolkit)
    ensures var a := Accepted(e, now, identity, public, t);
      a.Ok? ==> t.sha256(CanonicalManifestPy(Specs(a.value.files))) == e.manifestSha256
  {}

  lemma ManifestBytesFixSpecs(a: seq<FileSpec>, b: seq<FileSpec>)
    requires CanonicalManifestPy(a) == CanonicalManifestPy(b)
    ensures multiset(a) == multiset(b)
  {
    var x, y := SortBy(a, PyByPath), SortBy(b, PyByPath);
    Utf8.EncodeInjective(CanonicalJson(ManifestOf(x)), CanonicalJson(ManifestOf(y)));
    PrintersAgree(ManifestOf(x));
    PrintersAgree(ManifestOf(y));
    ManifestInjective(x, y);
  }

  /** The digest of each received file is that of its content. */
  ghost predicate Digested(files: seq<ReceivedFile>, t: Toolkit) {
    forall i :: 0 <= i < |files| ==> files[i].sha256 == t.sha256(files[i].content)
  }

  lemma {:induction false} ParsedDigested(items: seq<Json>, t: Toolkit)
    ensures ParseFiles(items, t).Some? ==> Digested(ParseFiles(items, t).value, t)
  {
    if items != [] {
      ParsedDigested(items[1..], t);
    }
  }

  lemma AcceptedDigested(e: Envelope, now: int, identity: Bytes, public: Bytes, t: Toolkit)
    ensures var a := Accepted(e, now, identity, public, t);
      a.Ok? ==> Digested(a.value.files, t)
  {
    var a := Accepted(e, now, identity, public, t);
    if a.Ok? {
      var ciphertext := Base64.Decode(Base64.Std, e.ciphertext).value;
      var v := JsonParser.Parse(Utf8.Decode(t.decrypt(identity, ciphertext).value).value).value;
      ParsedDigested(GetList(v.fields, "files").value, t);
    }
  }

  function SpecOfFile(f: ReceivedFile): FileSpec {
    FileSpec(f.path, f.mode, f.uid, f.gid, f.sha256)
  }

  /** A digested file is received as often as its specification. */
  lemma {:induction false} CountSpecs(files: seq<ReceivedFile>, f: ReceivedFile, t: Toolkit)
    requires Injective(t.sha256) && Digested(files, t) && f.sha256 == t.sha256(f.content)
    ensures multiset(files)[f] == multiset(Specs(files))[SpecOfFile(f)]
  {
    if files != [] {
      var head, rest := files[0], files[1..];
      CountSpecs(rest, f, t);
      assert files == [head] + rest;
      assert SpecOfFile(head) == SpecOfFile(f) ==> head == f;
      assert multiset(files) == multiset{head} + multiset(rest);
      assert multiset(Specs(files)) == multiset{SpecOfFile(head)} + multiset(Specs(rest));
    }
  }

  /** With an injective digest the specifications determine the files. */
  lemma {:induction false} SpecsFixFiles(a: seq<ReceivedFile>, b: seq<ReceivedFile>, t: Toolkit)
    requires Injective(t.sha256) && Digested(a, t) && Digested(b, t) && multiset(Specs(a)) == multiset(Specs(b))
    ensures multiset(a) == multiset(b)
  {
    forall f ensures multiset(a)[f] == multiset(b)[f] {
      if f.sha256 == t.sha256(f.content) {
        CountSpecs(a, f, t);
        CountSpecs(b, f, t);
      } else {
        assert f !in a && f !in b;
      }
    }
  }

  /** What two accepted envelopes with one signed manifest hash make the Agent
      write is the same, file by file and byte by byte. */
  lemma ManifestHashFixesFiles(e1: Envelope, e2: Envelope, now: int, identity: Bytes, public: Bytes, t: Toolkit)
    requires Injective(t.sha256) && e1.manifestSha256 == e2.manifestSha256
    ensures var a, b := Accepted(e1, now, identity, public, t), Accepted(e2, now, identity, public, t);
      a.Ok? && b.Ok? ==> multiset(a.value.files) == multiset(b.value.files)
  {
    var a, b := Accepted(e1, now, identity, public, t), Accepted(e2, now, identity, public, t);
    AcceptedManifest(e1, now, identity, public, t);
    AcceptedManifest(e2, now, identity, public, t);
    AcceptedDigested(e1, now, identity, public, t);
    AcceptedDigested(e2, now, identity, public, t);
    if a.Ok? && b.Ok? {
      ManifestBytesFixSpecs(Specs(a.value.files), Specs(b.value.files));
      SpecsFixFiles(a.value.files, b.value.files, t);
    }
  }
}
