/**
  What the Agent accepts: exactly the current envelopes that carry a signature
  over their own ten fields, and, where only Core can sign, nothing but what
  Core built.
 */
module Trust {
  import opened Common
  import opened Envelope
  import opened Json
  import opened Delivery
  import Base64
  import Utf8

  ghost predicate MetaRight(e: Envelope) {
    e.protocol == "autosecrets-envelope" && e.version == 1 && e.suite == "age-x25519"
  }

  /** An envelope without an expiry never expires; any other must state a time
      not before now. */
  ghost predicate Current(e: Envelope, now: int, t: Toolkit) {
    e.expiresAt == "" || (t.parseTime(e.expiresAt).Some? && now <= t.parseTime(e.expiresAt).value)
  }

  /** The signature decodes and verifies over Core's text of the ten fields. */
  ghost predicate SignatureHolds(e: Envelope, public: Bytes, t: Toolkit) {
    var signature := Base64.Decode(Base64.Std, e.signature);
    signature.Some? && t.verify(public, Utf8.Encode(GoMarshal(Obj(SignedFields(e)))), signature.value)
  }

  lemma VerifiedExactlyWhen(e: Envelope, now: int, public: Bytes, t: Toolkit)
    ensures Verified(e, now, public, t) == None <==> MetaRight(e) && Current(e, now, t) && SignatureHolds(e, public, t)
    ensures Verified(e, now, public, t) == Some(BadSignature) <==>
      MetaRight(e) && Current(e, now, t) && !SignatureHolds(e, public, t)
  {
    PrintersAgree(Obj(SignedFields(e)));
  }

  /** Which error the other refusals are. */
  lemma RefusedBefore(e: Envelope, now: int, public: Bytes, t: Toolkit)
    ensures e.protocol != "autosecrets-envelope" ==> Verified(e, now, public, t) == Some(UnsupportedProtocol)
    ensures e.protocol == "autosecrets-envelope" && e.version != 1 ==> Verified(e, now, public, t) == Some(UnsupportedVersion)
    ensures e.protocol == "autosecrets-envelope" && e.version == 1 && e.suite != "age-x25519" ==>
      Verified(e, now, public, t) == Some(UnsupportedSuite)
    ensures MetaRight(e) && !Current(e, now, t) ==>
      Verified(e, now, public, t) == Some(if t.parseTime(e.expiresAt).None? then BadTime else Expired)
  {}

  /** What decrypting and parsing the ciphertext gives. */
  ghost function PlainReceived(e: Envelope, identity: Bytes, t: Toolkit): Option<Received> {
    match Base64.Decode(Base64.Std, e.ciphertext)
    case None => None
    case Some(ciphertext) =>
      match t.decrypt(identity, ciphertext)
      case None => None
      case Some(plaintext) => ParsePayload(plaintext, t)
  }

  /** Accepted exactly when all of it holds, and then with what was decrypted. */
  lemma AcceptedExactlyWhen(e: Envelope, now: int, identity: Bytes, public: Bytes, t: Toolkit)
    ensures var a, plain := Accepted(e, now, identity, public, t), PlainReceived(e, identity, t);
      && (a.Ok? <==>
            && MetaRight(e) && Current(e, now, t) && SignatureHolds(e, public, t)
            && plain.Some? && t.sha256(CanonicalManifestPy(Specs(plain.value.files))) == e.manifestSha256)
      && (a.Ok? ==> plain == Some(a.value))
  {
    VerifiedExactlyWhen(e, now, public, t);
  }

  // --- Only Core signs --------------------------------------------------------------

  /** One envelope Core built. */
  datatype Sending = Sending(
    nodeId: string, revisionId: string, appId: string, envId: string, rows: seq<Row>, created: int, expires: int, random: Bytes)

  function EnvelopeOf(s: Sending, t: Toolkit, k: Keys): Envelope {
    Built(s.nodeId, s.revisionId, s.appId, s.envId, s.rows, s.created, s.expires, s.random, t, k)
  }

  /** Nothing verifies but a payload Core signed. (So not every message can be
      signed by someone: only `Opens` is asked of the toolkit here.) */
  ghost predicate OnlyCoreSigns(sent: iset<Sending>, t: Toolkit, k: Keys) {
    forall message, signature :: t.verify(k.public, message, signature) ==> SignedBy(sent, message, t, k)
  }

  ghost predicate SignedBy(sent: iset<Sending>, message: Bytes, t: Toolkit, k: Keys) {
    exists s :: s in sent && message == SignaturePayloadGo(EnvelopeOf(s, t, k))
  }

  /**
    Where only Core signs, every accepted envelope agrees with one Core built on
    all ten signed fields, that one has not expired, and what the Agent gets of
    it is that envelope's rows, in Core's order.
   */
  lemma AcceptedIsCores(sent: iset<Sending>, e: Envelope, now: int, t: Toolkit, k: Keys) returns (s: Sending)
    requires Opens(t, k) && OnlyCoreSigns(sent, t, k) && Accepted(e, now, k.identity, k.public, t).Ok?
    ensures s in sent && now <= s.expires
    ensures e == EnvelopeOf(s, t, k).(signature := e.signature)
    ensures Accepted(e, now, k.identity, k.public, t).value == Received(s.appId, s.envId, FilesOf(s.rows, t))
  {
    AcceptedExactlyWhen(e, now, k.identity, k.public, t);
    var signature := Base64.Decode(Base64.Std, e.signature).value;
    var message := Utf8.Encode(GoMarshal(Obj(SignedFields(e))));
    assert SignedBy(sent, message, t, k);
    s :| s in sent && message == SignaturePayloadGo(EnvelopeOf(s, t, k));
    SameFields(EnvelopeOf(s, t, k), e);
    SentPlain(s, e, t, k);
    assert e.expiresAt == t.formatTime(s.expires);
  }

  lemma SameFields(a: Envelope, b: Envelope)
    requires SignaturePayloadGo(a) == Utf8.Encode(GoMarshal(Obj(SignedFields(b))))
    ensures b == a.(signature := b.signature)
  {
    PrintersAgree(Obj(SignedFields(b)));
    SignaturePayloadInjective(a, b);
  }

  /** The ciphertext is among the signed fields, so it decrypts to the rows. */
  lemma SentPlain(s: Sending, e: Envelope, t: Toolkit, k: Keys)
    requires Opens(t, k) && e.ciphertext == EnvelopeOf(s, t, k).ciphertext
    ensures PlainReceived(e, k.identity, t) == Some(Received(s.appId, s.envId, FilesOf(s.rows, t)))
  {
    var plaintext := Utf8.Encode(GoMarshal(Payload(s.appId, s.envId, s.rows)));
    Base64.DecodeEncode(Base64.Std, t.encrypt(k.recipient, s.random, plaintext));
    ParsePayloadReads(s.appId, s.envId, s.rows, t);
  }

  /** What an envelope Core builds carries, read as the Agent reads it. */
  lemma BuiltCarries(s: Sending, t: Toolkit, k: Keys)
    requires Opens(t, k)
    ensures var e := EnvelopeOf(s, t, k);
      && MetaRight(e) && e.nodeId == s.nodeId && e.revisionId == s.revisionId && e.signingKeyId == k.keyId
      && t.parseTime(e.createdAt) == Some(s.created) && t.parseTime(e.expiresAt) == Some(s.expires)
      && PlainReceived(e, k.identity, t) == Some(Received(s.appId, s.envId, FilesOf(s.rows, t)))
      && Base64.Decode(Base64.Std, e.signature) == Some(t.sign(k.signer, Utf8.Encode(GoMarshal(Obj(SignedFields(e))))))
  {
    var e := EnvelopeOf(s, t, k);
    SentPlain(s, e, t, k);
    Base64.DecodeEncode(Base64.Std, t.sign(k.signer, SignaturePayloadGo(e)));
  }

  /** A change of any signed field of an envelope makes the Agent refuse it, unless
      Core built that one too. */
  lemma ForgedIsRefused(sent: iset<Sending>, e: Envelope, now: int, t: Toolkit, k: Keys)
    requires Opens(t, k) && OnlyCoreSigns(sent, t, k)
    requires forall s :: s in sent ==> e != EnvelopeOf(s, t, k).(signature := e.signature)
    ensures Accepted(e, now, k.identity, k.public, t).Err?
  {
    if Accepted(e, now, k.identity, k.public, t).Ok? {
      var s := AcceptedIsCores(sent, e, now, t, k);
      assert false;
    }
  }
}
