/**
  The administrator's login policy: optional TOTP with recovery codes, the
  password login switch and the two external identity bindings. Every request
  is handled on its own; provider readiness is fixed when Core starts.
 */
module LoginPolicy {
  import opened Common
  import opened Totp

  /** Thirty minutes in seconds. */
  const ENROLLMENT_TTL: int := 1800

  datatype Provider = OIDC | OAuth

  datatype Enrollment = Enrollment(
    token: string, key: Bytes, confirmation: Option<string>, expiresAt: int, verified: bool, confirmed: bool)

  /** `enrollments` are the rows of the administrator in table order;
      `recoveryCodes` maps a code's hash to whether it was used. */
  datatype Policy = Policy(
    totpRequired: bool, passwordEnabled: bool,
    enrollments: seq<Enrollment>, recoveryCodes: map<string, bool>,
    lastCounter: Option<int>, bound: set<Provider>)

  datatype Outcome =
    | Done | InvalidCredentials | AlreadyEnrolled | Conflict | NotPending | NotFound
    | PasswordLoginDisabled | ExternalLoginRequired | LastExternalLogin

  datatype Step = Step(policy: Policy, outcome: Outcome)

  // --- Queries ----------------------------------------------------------------

  predicate Pending(e: Enrollment, token: string, now: int) {
    e.token == token && e.expiresAt > now && !e.verified
  }

  predicate Confirmable(e: Enrollment, confirmation: string, now: int) {
    e.confirmation == Some(confirmation) && e.expiresAt > now && e.verified && !e.confirmed
  }

  predicate AnyConfirmed(rows: seq<Enrollment>) {
    exists k :: 0 <= k < |rows| && rows[k].confirmed
  }

  function FindByToken(rows: seq<Enrollment>, token: string, now: int): Option<Enrollment> {
    if rows == [] then None
    else if rows[0].token == token && rows[0].expiresAt > now then Some(rows[0])
    else FindByToken(rows[1..], token, now)
  }

  function MarkVerified(rows: seq<Enrollment>, token: string, confirmation: string): seq<Enrollment> {
    if rows == [] then []
    else
      var e := rows[0];
      [if e.token == token then e.(verified := true, confirmation := Some(confirmation)) else e]
      + MarkVerified(rows[1..], token, confirmation)
  }

  function MarkConfirmed(rows: seq<Enrollment>, confirmation: string): seq<Enrollment> {
    if rows == [] then []
    else
      var e := rows[0];
      [if e.confirmation == Some(confirmation) then e.(confirmed := true) else e]
      + MarkConfirmed(rows[1..], confirmation)
  }

  predicate ExternalUsable(bound: set<Provider>, ready: set<Provider>) {
    bound * ready != {}
  }

  predicate PasswordAvailable(p: Policy, ready: set<Provider>) {
    p.passwordEnabled || !ExternalUsable(p.bound, ready)
  }

  // --- What each operation does to the policy ---------------------------------

  /** One recovery code is burned, or one TOTP counter beyond the last one used. */
  ghost function SecondFactor(p: Policy, code: string, recovery: Option<string>, now: int, mac: Mac): (Policy, bool) {
    match recovery
    case Some(hash) =>
      if hash in p.recoveryCodes && !p.recoveryCodes[hash]
      then (p.(recoveryCodes := p.recoveryCodes[hash := true]), true)
      else (p, false)
    case None =>
      if p.enrollments == [] || !p.enrollments[0].verified || !p.enrollments[0].confirmed then (p, false)
      else
        match Matching(p.enrollments[0].key, code, now, mac)
        case None => (p, false)
        case Some(counter) =>
          if p.lastCounter.None? || p.lastCounter.value < counter
          then (p.(lastCounter := Some(counter)), true)
          else (p, false)
  }

  ghost function PolicyProof(p: Policy, code: string, recovery: Option<string>, now: int, mac: Mac): (Policy, bool) {
    if !p.totpRequired then (p, true) else SecondFactor(p, code, recovery, now, mac)
  }

  ghost function Credentials(p: Policy, passwordOk: bool, code: string, recovery: Option<string>, now: int, mac: Mac)
    : (Policy, bool)
  {
    if !passwordOk then (p, false) else PolicyProof(p, code, recovery, now, mac)
  }

  function AfterStart(p: Policy, passwordOk: bool, token: string, key: Bytes, now: int): Step {
    if !passwordOk then Step(p, InvalidCredentials)
    else if p.totpRequired then Step(p, AlreadyEnrolled)
    else if AnyConfirmed(p.enrollments) then Step(p, Conflict)
    else Step(p.(enrollments := [Enrollment(token, key, None, now + ENROLLMENT_TTL, false, false)]), Done)
  }

  ghost function AfterVerify(p: Policy, token: string, code: string, confirmation: string,
                             hashes: seq<string>, now: int, mac: Mac): Step
  {
    var row := FindByToken(p.enrollments, token, now);
    if row.None? then Step(p, NotFound)
    else if Matching(row.value.key, code, now, mac).None? then Step(p, InvalidCredentials)
    else if !(exists k :: 0 <= k < |p.enrollments| && Pending(p.enrollments[k], token, now)) then Step(p, NotPending)
    else if !Fresh(p.recoveryCodes, hashes) then Step(p, NotPending)
    else
      Step(p.(enrollments := MarkVerified(p.enrollments, token, confirmation),
              recoveryCodes := WithCodes(p.recoveryCodes, hashes)), Done)
  }

  function AfterConfirm(p: Policy, confirmation: string, now: int): Step {
    if exists k :: 0 <= k < |p.enrollments| && Confirmable(p.enrollments[k], confirmation, now)
    then Step(p.(enrollments := MarkConfirmed(p.enrollments, confirmation), totpRequired := true), Done)
    else Step(p, NotPending)
  }

  ghost function AfterDisable(p: Policy, passwordOk: bool, code: string, now: int, mac: Mac): Step {
    if !passwordOk then Step(p, InvalidCredentials)
    else
      var (q, accepted) := SecondFactor(p, code, None, now, mac);
      if !accepted then Step(q, InvalidCredentials)
      else Step(q.(totpRequired := false, enrollments := [], recoveryCodes := map[]), Done)
  }

  ghost function AfterCompleteLogin(p: Policy, ready: set<Provider>, code: string, recovery: Option<string>,
                                    now: int, mac: Mac): Step
  {
    if !PasswordAvailable(p, ready) then Step(p, PasswordLoginDisabled)
    else
      var (q, accepted) := SecondFactor(p, code, recovery, now, mac);
      Step(q, if accepted then Done else InvalidCredentials)
  }

  ghost function AfterProve(p: Policy, passwordOk: bool, code: string, recovery: Option<string>, now: int, mac: Mac): Step {
    var (q, accepted) := Credentials(p, passwordOk, code, recovery, now, mac);
    Step(q, if accepted then Done else InvalidCredentials)
  }

  ghost function AfterSwitch(p: Policy, ready: set<Provider>, passwordOk: bool, code: string, enabled: bool,
                             now: int, mac: Mac): Step
  {
    var (q, accepted) := Credentials(p, passwordOk, code, None, now, mac);
    if !accepted then Step(q, InvalidCredentials)
    else if q.passwordEnabled == enabled then Step(q, Done)
    else if !enabled && !ExternalUsable(q.bound, ready) then Step(q, ExternalLoginRequired)
    else Step(q.(passwordEnabled := enabled), Done)
  }

  function AfterBind(p: Policy, provider: Provider): Step {
    if provider in p.bound then Step(p, Conflict) else Step(p.(bound := p.bound + {provider}), Done)
  }

  ghost function AfterUnbind(p: Policy, ready: set<Provider>, provider: Provider, passwordOk: bool, code: string,
                             now: int, mac: Mac): Step
  {
    var (q, accepted) := Credentials(p, passwordOk, code, None, now, mac);
    if !accepted then Step(q, InvalidCredentials)
    else if provider !in q.bound then Step(q, NotFound)
    else if !q.passwordEnabled && !ExternalUsable(q.bound - {provider}, ready) then Step(q, LastExternalLogin)
    else Step(q.(bound := q.bound - {provider}), Done)
  }

  /** None of the hashes is stored already, and none is listed twice. */
  predicate Fresh(codes: map<string, bool>, hashes: seq<string>) {
    && (forall k :: 0 <= k < |hashes| ==> hashes[k] !in codes)
    && (forall j, k :: 0 <= j < k < |hashes| ==> hashes[j] != hashes[k])
  }

  function WithCodes(codes: map<string, bool>, hashes: seq<string>): map<string, bool> {
    if hashes == [] then codes else WithCodes(codes, hashes[..|hashes| - 1])[hashes[|hashes| - 1] := false]
  }

  lemma {:induction false} WithCodesContains(codes: map<string, bool>, hashes: seq<string>, hash: string)
    ensures hash in WithCodes(codes, hashes) <==> hash in codes || hash in hashes
    ensures hash !in hashes && hash in codes ==> WithCodes(codes, hashes)[hash] == codes[hash]
  {
    if hashes != [] {
      WithCodesContains(codes, hashes[..|hashes| - 1], hash);
      InInitOrLast(hashes, hash);
    }
  }

  lemma InInitOrLast(hashes: seq<string>, hash: string)
    requires hashes != []
    ensures hash in hashes <==> hash in hashes[..|hashes| - 1] || hash == hashes[|hashes| - 1]
  {
    var n := |hashes| - 1;
    assert hashes == hashes[..n] + [hashes[n]];
  }

  // --- The service ------------------------------------------------------------

  class IdentityService {
    var policy: Policy
    const ready: set<Provider>
    const mac: Mac

    /** A bootstrapped administrator: a password and nothing else. */
    constructor (ready: set<Provider>, mac: Mac)
      ensures this.ready == ready && this.mac == mac
      ensures policy == Initial() && Valid()
    {
      this.ready := ready;
      this.mac := mac;
      policy := Initial();
    }

    ghost predicate Valid()
      reads this
    {
      NoLockout(policy, ready)
    }

    method VerifySecondFactor(code: string, recovery: Option<string>, now: int) returns (accepted: bool)
      requires Valid()
      modifies this
      ensures Valid()
      ensures (policy, accepted) == SecondFactor(old(policy), code, recovery, now, mac)
    {
      ProofKeepsPolicy(policy, code, recovery, now, mac);
      if recovery.Some? {
        if recovery.value !in policy.recoveryCodes || policy.recoveryCodes[recovery.value] {
          return false;
        }
        policy := policy.(recoveryCodes := policy.recoveryCodes[recovery.value := true]);
        return true;
      }
      if policy.enrollments == [] { return false; }
      var enrollment := policy.enrollments[0];
      if !enrollment.verified || !enrollment.confirmed { return false; }
      var counter := MatchingCounter(enrollment.key, code, now, mac);
      if counter.None? { return false; }
      if policy.lastCounter.Some? && policy.lastCounter.value >= counter.value { return false; }
      policy := policy.(lastCounter := counter);
      return true;
    }

    method PolicyProofValid(code: string, recovery: Option<string>, now: int) returns (accepted: bool)
      requires Valid()
      modifies this
      ensures Valid()
      ensures (policy, accepted) == PolicyProof(old(policy), code, recovery, now, mac)
    {
      if !policy.totpRequired { return true; }
      accepted := VerifySecondFactor(code, recovery, now);
    }

    method StartTOTPEnrollment(passwordOk: bool, token: string, key: Bytes, now: int) returns (outcome: Outcome)
      requires Valid()
      modifies this
      ensures Valid()
      ensures Step(policy, outcome) == AfterStart(old(policy), passwordOk, token, key, now)
    {
      StepKeepsNoLockout(policy, Request.StartEnrollment(passwordOk, token, key, now), ready, mac);
      if !passwordOk { return InvalidCredentials; }
      if policy.totpRequired { return AlreadyEnrolled; }
      if AnyConfirmed(policy.enrollments) { return Conflict; }
      policy := policy.(enrollments := []);
      policy := policy.(enrollments :=
        policy.enrollments + [Enrollment(token, key, None, now + ENROLLMENT_TTL, false, false)]);
      return Done;
    }

    method VerifyMFAEnrollment(token: string, code: string, confirmation: string, hashes: seq<string>, now: int)
      returns (outcome: Outcome)
      requires Valid()
      modifies this
      ensures Valid()
      ensures Step(policy, outcome) == AfterVerify(old(policy), token, code, confirmation, hashes, now, mac)
    {
      StepKeepsNoLockout(policy, Request.VerifyEnrollment(token, code, confirmation, hashes, now), ready, mac);
      var row := FindByToken(policy.enrollments, token, now);
      if row.None? { return NotFound; }
      var counter := MatchingCounter(row.value.key, code, now, mac);
      if counter.None? { return InvalidCredentials; }
      var rows := policy.enrollments;
      if !(exists k :: 0 <= k < |rows| && Pending(rows[k], token, now)) { return NotPending; }
      var inserted, codes := InsertRecoveryCodes(policy.recoveryCodes, hashes);
      if !inserted { return NotPending; }
      policy := policy.(enrollments := MarkVerified(rows, token, confirmation), recoveryCodes := codes);
      return Done;
    }

    /** Inserts code by code; a duplicate aborts the transaction. */
    static method InsertRecoveryCodes(before: map<string, bool>, hashes: seq<string>)
      returns (inserted: bool, codes: map<string, bool>)
      ensures inserted <==> Fresh(before, hashes)
      ensures inserted ==> codes == WithCodes(before, hashes)
    {
      codes := before;
      var i := 0;
      while i < |hashes|
        invariant 0 <= i <= |hashes|
        invariant Fresh(before, hashes[..i])
        invariant codes == WithCodes(before, hashes[..i])
      {
        WithCodesContains(before, hashes[..i], hashes[i]);
        assert hashes[..i + 1][..i] == hashes[..i];
        if hashes[i] in codes {
          assert hashes[i] in before || exists j :: 0 <= j < i && hashes[j] == hashes[i];
          return false, before;
        }
        codes := codes[hashes[i] := false];
        i := i + 1;
      }
      assert hashes[..i] == hashes;
      return true, codes;
    }

    method ConfirmMFAEnrollment(confirmation: string, now: int) returns (outcome: Outcome)
      requires Valid()
      modifies this
      ensures Valid()
      ensures Step(policy, outcome) == AfterConfirm(old(policy), confirmation, now)
    {
      StepKeepsNoLockout(policy, Request.ConfirmEnrollment(confirmation, now), ready, mac);
      var rows := policy.enrollments;
      if !(exists k :: 0 <= k < |rows| && Confirmable(rows[k], confirmation, now)) { return NotPending; }
      policy := policy.(enrollments := MarkConfirmed(rows, confirmation));
      policy := policy.(totpRequired := true);
      return Done;
    }

    method DisableTOTP(passwordOk: bool, code: string, now: int) returns (outcome: Outcome)
      requires Valid()
      modifies this
      ensures Valid()
      ensures Step(policy, outcome) == AfterDisable(old(policy), passwordOk, code, now, mac)
    {
      StepKeepsNoLockout(policy, Request.Disable(passwordOk, code, now), ready, mac);
      if !passwordOk { return InvalidCredentials; }
      var accepted := VerifySecondFactor(code, None, now);
      if !accepted { return InvalidCredentials; }
      policy := policy.(totpRequired := false);
      policy := policy.(enrollments := []);
      policy := policy.(recoveryCodes := map[]);
      return Done;
    }

    /** The second half of a password login; the challenge itself is consumed elsewhere. */
    method CompleteLogin(code: string, recovery: Option<string>, now: int) returns (outcome: Outcome)
      requires Valid()
      modifies this
      ensures Valid()
      ensures Step(policy, outcome) == AfterCompleteLogin(old(policy), ready, code, recovery, now, mac)
    {
      if !PasswordAvailable(policy, ready) { return PasswordLoginDisabled; }
      var accepted := VerifySecondFactor(code, recovery, now);
      return if accepted then Done else InvalidCredentials;
    }

    /** The gate of session renewal and step-up, and (without a recovery code)
        of changing the password or the name and of starting a binding. */
    method Prove(passwordOk: bool, code: string, recovery: Option<string>, now: int) returns (outcome: Outcome)
      requires Valid()
      modifies this
      ensures Valid()
      ensures Step(policy, outcome) == AfterProve(old(policy), passwordOk, code, recovery, now, mac)
    {
      if !passwordOk { return InvalidCredentials; }
      var accepted := PolicyProofValid(code, recovery, now);
      return if accepted then Done else InvalidCredentials;
    }

    method SetPasswordLoginEnabled(passwordOk: bool, code: string, enabled: bool, now: int) returns (outcome: Outcome)
      requires Valid()
      modifies this
      ensures Valid()
      ensures Step(policy, outcome) == AfterSwitch(old(policy), ready, passwordOk, code, enabled, now, mac)
    {
      StepKeepsNoLockout(policy, Request.SetPasswordLogin(passwordOk, code, enabled, now), ready, mac);
      outcome := Prove(passwordOk, code, None, now);
      if outcome != Done || policy.passwordEnabled == enabled { return; }
      if !enabled && !ExternalUsable(policy.bound, ready) { return ExternalLoginRequired; }
      policy := policy.(passwordEnabled := enabled);
    }

    /** The end of a binding: an insert that does nothing on a conflict. */
    method CompleteBinding(provider: Provider) returns (outcome: Outcome)
      requires Valid()
      modifies this
      ensures Valid()
      ensures Step(policy, outcome) == AfterBind(old(policy), provider)
    {
      StepKeepsNoLockout(policy, Request.CompleteBinding(provider), ready, mac);
      if provider in policy.bound { return Conflict; }
      policy := policy.(bound := policy.bound + {provider});
      return Done;
    }

    method Unbind(provider: Provider, passwordOk: bool, code: string, now: int) returns (outcome: Outcome)
      requires Valid()
      modifies this
      ensures Valid()
      ensures Step(policy, outcome) == AfterUnbind(old(policy), ready, provider, passwordOk, code, now, mac)
    {
      StepKeepsNoLockout(policy, Request.Unbind(provider, passwordOk, code, now), ready, mac);
      outcome := Prove(passwordOk, code, None, now);
      if outcome != Done { return; }
      if provider !in policy.bound { return NotFound; }
      if !policy.passwordEnabled && !ExternalUsable(policy.bound - {provider}, ready) { return LastExternalLogin; }
      policy := policy.(bound := policy.bound - {provider});
    }
  }

  // --- Runs -------------------------------------------------------------------

  datatype Request =
    | StartEnrollment(passwordOk: bool, token: string, key: Bytes, now: int)
    | VerifyEnrollment(token: string, code: string, confirmation: string, hashes: seq<string>, now: int)
    | ConfirmEnrollment(confirmation: string, now: int)
    | Disable(passwordOk: bool, code: string, now: int)
    | CompleteLogin(code: string, recovery: Option<string>, now: int)
    | Prove(passwordOk: bool, code: string, recovery: Option<string>, now: int)
    | SetPasswordLogin(passwordOk: bool, code: string, enabled: bool, now: int)
    | CompleteBinding(provider: Provider)
    | Unbind(provider: Provider, passwordOk: bool, code: string, now: int)

  function Initial(): Policy {
    Policy(false, true, [], map[], None, {})
  }

  ghost function After(p: Policy, r: Request, ready: set<Provider>, mac: Mac): Step {
    match r
    case StartEnrollment(passwordOk, token, key, now) => AfterStart(p, passwordOk, token, key, now)
    case VerifyEnrollment(token, code, confirmation, hashes, now) =>
      AfterVerify(p, token, code, confirmation, hashes, now, mac)
    case ConfirmEnrollment(confirmation, now) => AfterConfirm(p, confirmation, now)
    case Disable(passwordOk, code, now) => AfterDisable(p, passwordOk, code, now, mac)
    case CompleteLogin(code, recovery, now) => AfterCompleteLogin(p, ready, code, recovery, now, mac)
    case Prove(passwordOk, code, recovery, now) => AfterProve(p, passwordOk, code, recovery, now, mac)
    case SetPasswordLogin(passwordOk, code, enabled, now) => AfterSwitch(p, ready, passwordOk, code, enabled, now, mac)
    case CompleteBinding(provider) => AfterBind(p, provider)
    case Unbind(provider, passwordOk, code, now) => AfterUnbind(p, ready, provider, passwordOk, code, now, mac)
  }

  ghost function Run(p: Policy, requests: seq<Request>, ready: set<Provider>, mac: Mac): Policy
    decreases |requests|
  {
    if requests == [] then p else Run(After(p, requests[0], ready, mac).policy, requests[1..], ready, mac)
  }

  /** At most one enrollment, TOTP required exactly when it is confirmed, and
      password login closed only while a ready provider is bound. */
  ghost predicate NoLockout(p: Policy, ready: set<Provider>) {
    && |p.enrollments| <= 1
    && (p.totpRequired <==> AnyConfirmed(p.enrollments))
    && (forall k :: 0 <= k < |p.enrollments| && p.enrollments[k].confirmed ==> p.enrollments[k].verified)
    && (p.passwordEnabled || ExternalUsable(p.bound, ready))
  }

  lemma MarksKeepLength(rows: seq<Enrollment>, name: string, confirmation: string)
    requires |rows| <= 1
    ensures |MarkVerified(rows, name, confirmation)| == |rows| == |MarkConfirmed(rows, confirmation)|
  {}

  lemma ProofKeepsPolicy(p: Policy, code: string, recovery: Option<string>, now: int, mac: Mac)
    ensures var q := SecondFactor(p, code, recovery, now, mac).0;
      q == p.(recoveryCodes := q.recoveryCodes, lastCounter := q.lastCounter)
  {}

  lemma VerifyKeepsNoLockout(p: Policy, ready: set<Provider>, token: string, code: string, confirmation: string,
                             hashes: seq<string>, now: int, mac: Mac)
    requires NoLockout(p, ready)
    ensures NoLockout(AfterVerify(p, token, code, confirmation, hashes, now, mac).policy, ready)
  {
    MarksKeepLength(p.enrollments, token, confirmation);
    if AfterVerify(p, token, code, confirmation, hashes, now, mac).outcome.Done? {
      assert !p.enrollments[0].verified;
    }
  }

  lemma ConfirmKeepsNoLockout(p: Policy, ready: set<Provider>, confirmation: string, now: int)
    requires NoLockout(p, ready)
    ensures NoLockout(AfterConfirm(p, confirmation, now).policy, ready)
  {
    var q := AfterConfirm(p, confirmation, now).policy;
    MarksKeepLength(p.enrollments, confirmation, confirmation);
    if q != p {
      assert q.enrollments[0].confirmed && q.enrollments[0].verified;
    }
  }

  /** A proof on its own burns a factor and changes nothing else. */
  lemma ProofKeepsNoLockout(p: Policy, ready: set<Provider>, code: string, recovery: Option<string>, now: int, mac: Mac)
    requires NoLockout(p, ready)
    ensures NoLockout(SecondFactor(p, code, recovery, now, mac).0, ready)
  {
    ProofKeepsPolicy(p, code, recovery, now, mac);
  }

  lemma StepKeepsNoLockout(p: Policy, r: Request, ready: set<Provider>, mac: Mac)
    requires NoLockout(p, ready)
    ensures NoLockout(After(p, r, ready, mac).policy, ready)
  {
    match r {
      case StartEnrollment(_, _, _, _) =>
      case VerifyEnrollment(token, code, confirmation, hashes, now) =>
        VerifyKeepsNoLockout(p, ready, token, code, confirmation, hashes, now, mac);
      case ConfirmEnrollment(confirmation, now) => ConfirmKeepsNoLockout(p, ready, confirmation, now);
      case Disable(_, code, now) => ProofKeepsNoLockout(p, ready, code, None, now, mac);
      case CompleteLogin(code, recovery, now) => ProofKeepsNoLockout(p, ready, code, recovery, now, mac);
      case Prove(_, code, recovery, now) => ProofKeepsNoLockout(p, ready, code, recovery, now, mac);
      case SetPasswordLogin(_, code, _, now) => ProofKeepsNoLockout(p, ready, code, None, now, mac);
      case CompleteBinding(provider) =>
        assert p.bound * ready <= (p.bound + {provider}) * ready;
      case Unbind(_, _, code, now) => ProofKeepsNoLockout(p, ready, code, None, now, mac);
    }
  }

  /** No run locks the administrator out, and the emergency fallback that
      re-opens password login is never what lets them in. */
  lemma {:induction false} RunKeepsNoLockout(p: Policy, requests: seq<Request>, ready: set<Provider>, mac: Mac)
    requires NoLockout(p, ready)
    ensures NoLockout(Run(p, requests, ready, mac), ready)
    ensures var q := Run(p, requests, ready, mac); PasswordAvailable(q, ready) <==> q.passwordEnabled
    decreases |requests|
  {
    if requests != [] {
      StepKeepsNoLockout(p, requests[0], ready, mac);
      RunKeepsNoLockout(After(p, requests[0], ready, mac).policy, requests[1..], ready, mac);
    }
  }

  // --- Accepted factors -------------------------------------------------------

  datatype Factor = Factor(code: string, recovery: Option<string>, now: int)

  /** The factor a request puts to the check, when it gets that far. */
  ghost function Challenge(p: Policy, r: Request, ready: set<Provider>): Option<Factor> {
    match r
    case Disable(passwordOk, code, now) => if passwordOk then Some(Factor(code, None, now)) else None
    case CompleteLogin(code, recovery, now) =>
      if PasswordAvailable(p, ready) then Some(Factor(code, recovery, now)) else None
    case Prove(passwordOk, code, recovery, now) =>
      if passwordOk && p.totpRequired then Some(Factor(code, recovery, now)) else None
    case SetPasswordLogin(passwordOk, code, _, now) =>
      if passwordOk && p.totpRequired then Some(Factor(code, None, now)) else None
    case Unbind(_, passwordOk, code, now) =>
      if passwordOk && p.totpRequired then Some(Factor(code, None, now)) else None
    case _ => None
  }

  ghost predicate Accepted(p: Policy, r: Request, ready: set<Provider>, mac: Mac) {
    var c := Challenge(p, r, ready);
    c.Some? && SecondFactor(p, c.value.code, c.value.recovery, c.value.now, mac).1
  }

  /** An accepted one-time code: its counter, the key it was computed with and the time. */
  datatype Acceptance = Acceptance(counter: int, key: Bytes, code: string, now: int)

  ghost function AcceptedCode(p: Policy, r: Request, ready: set<Provider>, mac: Mac): seq<Acceptance> {
    if Accepted(p, r, ready, mac) && Challenge(p, r, ready).value.recovery.None? then
      var f := Challenge(p, r, ready).value;
      var key := p.enrollments[0].key;
      [Acceptance(Matching(key, f.code, f.now, mac).value, key, f.code, f.now)]
    else []
  }

  /** Every one-time code accepted in the run, in order. */
  ghost function AcceptedCodes(p: Policy, requests: seq<Request>, ready: set<Provider>, mac: Mac): seq<Acceptance>
    decreases |requests|
  {
    if requests == [] then []
    else
      AcceptedCode(p, requests[0], ready, mac)
      + AcceptedCodes(After(p, requests[0], ready, mac).policy, requests[1..], ready, mac)
  }

  ghost predicate Beyond(last: Option<int>, counter: int) {
    last.None? || last.value < counter
  }

  lemma StepCounter(p: Policy, r: Request, ready: set<Provider>, mac: Mac)
    ensures var accepted, q := AcceptedCode(p, r, ready, mac), After(p, r, ready, mac).policy;
      if accepted == [] then q.lastCounter == p.lastCounter
      else Beyond(p.lastCounter, accepted[0].counter) && q.lastCounter == Some(accepted[0].counter)
  {}

  ghost predicate Increasing(accepted: seq<Acceptance>) {
    forall j, k :: 0 <= j < k < |accepted| ==> accepted[j].counter < accepted[k].counter
  }

  lemma {:induction false} NoReplayFrom(p: Policy, requests: seq<Request>, ready: set<Provider>, mac: Mac)
    ensures Increasing(AcceptedCodes(p, requests, ready, mac))
    ensures forall k :: 0 <= k < |AcceptedCodes(p, requests, ready, mac)| ==>
      Beyond(p.lastCounter, AcceptedCodes(p, requests, ready, mac)[k].counter)
    decreases |requests|
  {
    if requests != [] {
      StepCounter(p, requests[0], ready, mac);
      NoReplayFrom(After(p, requests[0], ready, mac).policy, requests[1..], ready, mac);
    }
  }

  lemma {:induction false} AcceptedNearClock(p: Policy, requests: seq<Request>, ready: set<Provider>, mac: Mac, k: nat)
    requires k < |AcceptedCodes(p, requests, ready, mac)|
    ensures var a := AcceptedCodes(p, requests, ready, mac)[k];
      CounterAt(a.now) - 1 <= a.counter <= CounterAt(a.now) + 1 && CodeFor(a.key, a.counter, mac) == a.code
    decreases |requests|
  {
    var first := AcceptedCode(p, requests[0], ready, mac);
    if k < |first| {
      var f := Challenge(p, requests[0], ready).value;
      MatchingIsNear(p.enrollments[0].key, f.code, f.now, mac);
    } else {
      AcceptedNearClock(After(p, requests[0], ready, mac).policy, requests[1..], ready, mac, k - |first|);
    }
  }

  /** One-time codes do not replay: over every run of logins, renewals, step-ups,
      disables and re-enrollments the accepted counters strictly increase, and
      each lies within one step of the clock that accepted it. */
  lemma CodesDoNotReplay(requests: seq<Request>, ready: set<Provider>, mac: Mac)
    ensures var accepted := AcceptedCodes(Initial(), requests, ready, mac);
      && Increasing(accepted)
      && forall k :: 0 <= k < |accepted| ==>
           CounterAt(accepted[k].now) - 1 <= accepted[k].counter <= CounterAt(accepted[k].now) + 1
  {
    NoReplayFrom(Initial(), requests, ready, mac);
    forall k | 0 <= k < |AcceptedCodes(Initial(), requests, ready, mac)|
      ensures var a := AcceptedCodes(Initial(), requests, ready, mac)[k];
        CounterAt(a.now) - 1 <= a.counter <= CounterAt(a.now) + 1
    {
      AcceptedNearClock(Initial(), requests, ready, mac, k);
    }
  }

  // --- The code that verified an enrollment ---------------------------------

  lemma VerifiedRow(p: Policy, ready: set<Provider>, token: string, code: string, confirmation: string,
                    hashes: seq<string>, now: int, mac: Mac)
    requires NoLockout(p, ready) && AfterVerify(p, token, code, confirmation, hashes, now, mac).outcome.Done?
    ensures |p.enrollments| == 1 && p.enrollments[0].expiresAt > now && !p.enrollments[0].confirmed
    ensures Matching(p.enrollments[0].key, code, now, mac).Some?
    ensures var q := AfterVerify(p, token, code, confirmation, hashes, now, mac).policy;
      q == p.(enrollments := [p.enrollments[0].(verified := true, confirmation := Some(confirmation))],
              recoveryCodes := q.recoveryCodes)
  {
    var k :| 0 <= k < |p.enrollments| && Pending(p.enrollments[k], token, now);
    var row := p.enrollments[0];
    assert p.enrollments == [row] && [row][1..] == [];
    assert FindByToken([row], token, now) == Some(row);
    assert MarkVerified([row], token, confirmation) == [row.(verified := true, confirmation := Some(confirmation))];
  }

  lemma ConfirmedRow(p: Policy, row: Enrollment, confirmation: string, now: int)
    requires p.enrollments == [row] && Confirmable(row, confirmation, now)
    ensures AfterConfirm(p, confirmation, now) ==
      Step(p.(enrollments := [row.(confirmed := true)], totpRequired := true), Done)
  {
    assert p.enrollments[0] == row && [row][1..] == [];
    assert MarkConfirmed([row], confirmation) == [row.(confirmed := true)];
  }

  /**
    Verification does not use up its code. After the enrollment is confirmed, a
    login with a one-time code is accepted exactly when password login is open
    and the code's counter lies beyond the last one spent before - also for the
    very code, and at the very time, that verified the enrollment.
   */
  lemma VerificationSpendsNoCode(
    p: Policy, ready: set<Provider>, token: string, code: string, confirmation: string, hashes: seq<string>, now: int,
    confirmedAt: int, again: string, later: int, mac: Mac)
    requires NoLockout(p, ready) && AfterVerify(p, token, code, confirmation, hashes, now, mac).outcome.Done?
    requires confirmedAt < p.enrollments[0].expiresAt
    ensures var verified := AfterVerify(p, token, code, confirmation, hashes, now, mac).policy;
      var enrolled := AfterConfirm(verified, confirmation, confirmedAt).policy;
      var counter := Matching(p.enrollments[0].key, again, later, mac);
      AfterCompleteLogin(enrolled, ready, again, None, later, mac).outcome.Done? <==>
        p.passwordEnabled && counter.Some? && Beyond(p.lastCounter, counter.value)
  {
    var verified := AfterVerify(p, token, code, confirmation, hashes, now, mac).policy;
    VerifiedRow(p, ready, token, code, confirmation, hashes, now, mac);
    ConfirmedRow(verified, verified.enrollments[0], confirmation, confirmedAt);
  }

  /** The same code at the same time: accepted twice, unless an earlier login
      already spent a counter as high. */
  lemma VerifiedCodeReplays(p: Policy, ready: set<Provider>, token: string, code: string, confirmation: string,
                            hashes: seq<string>, now: int, mac: Mac)
    requires NoLockout(p, ready) && AfterVerify(p, token, code, confirmation, hashes, now, mac).outcome.Done?
    ensures Matching(p.enrollments[0].key, code, now, mac).Some?
    ensures var verified := AfterVerify(p, token, code, confirmation, hashes, now, mac).policy;
      var enrolled := AfterConfirm(verified, confirmation, now).policy;
      AfterCompleteLogin(enrolled, ready, code, None, now, mac).outcome.Done? <==>
        p.passwordEnabled && Beyond(p.lastCounter, Matching(p.enrollments[0].key, code, now, mac).value)
  {
    VerifiedRow(p, ready, token, code, confirmation, hashes, now, mac);
    VerificationSpendsNoCode(p, ready, token, code, confirmation, hashes, now, now, code, now, mac);
  }

  /** A new administrator enrolls, and the code that verified it logs in. */
  method ReplayExample(key: Bytes, now: int, mac: Mac) returns (first: Outcome, second: Outcome)
    requires key != []
    ensures first.Done? && second.Done?
  {
    var service := new IdentityService({}, mac);
    var code := TOTPCode(key, now, mac);
    assert Matches(key, code.value, now, mac);
    var started := service.StartTOTPEnrollment(true, "token", key, now);
    ghost var p := service.policy;
    first := service.VerifyMFAEnrollment("token", code.value, "confirmation", [], now);
    assert Pending(p.enrollments[0], "token", now);
    VerifiedCodeReplays(p, {}, "token", code.value, "confirmation", [], now, mac);
    var confirmed := service.ConfirmMFAEnrollment("confirmation", now);
    second := service.CompleteLogin(code.value, None, now);
  }

  // --- Recovery codes and changes ---------------------------------------------

  ghost function Burned(p: Policy, requests: seq<Request>, hash: string, ready: set<Provider>, mac: Mac): nat
    decreases |requests|
  {
    if requests == [] then 0
    else
      (if Accepted(p, requests[0], ready, mac) && Challenge(p, requests[0], ready).value.recovery == Some(hash) then 1 else 0)
      + Burned(After(p, requests[0], ready, mac).policy, requests[1..], hash, ready, mac)
  }

  lemma StepCode(p: Policy, r: Request, hash: string, ready: set<Provider>, mac: Mac)
    requires !r.Disable?
    ensures var q := After(p, r, ready, mac).policy;
      && (hash in p.recoveryCodes && p.recoveryCodes[hash] ==> hash in q.recoveryCodes && q.recoveryCodes[hash])
      && (Accepted(p, r, ready, mac) && Challenge(p, r, ready).value.recovery == Some(hash) ==>
            hash in p.recoveryCodes && !p.recoveryCodes[hash] && hash in q.recoveryCodes && q.recoveryCodes[hash])
  {
    if r.VerifyEnrollment? {
      WithCodesContains(p.recoveryCodes, r.hashes, hash);
    }
  }

  /** Until TOTP is disabled a recovery code is accepted at most once, whatever
      is enrolled or verified in between; one already used is never accepted. */
  lemma {:induction false} RecoveryCodeOnce(p: Policy, requests: seq<Request>, hash: string, ready: set<Provider>, mac: Mac)
    requires forall k :: 0 <= k < |requests| ==> !requests[k].Disable?
    ensures Burned(p, requests, hash, ready, mac) <= 1
    ensures hash in p.recoveryCodes && p.recoveryCodes[hash] ==> Burned(p, requests, hash, ready, mac) == 0
    decreases |requests|
  {
    if requests != [] {
      StepCode(p, requests[0], hash, ready, mac);
      RecoveryCodeOnce(After(p, requests[0], ready, mac).policy, requests[1..], hash, ready, mac);
    }
  }

  /** While TOTP is required, nothing but the end of an already proved binding
      changes the policy without burning a fresh one-time code. */
  lemma ChangesAreProved(p: Policy, r: Request, ready: set<Provider>, mac: Mac)
    requires NoLockout(p, ready) && p.totpRequired && !r.CompleteBinding?
    ensures var q := After(p, r, ready, mac).policy;
      q.(recoveryCodes := p.recoveryCodes, lastCounter := p.lastCounter) != p
      ==> q.lastCounter.Some? && Beyond(p.lastCounter, q.lastCounter.value)
  {
    match r {
      case VerifyEnrollment(token, code, confirmation, hashes, now) =>
        assert p.enrollments[0].verified;
      case ConfirmEnrollment(confirmation, now) =>
        assert p.enrollments[0].confirmed;
      case _ =>
    }
  }
}
