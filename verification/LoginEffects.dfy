/**
  What each request of the login policy needs and does, said of the policy
  itself: the password, the factor it burns, and the one thing it changes.
 */
module LoginEffects {
  import opened Common
  import opened Totp
  import opened LoginPolicy

  // --- Factors ------------------------------------------------------------------------

  /** An unused recovery code; or, without one, a code of the confirmed enrollment
      whose counter was not reached before. */
  ghost predicate Good(p: Policy, code: string, recovery: Option<string>, now: int, mac: Mac) {
    match recovery
    case Some(hash) => hash in p.recoveryCodes && p.recoveryCodes[hash] == false
    case None =>
      && p.enrollments != [] && p.enrollments[0].verified && p.enrollments[0].confirmed
      && Matching(p.enrollments[0].key, code, now, mac).Some?
      && (p.lastCounter.None? || p.lastCounter.value < Matching(p.enrollments[0].key, code, now, mac).value)
  }

  /** The policy after a good factor is burned, and nothing else. */
  ghost function Spent(p: Policy, code: string, recovery: Option<string>, now: int, mac: Mac): Policy
    requires Good(p, code, recovery, now, mac)
  {
    match recovery
    case Some(hash) => p.(recoveryCodes := p.recoveryCodes[hash := true])
    case None => p.(lastCounter := Matching(p.enrollments[0].key, code, now, mac))
  }

  /** While TOTP is required a proof needs a good factor and burns it. */
  ghost predicate Proves(p: Policy, code: string, recovery: Option<string>, now: int, mac: Mac) {
    p.totpRequired ==> Good(p, code, recovery, now, mac)
  }

  ghost function Proved(p: Policy, code: string, recovery: Option<string>, now: int, mac: Mac): Policy
    requires Proves(p, code, recovery, now, mac)
  {
    if p.totpRequired then Spent(p, code, recovery, now, mac) else p
  }

  // --- The password ---------------------------------------------------------------------

  /** The requests that ask for the password. */
  predicate AsksPassword(r: Request) {
    r.StartEnrollment? || r.Disable? || r.Prove? || r.SetPasswordLogin? || r.Unbind?
  }

  /** The request comes without the right password. */
  predicate WrongPassword(r: Request) {
    AsksPassword(r) && !r.passwordOk
  }

  /** Whatever the policy, a wrong password changes nothing and is refused. */
  lemma WrongPasswordRefused(p: Policy, r: Request, ready: set<Provider>, mac: Mac)
    requires WrongPassword(r)
    ensures After(p, r, ready, mac) == Step(p, InvalidCredentials)
  {}

  /** The same rows up to the marks that verifying and confirming set. */
  ghost predicate SameRows(a: seq<Enrollment>, b: seq<Enrollment>) {
    && |a| == |b|
    && forall k :: 0 <= k < |a| ==>
         && a[k].token == b[k].token && a[k].key == b[k].key && a[k].expiresAt == b[k].expiresAt
         && (a[k].verified ==> b[k].verified) && (a[k].confirmed ==> b[k].confirmed)
  }

  lemma {:induction false} MarksKeepRows(rows: seq<Enrollment>, name: string, confirmation: string)
    ensures SameRows(rows, MarkVerified(rows, name, confirmation)) && SameRows(rows, MarkConfirmed(rows, confirmation))
  {
    if rows != [] {
      MarksKeepRows(rows[1..], name, confirmation);
      var a, b := MarkVerified(rows, name, confirmation), MarkConfirmed(rows, confirmation);
      assert a[1..] == MarkVerified(rows[1..], name, confirmation) && b[1..] == MarkConfirmed(rows[1..], confirmation);
      assert forall k :: 1 <= k < |rows| ==> a[k] == a[1..][k - 1] && b[k] == b[1..][k - 1] && rows[k] == rows[1..][k - 1];
    }
  }

  /** Nothing but marks, bindings and burned factors moved. */
  ghost predicate OnlyForward(p: Policy, q: Policy) {
    && q.passwordEnabled == p.passwordEnabled && p.bound <= q.bound && (p.totpRequired ==> q.totpRequired)
    && SameRows(p.enrollments, q.enrollments)
  }

  /** Only factors were burned. */
  ghost predicate OnlyBurned(p: Policy, q: Policy) {
    q == p.(recoveryCodes := q.recoveryCodes, lastCounter := q.lastCounter)
  }

  lemma StepWithoutPassword(p: Policy, r: Request, ready: set<Provider>, mac: Mac)
    requires AsksPassword(r) ==> !r.passwordOk
    ensures OnlyForward(p, After(p, r, ready, mac).policy)
    ensures AsksPassword(r) || r.CompleteLogin? ==> OnlyBurned(p, After(p, r, ready, mac).policy)
  {
    if r.VerifyEnrollment? {
      MarksKeepRows(p.enrollments, r.token, r.confirmation);
    } else if r.ConfirmEnrollment? {
      MarksKeepRows(p.enrollments, r.confirmation, r.confirmation);
    }
  }

  lemma ForwardOnward(p: Policy, q: Policy, r: Policy)
    requires OnlyForward(p, q) && OnlyForward(q, r)
    ensures OnlyForward(p, r)
  {}

  /**
    Over every run in which nobody has the password: password login stays as it
    was, no provider is unbound, TOTP is not turned off and no enrollment is
    started or dropped; and if no enrollment or binding is completed either,
    nothing but burned factors changes.
   */
  lemma {:induction false} RunWithoutPassword(p: Policy, requests: seq<Request>, ready: set<Provider>, mac: Mac)
    requires forall k :: 0 <= k < |requests| && AsksPassword(requests[k]) ==> !requests[k].passwordOk
    ensures OnlyForward(p, Run(p, requests, ready, mac))
    ensures (forall k :: 0 <= k < |requests| ==> AsksPassword(requests[k]) || requests[k].CompleteLogin?) ==>
      OnlyBurned(p, Run(p, requests, ready, mac))
    decreases |requests|
  {
    if requests != [] {
      var next := After(p, requests[0], ready, mac).policy;
      StepWithoutPassword(p, requests[0], ready, mac);
      RunWithoutPassword(next, requests[1..], ready, mac);
      ForwardOnward(p, next, Run(p, requests, ready, mac));
      assert forall k :: 0 <= k < |requests| - 1 ==> requests[1..][k] == requests[k + 1];
    }
  }

  /** Some ready provider is bound. */
  ghost predicate Usable(bound: set<Provider>, ready: set<Provider>) {
    exists provider :: provider in bound && provider in ready
  }

  lemma UsableIs(bound: set<Provider>, ready: set<Provider>)
    ensures Usable(bound, ready) <==> ExternalUsable(bound, ready)
  {
    if provider :| provider in bound && provider in ready {
      assert provider in bound * ready;
    }
  }

  // --- Each request -----------------------------------------------------------------------

  /** A login: password login is open, or no provider could be used instead; and the
      factor is good. */
  lemma LoginEffect(p: Policy, ready: set<Provider>, code: string, recovery: Option<string>, now: int, mac: Mac)
    ensures var s := After(p, CompleteLogin(code, recovery, now), ready, mac);
      var open := p.passwordEnabled || !Usable(p.bound, ready);
      && (s.outcome.Done? <==> open && Good(p, code, recovery, now, mac))
      && (s.outcome.PasswordLoginDisabled? <==> !open)
      && s.policy == (if s.outcome.Done? then Spent(p, code, recovery, now, mac) else p)
  {
    UsableIs(p.bound, ready);
  }

  lemma ProveEffect(p: Policy, ready: set<Provider>, passwordOk: bool, code: string, recovery: Option<string>, now: int, mac: Mac)
    ensures var s := After(p, Request.Prove(passwordOk, code, recovery, now), ready, mac);
      && (s.outcome.Done? <==> passwordOk && Proves(p, code, recovery, now, mac))
      && (!s.outcome.Done? ==> s.outcome.InvalidCredentials?)
      && s.policy == (if s.outcome.Done? then Proved(p, code, recovery, now, mac) else p)
  {}

  /** Starting an enrollment leaves one fresh row for half an hour. */
  lemma StartEffect(p: Policy, ready: set<Provider>, passwordOk: bool, token: string, key: Bytes, now: int, mac: Mac)
    ensures var s := After(p, StartEnrollment(passwordOk, token, key, now), ready, mac);
      && (s.outcome.Done? <==>
            passwordOk && !p.totpRequired && forall k :: 0 <= k < |p.enrollments| ==> !p.enrollments[k].confirmed)
      && (s.outcome.AlreadyEnrolled? <==> passwordOk && p.totpRequired)
      && s.policy == p.(enrollments := if s.outcome.Done? then [Enrollment(token, key, None, now + 1800, false, false)]
                                       else p.enrollments)
  {}

  /** Verifying marks the pending row and stores the recovery codes unused. */
  lemma VerifyEffect(p: Policy, ready: set<Provider>, token: string, code: string, confirmation: string, hashes: seq<string>,
                     now: int, mac: Mac)
    requires NoLockout(p, ready)
    ensures var s := After(p, VerifyEnrollment(token, code, confirmation, hashes, now), ready, mac);
      && (s.outcome.Done? <==>
            && |p.enrollments| == 1 && p.enrollments[0].token == token && p.enrollments[0].expiresAt > now
            && !p.enrollments[0].verified && Matching(p.enrollments[0].key, code, now, mac).Some?
            && (forall k :: 0 <= k < |hashes| ==> hashes[k] !in p.recoveryCodes)
            && (forall j, k :: 0 <= j < k < |hashes| ==> hashes[j] != hashes[k]))
      && (!s.outcome.Done? ==> s.policy == p)
      && (s.outcome.Done? ==>
            && s.policy == p.(enrollments := [p.enrollments[0].(verified := true, confirmation := Some(confirmation))],
                              recoveryCodes := s.policy.recoveryCodes)
            && s.policy.recoveryCodes.Keys == p.recoveryCodes.Keys + (set k | 0 <= k < |hashes| :: hashes[k])
            && forall h :: h in s.policy.recoveryCodes ==>
                 s.policy.recoveryCodes[h] == (h in p.recoveryCodes && p.recoveryCodes[h]))
  {
    VerifyOutcome(p, ready, token, code, confirmation, hashes, now, mac);
    if AfterVerify(p, token, code, confirmation, hashes, now, mac).outcome.Done? {
      VerifiedRow(p, ready, token, code, confirmation, hashes, now, mac);
      CodesStored(p.recoveryCodes, hashes);
    }
  }

  lemma VerifyOutcome(p: Policy, ready: set<Provider>, token: string, code: string, confirmation: string, hashes: seq<string>,
                      now: int, mac: Mac)
    requires NoLockout(p, ready)
    ensures AfterVerify(p, token, code, confirmation, hashes, now, mac).outcome.Done? <==>
      && |p.enrollments| == 1 && p.enrollments[0].token == token && p.enrollments[0].expiresAt > now
      && !p.enrollments[0].verified && Matching(p.enrollments[0].key, code, now, mac).Some? && Fresh(p.recoveryCodes, hashes)
  {
    if p.enrollments != [] {
      assert p.enrollments == [p.enrollments[0]] && [p.enrollments[0]][1..] == [];
      assert Pending(p.enrollments[0], token, now) ==> FindByToken(p.enrollments, token, now) == Some(p.enrollments[0]);
    }
  }

  lemma CodesStored(codes: map<string, bool>, hashes: seq<string>)
    requires Fresh(codes, hashes)
    ensures WithCodes(codes, hashes).Keys == codes.Keys + (set k | 0 <= k < |hashes| :: hashes[k])
    ensures forall h :: h in WithCodes(codes, hashes) ==> WithCodes(codes, hashes)[h] == (h in codes && codes[h])
  {
    forall h ensures h in WithCodes(codes, hashes) <==> h in codes || h in hashes {
      WithCodesContains(codes, hashes, h);
    }
    forall h | h in WithCodes(codes, hashes) ensures WithCodes(codes, hashes)[h] == (h in codes && codes[h]) {
      WithCodesContains(codes, hashes, h);
      if h in hashes {
        NewCodesUnused(codes, hashes, h);
      }
    }
  }

  lemma {:induction false} NewCodesUnused(codes: map<string, bool>, hashes: seq<string>, h: string)
    requires h in hashes
    ensures h in WithCodes(codes, hashes) && !WithCodes(codes, hashes)[h]
  {
    var n := |hashes| - 1;
    InInitOrLast(hashes, h);
    if h != hashes[n] {
      NewCodesUnused(codes, hashes[..n], h);
    }
  }

  /** Confirming marks the verified row and turns TOTP on. */
  lemma ConfirmEffect(p: Policy, ready: set<Provider>, confirmation: string, now: int, mac: Mac)
    requires NoLockout(p, ready)
    ensures var s := After(p, ConfirmEnrollment(confirmation, now), ready, mac);
      && (s.outcome.Done? <==>
            && |p.enrollments| == 1 && p.enrollments[0].confirmation == Some(confirmation) && p.enrollments[0].expiresAt > now
            && p.enrollments[0].verified && !p.enrollments[0].confirmed)
      && s.policy == (if s.outcome.Done?
                      then p.(enrollments := [p.enrollments[0].(confirmed := true)], totpRequired := true) else p)
  {
    if p.enrollments != [] {
      assert p.enrollments == [p.enrollments[0]];
      if Confirmable(p.enrollments[0], confirmation, now) {
        ConfirmedRow(p, p.enrollments[0], confirmation, now);
      }
    }
  }

  /** Disabling turns TOTP off and drops enrollment and recovery codes. */
  lemma DisableEffect(p: Policy, ready: set<Provider>, passwordOk: bool, code: string, now: int, mac: Mac)
    ensures var s := After(p, Disable(passwordOk, code, now), ready, mac);
      && (s.outcome.Done? <==> passwordOk && Good(p, code, None, now, mac))
      && (!s.outcome.Done? ==> s == Step(p, InvalidCredentials))
      && (s.outcome.Done? ==>
            && !s.policy.totpRequired && s.policy.enrollments == [] && s.policy.recoveryCodes == map[]
            && s.policy.passwordEnabled == p.passwordEnabled && s.policy.bound == p.bound
            && s.policy.lastCounter == Matching(p.enrollments[0].key, code, now, mac))
  {}

  /** The switch ends where it was asked to; closing it needs a usable provider. */
  lemma SwitchEffect(p: Policy, ready: set<Provider>, passwordOk: bool, code: string, enabled: bool, now: int, mac: Mac)
    ensures var s := After(p, SetPasswordLogin(passwordOk, code, enabled, now), ready, mac);
      && (s.outcome.Done? <==>
            && passwordOk && Proves(p, code, None, now, mac)
            && (enabled || !p.passwordEnabled || Usable(p.bound, ready)))
      && (s.outcome.InvalidCredentials? <==> !(passwordOk && Proves(p, code, None, now, mac)))
      && s.policy == (if s.outcome.InvalidCredentials? then p
                      else Proved(p, code, None, now, mac).(passwordEnabled := if s.outcome.Done? then enabled else p.passwordEnabled))
  {
    UsableIs(p.bound, ready);
  }

  /** A binding is made once. */
  lemma BindEffect(p: Policy, ready: set<Provider>, provider: Provider, mac: Mac)
    ensures var s := After(p, CompleteBinding(provider), ready, mac);
      && (s.outcome.Done? <==> provider !in p.bound) && (!s.outcome.Done? ==> s.outcome.Conflict?)
      && s.policy == p.(bound := p.bound + {provider})
  {}

  /** Unbinding removes the one provider; while password login is closed another usable
      one must stay. */
  lemma UnbindEffect(p: Policy, ready: set<Provider>, provider: Provider, passwordOk: bool, code: string, now: int, mac: Mac)
    ensures var s := After(p, Unbind(provider, passwordOk, code, now), ready, mac);
      && (s.outcome.Done? <==>
            && passwordOk && Proves(p, code, None, now, mac) && provider in p.bound
            && (p.passwordEnabled || Usable(p.bound - {provider}, ready)))
      && (s.outcome.InvalidCredentials? <==> !(passwordOk && Proves(p, code, None, now, mac)))
      && (s.outcome.NotFound? <==> passwordOk && Proves(p, code, None, now, mac) && provider !in p.bound)
      && s.policy == (if s.outcome.InvalidCredentials? then p
                      else Proved(p, code, None, now, mac).(bound := if s.outcome.Done? then p.bound - {provider} else p.bound))
  {
    UsableIs(p.bound - {provider}, ready);
  }
}
