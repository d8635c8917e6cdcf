/**
  Creating the administrator, with the bootstrap transaction split at its
  statements and any number of such transactions interleaved. A transaction
  sees committed rows only; a row it is about to change or a key it is about to
  insert makes it wait for a transaction that has done so without committing.
 */
module Bootstrap {
  import opened Common

  datatype Phase = Began | Locked | Counted | Consumed | Configured | Inserted | Committed | Aborted

  datatype Tx = Tx(phase: Phase, code: string, member: string, now: int)

  datatype Code = Code(expiresAt: int, used: bool)

  /** A committed bootstrap: the code it consumed and the administrator it created. */
  datatype Record = Record(code: string, member: string)

  /** `configured` is the singleton organization row; `log` is the history. */
  datatype System = System(
    admins: set<string>, configured: bool, codes: map<string, Code>,
    holder: Option<nat>, txs: map<nat, Tx>, log: seq<Record>)

  datatype Event =
    | IssueCode(code: string, expiresAt: int)
    | Begin(id: nat, code: string, member: string, now: int)
    | AcquireLock(id: nat)
    | CountAdmins(id: nat)
    | ConsumeCode(id: nat)
    | InsertOrganization(id: nat)
    | InsertAdmin(id: nat)
    | Commit(id: nat)
    | Rollback(id: nat)

  predicate HasConsumed(t: Tx) {
    t.phase in {Consumed, Configured, Inserted}
  }

  predicate HasConfigured(t: Tx) {
    t.phase in {Configured, Inserted}
  }

  predicate Inside(t: Tx) {
    t.phase in {Locked, Counted, Consumed, Configured, Inserted}
  }

  predicate At(s: System, id: nat, phase: Phase) {
    id in s.txs && s.txs[id].phase == phase
  }

  function Moved(s: System, id: nat, phase: Phase): System
    requires id in s.txs
  {
    s.(txs := s.txs[id := s.txs[id].(phase := phase)])
  }

  /** The end of a transaction releases the advisory lock it holds. */
  function Ended(s: System, id: nat, phase: Phase): System
    requires id in s.txs
  {
    Moved(s, id, phase).(holder := if s.holder == Some(id) then None else s.holder)
  }

  predicate CodeRowFree(s: System, code: string) {
    forall j :: j in s.txs ==> !(HasConsumed(s.txs[j]) && s.txs[j].code == code)
  }

  predicate OrganizationFree(s: System) {
    forall j :: j in s.txs ==> !HasConfigured(s.txs[j])
  }

  /** One statement of one transaction. An event that is not enabled, or whose
      statement must wait, changes nothing. `locking` is false only to show
      what the advisory lock is for. */
  function Next(s: System, e: Event, locking: bool): System {
    match e
    case IssueCode(code, expiresAt) =>
      if code in s.codes then s else s.(codes := s.codes[code := Code(expiresAt, false)])
    case Begin(id, code, member, now) =>
      if id in s.txs then s else s.(txs := s.txs[id := Tx(Began, code, member, now)])
    case AcquireLock(id) =>
      if !At(s, id, Began) || (locking && s.holder.Some?) then s
      else Moved(s, id, Locked).(holder := if locking then Some(id) else s.holder)
    case CountAdmins(id) =>
      if !At(s, id, Locked) then s
      else if s.admins != {} then Ended(s, id, Aborted)
      else Moved(s, id, Counted)
    case ConsumeCode(id) =>
      if !At(s, id, Counted) || !CodeRowFree(s, s.txs[id].code) then s
      else if Usable(s.codes, s.txs[id].code, s.txs[id].now) then Moved(s, id, Consumed)
      else Ended(s, id, Aborted)
    case InsertOrganization(id) =>
      if !At(s, id, Consumed) || !OrganizationFree(s) then s
      else if s.configured then Ended(s, id, Aborted)
      else Moved(s, id, Configured)
    case InsertAdmin(id) =>
      if !At(s, id, Configured) then s
      else if s.txs[id].member in s.admins then Ended(s, id, Aborted)
      else Moved(s, id, Inserted)
    case Commit(id) =>
      if !At(s, id, Inserted) then s else CommittedState(s, id)
    case Rollback(id) =>
      if id !in s.txs || s.txs[id].phase in {Committed, Aborted} then s else Ended(s, id, Aborted)
  }

  predicate Usable(codes: map<string, Code>, code: string, now: int) {
    code in codes && !codes[code].used && codes[code].expiresAt > now
  }

  function CommittedState(s: System, id: nat): System
    requires id in s.txs
  {
    var t := s.txs[id];
    Ended(s, id, Committed).(
      admins := s.admins + {t.member}, configured := true,
      codes := if t.code in s.codes then s.codes[t.code := s.codes[t.code].(used := true)] else s.codes,
      log := s.log + [Record(t.code, t.member)])
  }

  function Empty(): System {
    System({}, false, map[], None, map[], [])
  }

  function Run(events: seq<Event>, locking: bool): System {
    if events == [] then Empty() else Next(Run(events[..|events| - 1], locking), events[|events| - 1], locking)
  }

  // --- Safety -----------------------------------------------------------------

  /** What is committed: nothing, or one administrator with one consumed code. */
  ghost predicate CommittedOnce(s: System) {
    && |s.log| <= 1
    && s.admins == (set k | 0 <= k < |s.log| :: s.log[k].member)
    && (s.configured <==> s.log != [])
    && (forall k :: 0 <= k < |s.log| ==> s.log[k].code in s.codes)
    && (forall c :: c in s.codes ==> (s.codes[c].used <==> exists k :: 0 <= k < |s.log| && s.log[k].code == c))
  }

  ghost predicate RowLocks(s: System) {
    && (forall i :: i in s.txs && HasConsumed(s.txs[i]) ==> s.txs[i].code in s.codes)
    && (forall i, j :: i in s.txs && j in s.txs && i != j ==>
          !(HasConsumed(s.txs[i]) && HasConsumed(s.txs[j]) && s.txs[i].code == s.txs[j].code))
    && (forall i :: i in s.txs && HasConfigured(s.txs[i]) ==> !s.configured)
    && (forall i, j :: i in s.txs && j in s.txs && HasConfigured(s.txs[i]) && HasConfigured(s.txs[j]) ==> i == j)
  }

  lemma MoveIsSafe(s: System, id: nat, t: Tx, holder: Option<nat>)
    requires CommittedOnce(s) && RowLocks(s)
    requires HasConsumed(t) ==> CodeRowFree(s, t.code) || (id in s.txs && HasConsumed(s.txs[id]) && s.txs[id].code == t.code)
    requires HasConsumed(t) ==> t.code in s.codes
    requires HasConfigured(t) ==> !s.configured
    requires HasConfigured(t) ==> OrganizationFree(s) || (id in s.txs && HasConfigured(s.txs[id]))
    ensures CommittedOnce(s.(txs := s.txs[id := t], holder := holder))
    ensures RowLocks(s.(txs := s.txs[id := t], holder := holder))
  {}

  /** A step that commits nothing moves one transaction, and only past free rows. */
  lemma NextIsMove(s: System, e: Event, locking: bool)
    requires CommittedOnce(s) && RowLocks(s) && !e.IssueCode? && Next(s, e, locking) != s && Next(s, e, locking).log == s.log
    ensures var q := Next(s, e, locking);
      && e.id in q.txs && q == s.(txs := s.txs[e.id := q.txs[e.id]], holder := q.holder)
      && var t := q.txs[e.id];
      && (HasConsumed(t) ==> t.code in s.codes)
      && (HasConsumed(t) ==> CodeRowFree(s, t.code) || (e.id in s.txs && HasConsumed(s.txs[e.id]) && s.txs[e.id].code == t.code))
      && (HasConfigured(t) ==> !s.configured && (OrganizationFree(s) || (e.id in s.txs && HasConfigured(s.txs[e.id]))))
  {}

  lemma NextIsSafe(s: System, e: Event, locking: bool)
    requires CommittedOnce(s) && RowLocks(s)
    ensures CommittedOnce(Next(s, e, locking)) && RowLocks(Next(s, e, locking))
  {
    var q := Next(s, e, locking);
    if e.IssueCode? || q == s {
    } else if q.log == s.log {
      NextIsMove(s, e, locking);
      MoveIsSafe(s, e.id, q.txs[e.id], q.holder);
    } else {
      CommitIsSafe(s, e.id);
    }
  }

  lemma CommitIsSafe(s: System, id: nat)
    requires CommittedOnce(s) && RowLocks(s) && At(s, id, Inserted)
    ensures CommittedOnce(CommittedState(s, id)) && RowLocks(CommittedState(s, id))
  {
    var t, q := s.txs[id], CommittedState(s, id);
    assert !s.configured && s.log == [] && q.log == [Record(t.code, t.member)];
    assert q.log[0].code == t.code && q.log[0].member == t.member;
  }

  lemma {:induction false} RunIsSafe(events: seq<Event>, locking: bool)
    ensures CommittedOnce(Run(events, locking)) && RowLocks(Run(events, locking))
  {
    if events != [] {
      var n := |events| - 1;
      RunIsSafe(events[..n], locking);
      NextIsSafe(Run(events[..n], locking), events[n], locking);
    }
  }

  /** In every interleaving at most one administrator is committed, and the
      codes consumed are exactly those of committed bootstraps: at most one,
      and none by a transaction that failed. */
  lemma SingleAdministrator(events: seq<Event>)
    ensures var s := Run(events, true);
      && |s.admins| == |s.log| <= 1
      && forall c :: c in s.codes ==> (s.codes[c].used <==> exists k :: 0 <= k < |s.log| && s.log[k].code == c)
  {
    RunIsSafe(events, true);
    var s := Run(events, true);
    if s.log == [] {
      assert s.admins == {};
    } else {
      assert s.admins == {s.log[0].member};
    }
  }

  // --- What the lock adds -----------------------------------------------------

  /** Only the holder is between lock and commit, and what it counted stays true. */
  ghost predicate Exclusive(s: System) {
    && (forall i :: i in s.txs && Inside(s.txs[i]) ==> s.holder == Some(i))
    && (forall i :: i in s.txs && Inside(s.txs[i]) && s.txs[i].phase != Locked ==> s.admins == {})
  }

  lemma NextIsExclusive(s: System, e: Event)
    requires Exclusive(s)
    ensures Exclusive(Next(s, e, true))
  {}

  lemma {:induction false} RunIsExclusive(events: seq<Event>)
    ensures Exclusive(Run(events, true))
  {
    if events != [] {
      var n := |events| - 1;
      RunIsExclusive(events[..n]);
      NextIsExclusive(Run(events[..n], true), events[n]);
    }
  }

  lemma CountedProceeds(s: System, id: nat)
    requires Exclusive(s)
    ensures At(s, id, Counted) ==> CodeRowFree(s, s.txs[id].code)
    ensures At(s, id, Inserted) ==> Next(s, Commit(id), true).admins == {s.txs[id].member}
  {}

  lemma ConsumedProceeds(s: System, id: nat)
    requires Exclusive(s) && CommittedOnce(s)
    ensures At(s, id, Consumed) ==> At(Next(s, InsertOrganization(id), true), id, Configured)
    ensures At(s, id, Configured) ==> At(Next(s, InsertAdmin(id), true), id, Inserted)
  {
    assert s.log != [] ==> s.log[0].member in s.admins;
  }

  /** With the lock, a transaction past the count neither waits for another one
      nor fails for a reason other than its own code: losers are told about the
      conflict by the count. */
  lemma PastTheCountNothingInterferes(events: seq<Event>, id: nat)
    ensures var s := Run(events, true);
      && (At(s, id, Counted) ==> CodeRowFree(s, s.txs[id].code))
      && (At(s, id, Consumed) ==> At(Next(s, InsertOrganization(id), true), id, Configured))
      && (At(s, id, Configured) ==> At(Next(s, InsertAdmin(id), true), id, Inserted))
      && (At(s, id, Inserted) ==> Next(s, Commit(id), true).admins == {s.txs[id].member})
  {
    RunIsSafe(events, true);
    RunIsExclusive(events);
    CountedProceeds(Run(events, true), id);
    ConsumedProceeds(Run(events, true), id);
  }

  function Two(first: Phase, second: Phase): System {
    System({}, false, map["code" := Code(9, false)], None,
           map[1 := Tx(first, "code", "first", 0), 2 := Tx(second, "code", "second", 0)], [])
  }

  lemma Pushed(events: seq<Event>, e: Event) returns (longer: seq<Event>)
    ensures longer == events + [e] && Run(longer, false) == Next(Run(events, false), e, false)
  {
    longer := events + [e];
    assert longer[..|events|] == events;
  }

  lemma BothBegin() returns (events: seq<Event>)
    ensures Run(events, false) == Two(Began, Began)
  {
    events := Pushed([], IssueCode("code", 9));
    events := Pushed(events, Begin(1, "code", "first", 0));
    events := Pushed(events, Begin(2, "code", "second", 0));
    var s := Run(events, false);
    assert s.txs == Two(Began, Began).txs && s.codes == Two(Began, Began).codes;
  }

  lemma MovedTwo(p: Phase, q: Phase, r: Phase)
    ensures Moved(Two(p, q), 1, r) == Two(r, q) && Moved(Two(p, q), 2, r) == Two(p, r)
  {
    assert Moved(Two(p, q), 1, r).txs == Two(r, q).txs;
    assert Moved(Two(p, q), 2, r).txs == Two(p, r).txs;
  }

  lemma BothCount() returns (events: seq<Event>)
    ensures Run(events, false) == Two(Counted, Counted)
  {
    events := BothBegin();
    MovedTwo(Began, Began, Locked);
    events := Pushed(events, AcquireLock(1));
    MovedTwo(Locked, Began, Locked);
    events := Pushed(events, AcquireLock(2));
    MovedTwo(Locked, Locked, Counted);
    events := Pushed(events, CountAdmins(1));
    MovedTwo(Counted, Locked, Counted);
    events := Pushed(events, CountAdmins(2));
  }

  lemma FirstConsumes() returns (events: seq<Event>)
    ensures Run(events, false) == Two(Consumed, Counted)
  {
    events := BothCount();
    MovedTwo(Counted, Counted, Consumed);
    events := Pushed(events, ConsumeCode(1));
  }

  lemma FirstInserts() returns (events: seq<Event>)
    ensures Run(events, false) == Two(Inserted, Counted)
  {
    events := FirstConsumes();
    MovedTwo(Consumed, Counted, Configured);
    events := Pushed(events, InsertOrganization(1));
    MovedTwo(Configured, Counted, Inserted);
    events := Pushed(events, InsertAdmin(1));
  }

  /** Without the lock a count of zero can be out of date: a transaction that
      counted no administrator goes on while another one has committed. */
  lemma WithoutTheLockCountsGoStale()
    ensures exists events, id :: At(Run(events, false), id, Counted) && Run(events, false).admins != {}
  {
    var events := FirstInserts();
    events := Pushed(events, Commit(1));
    assert At(Run(events, false), 2, Counted) && "first" in Run(events, false).admins;
  }

  // --- One bootstrap on its own -------------------------------------------------

  /** Nobody else is between taking the lock and the end of a transaction. */
  ghost predicate Quiet(s: System) {
    s.holder.None? && forall j :: j in s.txs ==> !Inside(s.txs[j])
  }

  /** The code was issued, never used, and has not run out. */
  ghost predicate LiveCode(s: System, code: string, now: int) {
    code in s.codes && !s.codes[code].used && now < s.codes[code].expiresAt
  }

  /** All statements of one bootstrap, in order. */
  function Bootstrapped(s: System, id: nat, code: string, member: string, now: int): System {
    var s1 := Next(Next(s, Begin(id, code, member, now), true), AcquireLock(id), true);
    var s2 := Next(Next(s1, CountAdmins(id), true), ConsumeCode(id), true);
    var s3 := Next(Next(s2, InsertOrganization(id), true), InsertAdmin(id), true);
    Next(s3, Commit(id), true)
  }

  /** Only the transaction, and the lock while it runs, differ. */
  ghost predicate Started(s: System, q: System, id: nat, code: string, member: string, now: int, phase: Phase) {
    && q == s.(txs := q.txs, holder := q.holder)
    && q.txs == s.txs[id := Tx(phase, code, member, now)]
    && q.holder == (if phase == Aborted then None else Some(id))
  }

  lemma Acquires(s: System, id: nat, code: string, member: string, now: int)
    requires Quiet(s) && id !in s.txs
    ensures Started(s, Next(Next(s, Begin(id, code, member, now), true), AcquireLock(id), true), id, code, member, now, Locked)
  {}

  lemma Consumes(s: System, q: System, id: nat, code: string, member: string, now: int)
    requires Quiet(s) && id !in s.txs && Started(s, q, id, code, member, now, Locked)
    ensures Started(s, Next(Next(q, CountAdmins(id), true), ConsumeCode(id), true), id, code, member, now,
                    if s.admins == {} && LiveCode(s, code, now) then Consumed else Aborted)
  {}

  lemma Inserts(s: System, q: System, id: nat, code: string, member: string, now: int)
    requires Quiet(s) && id !in s.txs && Started(s, q, id, code, member, now, Consumed)
    requires !s.configured && s.admins == {}
    ensures Started(s, Next(Next(q, InsertOrganization(id), true), InsertAdmin(id), true), id, code, member, now, Inserted)
  {}

  lemma StaysAborted(s: System, q: System, id: nat, code: string, member: string, now: int)
    requires Started(s, q, id, code, member, now, Aborted)
    ensures Next(Next(Next(q, InsertOrganization(id), true), InsertAdmin(id), true), Commit(id), true) == q
  {}

  lemma Commits(s: System, q: System, id: nat, code: string, member: string, now: int)
    requires Started(s, q, id, code, member, now, Inserted) && code in s.codes
    ensures var r := Next(q, Commit(id), true);
      && r.admins == s.admins + {member} && r.configured && r.holder.None?
      && r.codes == s.codes[code := Code(s.codes[code].expiresAt, true)]
      && r.txs == s.txs[id := Tx(Committed, code, member, now)]
  {}

  /**
    A bootstrap that runs alone creates its administrator exactly when there is
    none and its code was issued, is unused and has not run out; then that code
    is used up and no other. Otherwise administrators and codes stay.
   */
  lemma BootstrapSucceedsExactlyWhen(s: System, id: nat, code: string, member: string, now: int)
    requires Quiet(s) && id !in s.txs && (s.configured <==> s.admins != {})
    ensures var r := Bootstrapped(s, id, code, member, now);
      if s.admins == {} && LiveCode(s, code, now) then
        && r.admins == {member} && r.configured && At(r, id, Committed)
        && r.codes == s.codes[code := Code(s.codes[code].expiresAt, true)]
      else
        r.admins == s.admins && r.configured == s.configured && r.codes == s.codes && At(r, id, Aborted)
  {
    var s1 := Next(Next(s, Begin(id, code, member, now), true), AcquireLock(id), true);
    Acquires(s, id, code, member, now);
    var s2 := Next(Next(s1, CountAdmins(id), true), ConsumeCode(id), true);
    Consumes(s, s1, id, code, member, now);
    if s.admins == {} && LiveCode(s, code, now) {
      Inserts(s, s2, id, code, member, now);
      Commits(s, Next(Next(s2, InsertOrganization(id), true), InsertAdmin(id), true), id, code, member, now);
    } else {
      StaysAborted(s, s2, id, code, member, now);
    }
  }

  /** A transaction past the consume step found its code live, and it still is. */
  ghost predicate ConsumedLive(s: System) {
    && (forall i :: i in s.txs && HasConsumed(s.txs[i]) ==>
          s.txs[i].code in s.codes && s.txs[i].now < s.codes[s.txs[i].code].expiresAt)
    && (forall k :: 0 <= k < |s.log| ==> WasLive(s, s.log[k]))
  }

  /** Some committed transaction presented the code in time. */
  ghost predicate WasLive(s: System, r: Record) {
    exists i :: Presented(s, r, i)
  }

  ghost predicate Presented(s: System, r: Record, i: nat) {
    && At(s, i, Committed) && s.txs[i].code == r.code && s.txs[i].member == r.member
    && r.code in s.codes && s.txs[i].now < s.codes[r.code].expiresAt
  }

  lemma PresentedStays(s: System, e: Event, locking: bool, r: Record, i: nat)
    requires Presented(s, r, i)
    ensures Presented(Next(s, e, locking), r, i)
  {}

  lemma ConsumedStaysLive(s: System, e: Event, locking: bool, i: nat)
    requires ConsumedLive(s) && i in Next(s, e, locking).txs && HasConsumed(Next(s, e, locking).txs[i])
    ensures var q := Next(s, e, locking); q.txs[i].code in q.codes && q.txs[i].now < q.codes[q.txs[i].code].expiresAt
  {
    CodesStay(s, e, locking, Next(s, e, locking).txs[i].code);
    ConsumerWas(s, e, locking, i);
  }

  lemma CodesStay(s: System, e: Event, locking: bool, code: string)
    ensures var q := Next(s, e, locking);
      code in s.codes ==> code in q.codes && q.codes[code].expiresAt == s.codes[code].expiresAt
  {}

  lemma ConsumerWas(s: System, e: Event, locking: bool, i: nat)
    requires i in Next(s, e, locking).txs && HasConsumed(Next(s, e, locking).txs[i])
    ensures var t := Next(s, e, locking).txs[i];
      && i in s.txs && s.txs[i].code == t.code && s.txs[i].now == t.now
      && (HasConsumed(s.txs[i]) || (t.code in s.codes && t.now < s.codes[t.code].expiresAt))
  {}

  lemma LogGrows(s: System, e: Event, locking: bool, k: nat)
    requires ConsumedLive(s) && k < |Next(s, e, locking).log|
    ensures WasLive(Next(s, e, locking), Next(s, e, locking).log[k])
  {
    var q := Next(s, e, locking);
    if k < |s.log| {
      assert WasLive(s, s.log[k]) && q.log[k] == s.log[k];
      var i :| Presented(s, s.log[k], i);
      PresentedStays(s, e, locking, s.log[k], i);
    } else {
      assert e.Commit? && At(s, e.id, Inserted) && HasConsumed(s.txs[e.id]);
      assert Presented(q, q.log[k], e.id);
    }
  }

  lemma NextConsumesLive(s: System, e: Event, locking: bool)
    requires ConsumedLive(s)
    ensures ConsumedLive(Next(s, e, locking))
  {
    var q := Next(s, e, locking);
    forall i | i in q.txs && HasConsumed(q.txs[i])
      ensures q.txs[i].code in q.codes && q.txs[i].now < q.codes[q.txs[i].code].expiresAt
    {
      ConsumedStaysLive(s, e, locking, i);
    }
    forall k | 0 <= k < |q.log| ensures WasLive(q, q.log[k]) {
      LogGrows(s, e, locking, k);
    }
  }

  /** Over every run, with or without the lock: each administrator was created by a
      transaction whose code was issued and had not run out. */
  lemma {:induction false} AdministratorsHadLiveCodes(events: seq<Event>, locking: bool)
    ensures ConsumedLive(Run(events, locking))
  {
    if events != [] {
      AdministratorsHadLiveCodes(events[..|events| - 1], locking);
      NextConsumesLive(Run(events[..|events| - 1], locking), events[|events| - 1], locking);
    }
  }
}
