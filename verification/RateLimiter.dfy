/** The authentication failure limiter and the login handler that gates on it. */
module RateLimiter {

  const FAILURE_LIMIT: int := 5
  const MAX_BUCKETS: int := 10_000
  /** Five minutes in nanoseconds. */
  const WINDOW: int := 300_000_000_000

  datatype Bucket = Bucket(count: int, windowStart: int)

  type Buckets = map<string, Bucket>

  predicate Live(b: Bucket, now: int) {
    now < b.windowStart + WINDOW
  }

  function Purged(m: Buckets, now: int): Buckets {
    map k | k in m && Live(m[k], now) :: m[k]
  }

  function AfterLimited(m: Buckets, key: string, now: int): Buckets {
    if key in m && Live(m[key], now) then m else m - {key}
  }

  predicate IsLimited(m: Buckets, key: string, now: int) {
    key in m && Live(m[key], now) && m[key].count >= FAILURE_LIMIT
  }

  /** Room is made before a new bucket: expired ones go, then one victim. */
  function MadeRoom(m: Buckets, now: int, victim: string): Buckets {
    if |m| < MAX_BUCKETS then m
    else if |Purged(m, now)| < MAX_BUCKETS then Purged(m, now)
    else Purged(m, now) - {victim}
  }

  function AfterFailed(m: Buckets, key: string, now: int, victim: string): Buckets {
    if key in m && Live(m[key], now) then m[key := m[key].(count := m[key].count + 1)]
    else MadeRoom(m, now, victim)[key := Bucket(1, now)]
  }

  lemma {:induction false} SubmapSize(small: Buckets, big: Buckets)
    requires small.Keys <= big.Keys
    ensures |small| <= |big|
    decreases |small|
  {
    if k :| k in small {
      assert small.Keys == (small - {k}).Keys + {k} && big.Keys == (big - {k}).Keys + {k};
      assert |small.Keys| == |small| && |big.Keys| == |big|;
      assert |(small - {k}).Keys| == |small - {k}| && |(big - {k}).Keys| == |big - {k}|;
      SubmapSize(small - {k}, big - {k});
    }
  }

  lemma PutSize(buckets: map<string, Bucket>, key: string, bucket: Bucket)
    ensures |buckets[key := bucket]| == |buckets| + (if key in buckets then 0 else 1)
  {
    assert buckets[key := bucket].Keys == buckets.Keys + {key};
    assert |buckets[key := bucket].Keys| == |buckets[key := bucket]| && |buckets.Keys| == |buckets|;
  }

  lemma DropSize(buckets: map<string, Bucket>, key: string)
    requires key in buckets
    ensures |buckets - {key}| == |buckets| - 1
  {
    assert (buckets - {key}).Keys == buckets.Keys - {key};
    assert |(buckets - {key}).Keys| == |buckets - {key}| && |buckets.Keys| == |buckets|;
  }

  class AuthFailureLimiter {
    var buckets: Buckets

    constructor ()
      ensures buckets == map[]
    {
      buckets := map[];
    }

    method Limited(key: string, now: int) returns (limited: bool, retryAfter: int)
      modifies this
      ensures buckets == AfterLimited(old(buckets), key, now)
      ensures limited <==> IsLimited(old(buckets), key, now)
      // Nobody is locked out past the end of the window.
      ensures limited ==> 0 < retryAfter && now + retryAfter == old(buckets)[key].windowStart + WINDOW
      ensures !limited ==> retryAfter == 0
    {
      if key !in buckets || !Live(buckets[key], now) {
        buckets := buckets - {key};
        return false, 0;
      }
      var bucket := buckets[key];
      if bucket.count < FAILURE_LIMIT {
        return false, 0;
      }
      return true, bucket.windowStart + WINDOW - now;
    }

    /** Deletes every expired bucket, in any order. */
    method Purge(now: int)
      modifies this
      ensures buckets == Purged(old(buckets), now)
    {
      var candidates := buckets.Keys;
      while candidates != {}
        invariant candidates <= old(buckets).Keys
        invariant forall k :: k in buckets <==> k in old(buckets) && (k in candidates || Live(old(buckets)[k], now))
        invariant forall k :: k in buckets ==> buckets[k] == old(buckets)[k]
        decreases |candidates|
      {
        var candidate :| candidate in candidates;
        candidates := candidates - {candidate};
        if !Live(buckets[candidate], now) {
          buckets := buckets - {candidate};
        }
      }
    }

    /** Records a failure; `victim` is the bucket dropped when none had expired. */
    method Failed(key: string, now: int) returns (victim: string)
      requires |buckets| <= MAX_BUCKETS
      modifies this
      ensures buckets == AfterFailed(old(buckets), key, now, victim)
      ensures |buckets| <= MAX_BUCKETS
      ensures key in buckets && Live(buckets[key], now)
    {
      victim := "";
      var bucket;
      if key in buckets && Live(buckets[key], now) {
        bucket := buckets[key];
      } else {
        if |buckets| >= MAX_BUCKETS {
          SubmapSize(Purged(buckets, now), buckets);
          Purge(now);
        }
        if |buckets| >= MAX_BUCKETS {
          victim :| victim in buckets;
          DropSize(buckets, victim);
          buckets := buckets - {victim};
        }
        bucket := Bucket(0, now);
      }
      PutSize(buckets, key, bucket.(count := bucket.count + 1));
      buckets := buckets[key := bucket.(count := bucket.count + 1)];
    }

    method Succeeded(key: string)
      modifies this
      ensures buckets == old(buckets) - {key}
    {
      buckets := buckets - {key};
    }

    /** Login around the credential check: refused while limited, a failure is
        recorded when the check is over, a success clears the key. */
    method Login(key: string, checkedAt: int, finishedAt: int, outcome: Outcome) returns (refused: bool, victim: string)
      requires |buckets| <= MAX_BUCKETS
      modifies this
      ensures |buckets| <= MAX_BUCKETS
      ensures buckets == AfterLogin(old(buckets), Attempt(key, checkedAt, finishedAt, outcome, victim))
      ensures refused <==> IsLimited(old(buckets), key, checkedAt)
    {
      victim := "";
      SubmapSize(AfterLimited(buckets, key, checkedAt), buckets);
      var retryAfter;
      refused, retryAfter := Limited(key, checkedAt);
      if refused { return; }
      match outcome {
        case BadCredentials => victim := Failed(key, finishedAt);
        case Accepted =>
          SubmapSize(buckets - {key}, buckets);
          Succeeded(key);
        case Other =>
      }
    }
  }

  /** Other: a malformed body, password login disabled, or an internal error. */
  datatype Outcome = BadCredentials | Accepted | Other

  datatype Attempt = Attempt(key: string, checkedAt: int, finishedAt: int, outcome: Outcome, victim: string)

  function AfterLogin(m: Buckets, a: Attempt): Buckets {
    var checked := AfterLimited(m, a.key, a.checkedAt);
    if IsLimited(m, a.key, a.checkedAt) then checked
    else match a.outcome
      case BadCredentials => AfterFailed(checked, a.key, a.finishedAt, a.victim)
      case Accepted => checked - {a.key}
      case Other => checked
  }

  // --- Runs -----------------------------------------------------------------

  function Run(attempts: seq<Attempt>): Buckets {
    if attempts == [] then map[] else AfterLogin(Run(attempts[..|attempts| - 1]), attempts[|attempts| - 1])
  }

  /** A counted failure: when, in which window, and the how-manieth there. */
  datatype Mark = Mark(at: int, windowStart: int, count: int)

  /** Every failure counted against `key` in the run. */
  function Counted(attempts: seq<Attempt>, key: string): seq<Mark> {
    if attempts == [] then []
    else
      var before := attempts[..|attempts| - 1];
      WithMark(Counted(before, key), Run(before), key, attempts[|attempts| - 1])
  }

  /** One request at a time on a clock that never runs backwards. */
  ghost predicate Sequential(attempts: seq<Attempt>) {
    && (forall k :: 0 <= k < |attempts| ==> attempts[k].checkedAt <= attempts[k].finishedAt)
    && (forall j, k :: 0 <= j < k < |attempts| ==> attempts[j].finishedAt <= attempts[k].checkedAt)
  }

  ghost predicate NeverCleared(attempts: seq<Attempt>, key: string) {
    forall k :: 0 <= k < |attempts| ==>
      && !(attempts[k].key == key && attempts[k].outcome == Accepted)
      && attempts[k].victim != key
  }

  /** The next failure is one more in the same window, or opens a later one. */
  ghost predicate FollowsOn(marks: seq<Mark>, k: nat)
    requires k + 1 < |marks|
  {
    || (marks[k + 1].windowStart == marks[k].windowStart && marks[k + 1].count == marks[k].count + 1)
    || (marks[k + 1].count == 1 && marks[k + 1].at >= marks[k].windowStart + WINDOW)
  }

  /** The counted failures form windows: each opens after the last one closed. */
  ghost predicate Windows(marks: seq<Mark>) {
    && (forall k :: 0 <= k < |marks| ==>
          && 1 <= marks[k].count <= FAILURE_LIMIT
          && marks[k].windowStart <= marks[k].at < marks[k].windowStart + WINDOW
          && (marks[k].count == 1 ==> marks[k].windowStart == marks[k].at))
    && (marks != [] ==> marks[0].count == 1)
    && (forall k :: 0 <= k < |marks| - 1 ==> FollowsOn(marks, k))
    && (forall j, k :: 0 <= j < k < |marks| ==> marks[j].at <= marks[k].at)
  }

  /** The table still holds the key's last window, or that window is over. */
  ghost predicate Tracks(m: Buckets, key: string, marks: seq<Mark>, now: int) {
    if marks == [] then key !in m
    else
      var last := marks[|marks| - 1];
      && last.at <= now
      && (if key in m then m[key] == Bucket(last.count, last.windowStart) else last.windowStart + WINDOW <= now)
  }

  lemma RoomKeeps(m: Buckets, now: int, victim: string, key: string)
    requires key != victim
    ensures key in MadeRoom(m, now, victim) ==> key in m && MadeRoom(m, now, victim)[key] == m[key]
    ensures key in m && Live(m[key], now) ==> key in MadeRoom(m, now, victim)
  {}

  predicate CountsFor(m: Buckets, key: string, a: Attempt) {
    a.key == key && a.outcome == BadCredentials && !IsLimited(m, key, a.checkedAt)
  }

  lemma OwnFailure(m: Buckets, a: Attempt)
    requires CountsFor(m, a.key, a) && a.checkedAt <= a.finishedAt
    ensures a.key in AfterLogin(m, a)
    ensures AfterLogin(m, a)[a.key] ==
      if a.key in m && Live(m[a.key], a.finishedAt) then m[a.key].(count := m[a.key].count + 1) else Bucket(1, a.finishedAt)
  {}

  lemma OtherAttempt(m: Buckets, key: string, a: Attempt)
    requires !CountsFor(m, key, a) && a.checkedAt <= a.finishedAt
    requires a.victim != key && !(a.key == key && a.outcome == Accepted)
    ensures key in AfterLogin(m, a) ==> key in m && AfterLogin(m, a)[key] == m[key]
    ensures key in m && Live(m[key], a.finishedAt) ==> key in AfterLogin(m, a)
  {
    var checked := AfterLimited(m, a.key, a.checkedAt);
    if a.key != key && a.outcome == BadCredentials && !IsLimited(m, a.key, a.checkedAt) {
      RoomKeeps(checked, a.finishedAt, a.victim, key);
    }
  }

  lemma WindowsExtend(marks: seq<Mark>, mark: Mark)
    requires Windows(marks) && 1 <= mark.count <= FAILURE_LIMIT && (marks == [] ==> mark.count == 1)
    requires mark.windowStart <= mark.at < mark.windowStart + WINDOW && (mark.count == 1 ==> mark.windowStart == mark.at)
    requires marks != [] ==>
      var last := marks[|marks| - 1];
      last.at <= mark.at
      && ((mark.windowStart == last.windowStart && mark.count == last.count + 1)
          || (mark.count == 1 && mark.at >= last.windowStart + WINDOW))
    ensures Windows(marks + [mark])
  {
    var longer, n := marks + [mark], |marks|;
    forall k | 0 <= k < |longer| - 1 ensures FollowsOn(longer, k) {
      assert k + 1 < n ==> FollowsOn(marks, k);
    }
    forall j, k | 0 <= j < k < |longer| ensures longer[j].at <= longer[k].at {
      assert k == n && j < n - 1 ==> marks[j].at <= marks[n - 1].at;
    }
  }

  function WithMark(marks: seq<Mark>, before: Buckets, key: string, a: Attempt): seq<Mark> {
    var after := AfterLogin(before, a);
    if CountsFor(before, key, a) && key in after
    then marks + [Mark(a.finishedAt, after[key].windowStart, after[key].count)]
    else marks
  }

  /** One attempt extends the key's windows by at most one counted failure. */
  lemma AttemptTracks(m: Buckets, key: string, marks: seq<Mark>, a: Attempt) returns (after: seq<Mark>)
    requires Windows(marks) && Tracks(m, key, marks, a.checkedAt)
    requires a.checkedAt <= a.finishedAt && a.victim != key && !(a.key == key && a.outcome == Accepted)
    ensures Windows(after) && Tracks(AfterLogin(m, a), key, after, a.finishedAt)
    ensures after == WithMark(marks, m, key, a)
  {
    if CountsFor(m, key, a) {
      OwnFailure(m, a);
      var b := AfterLogin(m, a)[key];
      var mark := Mark(a.finishedAt, b.windowStart, b.count);
      WindowsExtend(marks, mark);
      after := marks + [mark];
    } else {
      OtherAttempt(m, key, a);
      after := marks;
    }
  }

  lemma {:induction false} RunTracks(attempts: seq<Attempt>, key: string)
    requires Sequential(attempts) && NeverCleared(attempts, key)
    ensures Windows(Counted(attempts, key))
    ensures attempts == [] ==> Tracks(Run(attempts), key, Counted(attempts, key), 0)
    ensures attempts != [] ==>
      Tracks(Run(attempts), key, Counted(attempts, key), attempts[|attempts| - 1].finishedAt)
  {
    if attempts != [] {
      var n := |attempts| - 1;
      var before, a := attempts[..n], attempts[n];
      RunTracks(before, key);
      var m, marks := Run(before), Counted(before, key);
      if before != [] {
        assert before[n - 1].finishedAt <= a.checkedAt;
        TracksLater(m, key, marks, before[n - 1].finishedAt, a.checkedAt);
      } else {
        TracksNothing(m, key, marks, a.checkedAt);
      }
      var after := AttemptTracks(m, key, marks, a);
    }
  }

  lemma TracksLater(m: Buckets, key: string, marks: seq<Mark>, now: int, later: int)
    requires Tracks(m, key, marks, now) && now <= later
    ensures Tracks(m, key, marks, later)
  {}

  lemma TracksNothing(m: Buckets, key: string, marks: seq<Mark>, now: int)
    requires marks == [] && key !in m
    ensures Tracks(m, key, marks, now)
  {}

  /** The window after `marks[i]`'s opens at most 6 - count failures later. */
  lemma {:induction false} NextWindow(marks: seq<Mark>, i: nat) returns (j: nat)
    requires Windows(marks) && i < |marks| && i + 6 - marks[i].count < |marks|
    ensures i < j <= i + 6 - marks[i].count
    ensures marks[j].count == 1 && marks[j].at >= marks[i].windowStart + WINDOW
    decreases 6 - marks[i].count
  {
    assert FollowsOn(marks, i);
    if marks[i + 1].count == 1 && marks[i + 1].at >= marks[i].windowStart + WINDOW {
      j := i + 1;
    } else {
      j := NextWindow(marks, i + 1);
    }
  }

  lemma NineApart(marks: seq<Mark>, i: nat)
    requires Windows(marks) && i + 9 < |marks|
    ensures marks[i + 9].at >= marks[i].at + WINDOW
  {
    var j := NextWindow(marks, i);
    if marks[i].count > 1 {
      var k := NextWindow(marks, j);
    }
  }

  function CountIn(marks: seq<Mark>, start: int): nat {
    if marks == [] then 0
    else
      CountIn(marks[..|marks| - 1], start)
      + (if start <= marks[|marks| - 1].at < start + WINDOW then 1 else 0)
  }

  lemma WindowsInit(marks: seq<Mark>)
    requires marks != [] && Windows(marks)
    ensures Windows(marks[..|marks| - 1])
  {
    var init := marks[..|marks| - 1];
    forall k | 0 <= k < |init| - 1 ensures FollowsOn(init, k) {
      assert FollowsOn(marks, k);
    }
  }

  lemma CountOfLast(marks: seq<Mark>, start: int)
    requires marks != []
    ensures var last := marks[|marks| - 1];
      CountIn(marks, start) == CountIn(marks[..|marks| - 1], start) + (if start <= last.at < start + WINDOW then 1 else 0)
  {}

  lemma {:induction false} CountInBound(marks: seq<Mark>, start: int)
    requires Windows(marks)
    ensures CountIn(marks, start) <= 9 && CountIn(marks, start) <= |marks|
    ensures marks != [] && marks[|marks| - 1].at < start + WINDOW ==>
      forall k :: 0 <= k < |marks| ==> (|marks| - CountIn(marks, start) <= k <==> start <= marks[k].at)
  {
    if marks != [] {
      var n := |marks| - 1;
      var init := marks[..n];
      WindowsInit(marks);
      CountInBound(init, start);
      CountOfLast(marks, start);
      assert n > 0 ==> init[n - 1].at <= marks[n].at;
      if start <= marks[n].at < start + WINDOW && CountIn(init, start) == 9 {
        assert start <= init[n - 9].at;
        NineApart(marks, n - 9);
      }
    }
  }

  /** No window counts more than five failures, and no half-open five minutes
      more than nine. */
  lemma LimiterBound(attempts: seq<Attempt>, key: string, start: int)
    requires Sequential(attempts) && NeverCleared(attempts, key)
    ensures forall k :: 0 <= k < |Counted(attempts, key)| ==> 1 <= Counted(attempts, key)[k].count <= FAILURE_LIMIT
    ensures CountIn(Counted(attempts, key), start) <= 9
  {
    if attempts != [] {
      RunTracks(attempts, key);
      CountInBound(Counted(attempts, key), start);
    }
  }

  // --- With the numbers written out -------------------------------------------

  /** Limited: the fifth failure is in, and its window of five minutes is not over. */
  lemma LimitedExactly(m: Buckets, key: string, now: int)
    ensures IsLimited(m, key, now) <==>
      key in m && m[key].count >= 5 && now < m[key].windowStart + 300_000_000_000
  {}

  /** A failure counts in its live window or opens one now. With fewer than ten
      thousand keys no other moves; a full table loses expired keys and, if none
      has expired, the victim. */
  lemma FailedEffect(m: Buckets, key: string, now: int, victim: string)
    ensures var q := AfterFailed(m, key, now, victim);
      && key in q
      && q[key] == (if key in m && now < m[key].windowStart + 300_000_000_000
                    then Bucket(m[key].count + 1, m[key].windowStart) else Bucket(1, now))
      && (forall other :: other != key && other in q ==> other in m && q[other] == m[other])
      && (forall other :: other != key && other in m && other !in q ==>
            |m| >= 10_000 && (now >= m[other].windowStart + 300_000_000_000 || other == victim))
  {}

  /** The last five failures are the first five of a window that is not over. */
  ghost predicate LastFive(marks: seq<Mark>, now: int) {
    var n := |marks|;
    && n >= 5 && now < marks[n - 5].at + 300_000_000_000
    && forall i :: n - 5 <= i < n ==> marks[i].windowStart == marks[n - 5].at && marks[i].count == i - n + 6
  }

  /**
    Over every run: the key is limited exactly when its last five counted
    failures lie in one window that is not over. So the first four failures of a
    window never limit, and the fifth always does.
   */
  lemma LimitedExactlyAfterFive(attempts: seq<Attempt>, key: string, now: int)
    requires attempts != [] && Sequential(attempts) && NeverCleared(attempts, key)
    requires attempts[|attempts| - 1].finishedAt <= now
    ensures IsLimited(Run(attempts), key, now) <==> LastFive(Counted(attempts, key), now)
  {
    var m, marks := Run(attempts), Counted(attempts, key);
    RunTracks(attempts, key);
    TracksLater(m, key, marks, attempts[|attempts| - 1].finishedAt, now);
    TrackedLimit(m, key, marks, now);
  }

  lemma TrackedLimit(m: Buckets, key: string, marks: seq<Mark>, now: int)
    requires Windows(marks) && Tracks(m, key, marks, now)
    ensures IsLimited(m, key, now) <==> LastFive(marks, now)
  {
    if IsLimited(m, key, now) {
      Backwards(marks, |marks| - 1, 4);
    }
    if LastFive(marks, now) {
      assert marks[|marks| - 1].count == 5 && marks[|marks| - 1].windowStart == marks[|marks| - 5].at;
    }
  }

  /** The `k` failures before one of count above `k` are of the same window. */
  lemma {:induction false} Backwards(marks: seq<Mark>, i: nat, k: nat)
    requires Windows(marks) && i < |marks| && k < marks[i].count
    ensures k <= i
    ensures forall j :: i - k <= j <= i ==>
      marks[j].windowStart == marks[i].windowStart && marks[j].count == marks[i].count - (i - j)
    decreases k
  {
    if k > 0 {
      MarkBefore(marks, i);
      Backwards(marks, i - 1, k - 1);
    }
  }

  /** A failure that is not the first of its window follows one of it. */
  lemma MarkBefore(marks: seq<Mark>, i: nat)
    requires Windows(marks) && i < |marks| && marks[i].count > 1
    ensures i > 0 && marks[i - 1].windowStart == marks[i].windowStart && marks[i - 1].count == marks[i].count - 1
  {
    assert i > 0 && FollowsOn(marks, i - 1);
  }
}
