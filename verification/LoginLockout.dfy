/** Login with an escalating lockout: after five failures every further failure locks the login, for
    longer the more failures there have been, and a success does not reset the count.
 */
module LoginLockout {
  import opened Wrappers

  datatype Method = Password | Pin

  /** The stored authentication settings; times are in milliseconds. */
  datatype Settings = Settings(
    loginMethod: Method, username: Option<string>, credentialHash: Option<string>,
    failedAttempts: Option<nat>, lockoutUntil: Option<int>)

  /** One call: the clock when it starts, its second reading before the hash is checked, the clock after
      that, what was supplied, and whether the stored hash matches. */
  datatype Call = Call(start: int, again: int, end: int, username: Option<string>, matches: bool)

  datatype VerifyResult = Valid | LockedOut(retryAfter: int) | Invalid

  const MINUTE := 60 * 1000
  const LOCKOUT_ESCALATION_MINUTES: seq<nat> := [5, 15, 60, 1440]

  function GetLockoutDuration(cycle: nat): int
  {
    LOCKOUT_ESCALATION_MINUTES[if cycle < 3 then cycle else 3] * MINUTE
  }

  function Attempts(s: Settings): nat
  {
    if s.failedAttempts.Some? then s.failedAttempts.value else 0
  }

  function Recorded(s: Settings, now: int): Settings
  {
    var attempts := Attempts(s) + 1;
    s.(failedAttempts := Some(attempts),
       lockoutUntil := if attempts >= 5 then Some(now + GetLockoutDuration(attempts / 5 - 1)) else s.lockoutUntil)
  }

  predicate IsLocked(s: Settings, now: int)
  {
    s.lockoutUntil.Some? && s.lockoutUntil.value > now
  }

  /** The smallest whole number of seconds that is not shorter. */
  function CeilSeconds(ms: int): int
  {
    (ms + 999) / 1000
  }

  predicate WrongUsername(s: Settings, username: Option<string>)
  {
    && s.loginMethod == Password && username.Some?
    && s.username.Some? && s.username.value != "" && username.value != s.username.value
  }

  predicate HasHash(s: Settings)
  {
    s.credentialHash.Some? && s.credentialHash.value != ""
  }

  /** A call up to the check of the hash, which runs asynchronously: refused at once, or still hashing. */
  datatype Checked = Refused(result: VerifyResult) | Hashing

  function CheckStep(s: Settings, start: int, again: int, username: Option<string>): (Checked, Settings)
  {
    if IsLocked(s, start) then (Refused(LockedOut(CeilSeconds(s.lockoutUntil.value - again))), s)
    else if WrongUsername(s, username) then (Refused(Invalid), Recorded(s, again))
    else if !HasHash(s) then (Refused(Invalid), s)
    else (Hashing, s)
  }

  function SettleStep(s: Settings, now: int, matches: bool): (VerifyResult, Settings)
  {
    if !matches then (Invalid, Recorded(s, now)) else (Valid, s.(lockoutUntil := None))
  }

  /** A call that no other call overlaps. */
  function VerifyStep(s: Settings, c: Call): (VerifyResult, Settings)
  {
    match CheckStep(s, c.start, c.again, c.username)
    case (Refused(r), t) => (r, t)
    case (Hashing, t) => SettleStep(t, c.end, c.matches)
  }

  /** The store as the program runs it. */
  class AuthStore {
    var loginMethod: Method
    var username: Option<string>
    var credentialHash: Option<string>
    var failedAttempts: Option<nat>
    var lockoutUntil: Option<int>

    function State(): Settings
      reads this
    {
      Settings(loginMethod, username, credentialHash, failedAttempts, lockoutUntil)
    }

    constructor (loginMethod: Method, username: Option<string>, credentialHash: string)
      ensures State() == Settings(loginMethod, username, Some(credentialHash), Some(0), None)
    {
      this.loginMethod, this.username, this.credentialHash := loginMethod, username, Some(credentialHash);
      failedAttempts, lockoutUntil := Some(0), None;
    }

    method RecordFailedAttempt(now: int)
      modifies this`failedAttempts, this`lockoutUntil
      ensures State() == Recorded(old(State()), now)
    {
      var attempts := (if failedAttempts.Some? then failedAttempts.value else 0) + 1;
      failedAttempts := Some(attempts);
      if attempts >= 5 {
        var lockoutCycle := attempts / 5 - 1;
        lockoutUntil := Some(now + GetLockoutDuration(lockoutCycle));
      }
    }

    /** The part of verifyCredential before it waits for the hash. */
    method CheckLogin(start: int, again: int, supplied: Option<string>) returns (r: Checked)
      modifies this`failedAttempts, this`lockoutUntil
      ensures (r, State()) == CheckStep(old(State()), start, again, supplied)
    {
      if lockoutUntil.Some? && lockoutUntil.value > start {
        return Refused(LockedOut(CeilSeconds(lockoutUntil.value - again)));
      }
      if loginMethod == Password && supplied.Some? {
        if username.Some? && username.value != "" && supplied.value != username.value {
          RecordFailedAttempt(again);
          return Refused(Invalid);
        }
      }
      if credentialHash.None? || credentialHash.value == "" {
        return Refused(Invalid);
      }
      r := Hashing;
    }

    /** The part after it. */
    method SettleLogin(now: int, matches: bool) returns (r: VerifyResult)
      modifies this`failedAttempts, this`lockoutUntil
      ensures (r, State()) == SettleStep(old(State()), now, matches)
    {
      if !matches {
        RecordFailedAttempt(now);
        return Invalid;
      }
      lockoutUntil := None;
      return Valid;
    }

    method VerifyCredential(c: Call) returns (r: VerifyResult)
      modifies this`failedAttempts, this`lockoutUntil
      ensures (r, State()) == VerifyStep(old(State()), c)
    {
      var checked := CheckLogin(c.start, c.again, c.username);
      if checked.Refused? {
        return checked.result;
      }
      r := SettleLogin(c.end, c.matches);
    }
  }

  // ---------------------------------------------------------------------------------------------
  // Who gets in
  // ---------------------------------------------------------------------------------------------

  /** A lock that ends after the time. */
  predicate LockedAt(s: Settings, now: int)
  {
    s.lockoutUntil.Some? && now < s.lockoutUntil.value
  }

  /** Both a name and a different stored one, for a login by password. */
  predicate NamesDiffer(s: Settings, supplied: Option<string>)
  {
    s.loginMethod == Password && supplied.Some? && s.username.Some? && s.username != Some("") && supplied != s.username
  }

  predicate CanMatch(s: Settings)
  {
    s.credentialHash.Some? && s.credentialHash != Some("")
  }

  /** Each verdict, exactly. */
  lemma VerdictIsExact(s: Settings, c: Call)
    ensures var r := VerifyStep(s, c).0;
            && (r.Valid? <==> !LockedAt(s, c.start) && !NamesDiffer(s, c.username) && CanMatch(s) && c.matches)
            && (r.LockedOut? <==> LockedAt(s, c.start))
            && (r.Invalid? <==> !LockedAt(s, c.start) && (NamesDiffer(s, c.username) || !CanMatch(s) || !c.matches))
  {
  }

  /** What a call leaves behind: a success lifts the lock and keeps the count; a wrong name, or a mismatch of
      an existing hash, on a login that is not locked counts as one failure; nothing else changes anything. */
  lemma VerifyChangesExactly(s: Settings, c: Call)
    ensures var (r, s') := VerifyStep(s, c);
            var failed := !LockedAt(s, c.start) && (NamesDiffer(s, c.username) || (CanMatch(s) && !c.matches));
            && s'.loginMethod == s.loginMethod && s'.username == s.username && s'.credentialHash == s.credentialHash
            && (r.Valid? ==> s'.failedAttempts == s.failedAttempts && s'.lockoutUntil == None)
            && (failed ==> s'.failedAttempts == Some(1 + if s.failedAttempts.Some? then s.failedAttempts.value else 0))
            && (!r.Valid? && !failed ==> s' == s)
  {
  }

  /** The two halves of a call, for calls that overlap: the first admits to the hash check exactly an unlocked
      login with a stored hash and no wrong name, and the second lets in exactly who matches. */
  lemma HalvesAreExact(s: Settings, start: int, again: int, username: Option<string>, now: int, matches: bool)
    ensures CheckStep(s, start, again, username).0.Hashing? <==>
            !LockedAt(s, start) && !NamesDiffer(s, username) && CanMatch(s)
    ensures CheckStep(s, start, again, username).0.Hashing? ==> CheckStep(s, start, again, username).1 == s
    ensures CheckStep(s, start, again, username).0 == Refused(Invalid) <==>
            !LockedAt(s, start) && (NamesDiffer(s, username) || !CanMatch(s))
    ensures SettleStep(s, now, matches).0 == if matches then Valid else Invalid
    ensures matches ==> SettleStep(s, now, matches).1 == s.(lockoutUntil := None)
    ensures !matches ==> Attempts(SettleStep(s, now, matches).1) == Attempts(s) + 1
  {
  }

  // ---------------------------------------------------------------------------------------------
  // Runs
  // ---------------------------------------------------------------------------------------------

  /** Calls do not overlap and the clock does not run backwards. */
  ghost predicate InTime(calls: seq<Call>)
  {
    && (forall i :: 0 <= i < |calls| ==> calls[i].start <= calls[i].again <= calls[i].end)
    && (forall i :: 0 < i < |calls| ==> calls[i - 1].end <= calls[i].start)
  }

  function Run(s: Settings, calls: seq<Call>): Settings
  {
    if calls == [] then s else VerifyStep(Run(s, calls[..|calls| - 1]), calls[|calls| - 1]).1
  }

  /** A call counts as a failure when it raises the number of failed attempts. */
  predicate Fails(s: Settings, c: Call)
  {
    Attempts(VerifyStep(s, c).1) == Attempts(s) + 1
  }

  /** A wrong user name is recorded before the hash is checked. */
  function RecordedAt(s: Settings, c: Call): int
  {
    if WrongUsername(s, c.username) then c.again else c.end
  }

  /** When each failure was recorded, in order. */
  function FailureTimes(s: Settings, calls: seq<Call>): seq<int>
  {
    if calls == [] then []
    else
      var n := |calls| - 1;
      var before := Run(s, calls[..n]);
      FailureTimes(s, calls[..n]) + if Fails(before, calls[n]) then [RecordedAt(before, calls[n])] else []
  }

  /** The pause that failure number a (from 1) imposes on the next one. */
  function Pause(a: nat): int
  {
    if a >= 5 then GetLockoutDuration(a / 5 - 1) else 0
  }

  /** What the settings say about the failures so far: they are counted, and while the login is not
      locked the pause of the last one is over. */
  ghost predicate LockCovers(s: Settings, times: seq<int>, now: int)
  {
    && Attempts(s) == |times|
    && (times != [] ==> times[|times| - 1] <= now)
    && (times != [] && !IsLocked(s, now) ==> times[|times| - 1] + Pause(|times|) <= now)
  }

  function LastEnd(calls: seq<Call>, t0: int): int
  {
    if calls == [] then t0 else calls[|calls| - 1].end
  }

  lemma LaterLockCovers(s: Settings, times: seq<int>, now: int, later: int)
    requires LockCovers(s, times, now) && now <= later
    requires LockEnds(s, times)
    ensures LockCovers(s, times, later)
  {
  }

  /** From the fifth failure on, a lock that is set ends when the last failure's pause ends. */
  ghost predicate LockEnds(s: Settings, times: seq<int>)
  {
    |times| >= 5 && s.lockoutUntil.Some? ==> s.lockoutUntil.value == times[|times| - 1] + Pause(|times|)
  }

  lemma {:induction false} RunIsCovered(s: Settings, calls: seq<Call>, t0: int)
    requires Attempts(s) == 0 && InTime(calls)
    requires calls != [] ==> t0 <= calls[0].start
    ensures LockCovers(Run(s, calls), FailureTimes(s, calls), LastEnd(calls, t0))
    ensures LockEnds(Run(s, calls), FailureTimes(s, calls))
    decreases |calls|
  {
    if calls != [] {
      var n := |calls| - 1;
      RunIsCovered(s, calls[..n], t0);
      var before, times := Run(s, calls[..n]), FailureTimes(s, calls[..n]);
      assert LastEnd(calls[..n], t0) <= calls[n].start by {
        if n > 0 {
          assert calls[..n][n - 1] == calls[n - 1];
        }
      }
      LaterLockCovers(before, times, LastEnd(calls[..n], t0), calls[n].start);
      StepIsCovered(before, times, calls[n]);
    }
  }

  lemma StepIsCovered(s: Settings, times: seq<int>, c: Call)
    requires LockCovers(s, times, c.start) && LockEnds(s, times) && c.start <= c.again <= c.end
    ensures var s', times' := VerifyStep(s, c).1, times + if Fails(s, c) then [RecordedAt(s, c)] else [];
            LockCovers(s', times', c.end) && LockEnds(s', times')
  {
  }

  /** After failure a >= 5 the next failure comes no earlier than the lockout of a's cycle, whatever
      successes and refused calls lie in between. */
  lemma {:induction false} NextFailureWaits(s: Settings, calls: seq<Call>, a: nat)
    requires Attempts(s) == 0 && InTime(calls)
    requires 5 <= a < |FailureTimes(s, calls)|
    ensures FailureTimes(s, calls)[a] - FailureTimes(s, calls)[a - 1] >= GetLockoutDuration(a / 5 - 1)
    decreases |calls|
  {
    var n := |calls| - 1;
    var before, times := Run(s, calls[..n]), FailureTimes(s, calls[..n]);
    if a < |times| {
      NextFailureWaits(s, calls[..n], a);
    } else {
      RunIsCovered(s, calls[..n], calls[0].start);
      assert LastEnd(calls[..n], calls[0].start) <= calls[n].start by {
        if n > 0 {
          assert calls[..n][n - 1] == calls[n - 1];
        }
      }
      LaterLockCovers(before, times, LastEnd(calls[..n], calls[0].start), calls[n].start);
      assert !IsLocked(before, calls[n].start);
    }
  }

  /** The total of the pauses from failure 5 up to failure n. */
  function PauseTotal(n: nat): int
  {
    if n <= 5 then 0 else PauseTotal(n - 1) + Pause(n - 1)
  }

  lemma {:induction false} PausesAddUp(s: Settings, calls: seq<Call>, n: nat)
    requires Attempts(s) == 0 && InTime(calls)
    requires 5 <= n <= |FailureTimes(s, calls)|
    ensures FailureTimes(s, calls)[n - 1] - FailureTimes(s, calls)[4] >= PauseTotal(n)
    decreases n
  {
    if n > 5 {
      PausesAddUp(s, calls, n - 1);
      NextFailureWaits(s, calls, n - 1);
    }
  }

  lemma {:induction false} PauseTotalIs(n: nat)
    requires n >= 20
    ensures PauseTotal(n) == (400 + 1440 * (n - 20)) * MINUTE
    decreases n
  {
    if n == 20 {
      PausesOfFirstCycles();
    } else {
      PauseTotalIs(n - 1);
      assert (n - 1) / 5 - 1 >= 3;
    }
  }

  lemma PausesOfFirstCycles()
    ensures PauseTotal(20) == 400 * MINUTE
  {
    assert PauseTotal(10) == 25 * MINUTE by {
      assert PauseTotal(6) == 5 * MINUTE;
      assert PauseTotal(8) == 15 * MINUTE;
    }
    assert PauseTotal(12) == 55 * MINUTE;
    assert PauseTotal(14) == 85 * MINUTE;
    assert PauseTotal(15) == 100 * MINUTE;
    assert PauseTotal(17) == 220 * MINUTE;
    assert PauseTotal(19) == 340 * MINUTE;
  }

  /** Twenty or more failures take at least 400 minutes plus one day for each beyond the twentieth,
      counted from the fifth. */
  lemma FailureRateBound(s: Settings, calls: seq<Call>, n: nat)
    requires Attempts(s) == 0 && InTime(calls)
    requires 20 <= n <= |FailureTimes(s, calls)|
    ensures FailureTimes(s, calls)[n - 1] - FailureTimes(s, calls)[4] >= (400 + 1440 * (n - 20)) * MINUTE
  {
    PausesAddUp(s, calls, n);
    PauseTotalIs(n);
  }

  /** Every failure from the fifth on locks the login anew: five minutes for failures 5 to 9, a quarter of
      an hour for 10 to 14, an hour for 15 to 19 and a day from then on. */
  lemma LockoutSchedule(s: Settings, c: Call)
    requires Fails(s, c)
    ensures var a, at, lock := Attempts(s) + 1, RecordedAt(s, c), VerifyStep(s, c).1.lockoutUntil;
            && (a < 5 ==> lock == s.lockoutUntil)
            && (5 <= a < 10 ==> lock == Some(at + 300000))
            && (10 <= a < 15 ==> lock == Some(at + 900000))
            && (15 <= a < 20 ==> lock == Some(at + 3600000))
            && (a >= 20 ==> lock == Some(at + 86400000))
  {
    var cycle := (Attempts(s) + 1) / 5;
    assert 5 * cycle <= Attempts(s) + 1 < 5 * cycle + 5;
  }

  /** Waiting as long as the refusal says is enough and one second less is not, counted from the second
      reading of the clock; the refusal says no positive time exactly if the lock ended between the two. */
  lemma RetryAfterIsExact(s: Settings, c: Call, later: Call)
    requires VerifyStep(s, c).0.LockedOut?
    ensures var wait := VerifyStep(s, c).0.retryAfter;
            && (wait >= 1 <==> IsLocked(s, c.again))
            && (later.start >= c.again + wait * 1000 ==> !VerifyStep(VerifyStep(s, c).1, later).0.LockedOut?)
            && (later.start <= c.again + (wait - 1) * 1000 ==> VerifyStep(VerifyStep(s, c).1, later).0.LockedOut?)
  {
    var ms := s.lockoutUntil.value - c.again;
    assert CeilSeconds(ms) * 1000 >= ms > (CeilSeconds(ms) - 1) * 1000;
  }

  // ---------------------------------------------------------------------------------------------
  // Overlapping calls
  // ---------------------------------------------------------------------------------------------

  /** Calls interleave where they wait for the hash: one event up to there and one after it. */
  datatype Event = Check(start: int, again: int, username: Option<string>) | Settle(now: int, matches: bool)

  /** The settings, and how many calls wait for their hash. */
  datatype Login = Login(settings: Settings, hashing: nat)

  function First(e: Event): int
  {
    if e.Check? then e.start else e.now
  }

  function Last(e: Event): int
  {
    if e.Check? then e.again else e.now
  }

  function Step(w: Login, e: Event): Login
  {
    match e
    case Check(start, again, username) =>
      var (r, s) := CheckStep(w.settings, start, again, username);
      Login(s, if r.Hashing? then w.hashing + 1 else w.hashing)
    case Settle(now, matches) =>
      if w.hashing == 0 then w else Login(SettleStep(w.settings, now, matches).1, w.hashing - 1)
  }

  function Play(s: Settings, events: seq<Event>): Login
  {
    if events == [] then Login(s, 0) else Step(Play(s, events[..|events| - 1]), events[|events| - 1])
  }

  /** The event records a failure. */
  predicate Records(w: Login, e: Event)
  {
    Attempts(Step(w, e).settings) == Attempts(w.settings) + 1
  }

  function RecordTimes(s: Settings, events: seq<Event>): seq<int>
  {
    if events == [] then []
    else
      var n := |events| - 1;
      RecordTimes(s, events[..n]) + if Records(Play(s, events[..n]), events[n]) then [Last(events[n])] else []
  }

  /** At most `k` calls are in progress at any time, and the clock does not run backwards. */
  ghost predicate Overlapping(s: Settings, events: seq<Event>, k: nat)
  {
    events == [] ||
    var n := |events| - 1;
    var e, w := events[n], Play(s, events[..n]);
    && Overlapping(s, events[..n], k)
    && (if e.Check? then w.hashing < k && e.start <= e.again else w.hashing > 0)
    && (n > 0 ==> Last(events[n - 1]) <= First(e))
  }

  /** A success that settles while the login is locked lifts the lock of a failure that overtook it. */
  predicate Lifts(w: Login, e: Event)
  {
    e.Settle? && w.hashing > 0 && e.matches && IsLocked(w.settings, e.now)
  }

  /** Some lock was lifted after failure `a` and before failure `b`. */
  predicate LiftedBetween(s: Settings, events: seq<Event>, a: nat, b: nat)
  {
    events != [] &&
    var n := |events| - 1;
    var w := Play(s, events[..n]);
    LiftedBetween(s, events[..n], a, b) || (Lifts(w, events[n]) && a <= Attempts(w.settings) < b)
  }

  /** The number of the failure at an index of the recorded ones. */
  function Number(s: Settings, i: nat): nat
  {
    Attempts(s) + i + 1
  }

  lemma {:induction false} FailuresAreCounted(s: Settings, events: seq<Event>)
    ensures Attempts(Play(s, events).settings) == Attempts(s) + |RecordTimes(s, events)|
    decreases |events|
  {
    if events != [] {
      FailuresAreCounted(s, events[..|events| - 1]);
    }
  }

  lemma PauseGrows(a: nat, b: nat)
    requires a <= b
    ensures 0 <= Pause(a) <= Pause(b)
  {
    assert a / 5 <= b / 5;
  }

  /** While the pause of a failure lasts, no lifted lock intervening, the login stays locked, and the
      failures since then and the calls still hashing are fewer than `k` together. */
  ghost predicate PauseHolds(w: Login, times: seq<int>, i: nat, a: nat, k: nat, now: int)
    requires i < |times|
  {
    && w.hashing <= k && times[i] <= now
    && (now < times[i] + Pause(a) ==>
         && w.settings.lockoutUntil.Some? && w.settings.lockoutUntil.value >= times[i] + Pause(a)
         && |times| - i - 1 + w.hashing <= k - 1)
  }

  lemma StepKeepsPause(w: Login, e: Event, times: seq<int>, i: nat, a: nat, k: nat, now: int)
    requires i < |times| && 5 <= a <= Attempts(w.settings) && PauseHolds(w, times, i, a, k, now) && now <= First(e)
    requires if e.Check? then w.hashing < k && e.start <= e.again else w.hashing > 0
    requires !Lifts(w, e)
    ensures PauseHolds(Step(w, e), times + if Records(w, e) then [Last(e)] else [], i, a, k, Last(e))
  {
    PauseGrows(a, Attempts(w.settings) + 1);
  }

  lemma RecordingStartsPause(w: Login, e: Event, times: seq<int>, a: nat, k: nat)
    requires 5 <= a == Attempts(w.settings) + 1 && Records(w, e) && w.hashing <= k
    requires if e.Check? then w.hashing < k && e.start <= e.again else w.hashing > 0
    ensures PauseHolds(Step(w, e), times + [Last(e)], |times|, a, k, Last(e))
  {
  }

  lemma {:induction false} FewAreHashing(s: Settings, events: seq<Event>, k: nat)
    requires Overlapping(s, events, k)
    ensures Play(s, events).hashing <= k
    decreases |events|
  {
    if events != [] {
      FewAreHashing(s, events[..|events| - 1], k);
    }
  }

  lemma AttemptsGrow(w: Login, e: Event)
    ensures Attempts(w.settings) <= Attempts(Step(w, e).settings) <= Attempts(w.settings) + 1
  {
  }

  lemma {:induction false} PauseHoldsOverRun(s: Settings, events: seq<Event>, k: nat, i: nat, b: nat)
    requires Overlapping(s, events, k) && i < |RecordTimes(s, events)|
    requires Number(s, i) >= 5 && Attempts(Play(s, events).settings) < b && !LiftedBetween(s, events, Number(s, i), b)
    ensures PauseHolds(Play(s, events), RecordTimes(s, events), i, Number(s, i), k, Last(events[|events| - 1]))
    decreases |events|
  {
    var n, a := |events| - 1, Number(s, i);
    var p, e := events[..n], events[n];
    var w, times := Play(s, p), RecordTimes(s, p);
    FailuresAreCounted(s, p);
    FewAreHashing(s, p, k);
    AttemptsGrow(w, e);
    if i < |times| {
      PauseHoldsOverRun(s, p, k, i, b);
      assert n > 0 && p[n - 1] == events[n - 1];
      assert !Lifts(w, e);
      StepKeepsPause(w, e, times, i, a, k, Last(p[n - 1]));
    } else {
      RecordingStartsPause(w, e, times, a, k);
    }
  }

  /** With at most `k` calls in progress, the k-th failure after failure a >= 5 comes no earlier than the
      lockout of a's cycle ends, unless a success that was overtaken has lifted a lock in between. */
  lemma {:induction false} OverlappingFailuresWait(s: Settings, events: seq<Event>, k: nat, i: nat)
    requires Overlapping(s, events, k) && i + k < |RecordTimes(s, events)| && Number(s, i) >= 5
    requires k > 0 && !LiftedBetween(s, events, Number(s, i), Number(s, i) + k)
    ensures RecordTimes(s, events)[i + k] - RecordTimes(s, events)[i] >= Pause(Number(s, i))
    decreases |events|
  {
    var n := |events| - 1;
    var times := RecordTimes(s, events[..n]);
    if i + k < |times| {
      OverlappingFailuresWait(s, events[..n], k, i);
    } else {
      FailuresAreCounted(s, events[..n]);
      PauseHoldsOverRun(s, events[..n], k, i, Number(s, i) + k);
      assert n > 0 && events[..n][n - 1] == events[n - 1];
    }
  }

  lemma {:induction false} RecordTimesAscend(s: Settings, events: seq<Event>, k: nat, i: nat, j: nat)
    requires Overlapping(s, events, k) && i <= j < |RecordTimes(s, events)|
    ensures RecordTimes(s, events)[i] <= RecordTimes(s, events)[j] <= Last(events[|events| - 1])
    decreases |events|
  {
    var n := |events| - 1;
    var times := RecordTimes(s, events[..n]);
    if i < |times| {
      RecordTimesAscend(s, events[..n], k, i, if j < |times| then j else i);
      assert n > 0 && events[..n][n - 1] == events[n - 1];
    }
  }

  lemma OneMoreDay(s: Settings, events: seq<Event>, k: nat, i: nat, n: nat)
    requires Overlapping(s, events, k) && k > 0 && i + n + k < |RecordTimes(s, events)| && Number(s, i) >= 20
    requires !LiftedBetween(s, events, Number(s, i), Number(s, i) + n + k)
    ensures !LiftedBetween(s, events, Number(s, i), Number(s, i) + n)
    ensures RecordTimes(s, events)[i + n + k] - RecordTimes(s, events)[i + n] >= DAY
  {
    var a := Number(s, i);
    if LiftedBetween(s, events, a, a + n) {
      LiftedInWider(s, events, a, a + n, a, a + n + k);
    }
    if LiftedBetween(s, events, a + n, a + n + k) {
      LiftedInWider(s, events, a + n, a + n + k, a, a + n + k);
    }
    OverlappingFailuresWait(s, events, k, i + n);
    PauseGrows(20, a + n);
  }

  const DAY := 24 * 60 * MINUTE

  lemma OneDayLess(days: nat, k: nat)
    requires days > 0
    ensures 0 <= (days - 1) * k == days * k - k
  {
  }

  /** From the twentieth failure on at most `k` failures a day, as long as no lock is lifted. */
  lemma {:induction false} OverlappingRateBound(s: Settings, events: seq<Event>, k: nat, i: nat, days: nat, n: nat)
    requires Overlapping(s, events, k) && k > 0 && n == days * k && i + n < |RecordTimes(s, events)| && Number(s, i) >= 20
    requires !LiftedBetween(s, events, Number(s, i), Number(s, i) + n)
    ensures RecordTimes(s, events)[i + n] - RecordTimes(s, events)[i] >= days * DAY
    decreases days
  {
    if days > 0 {
      OneDayLess(days, k);
      OneMoreDay(s, events, k, i, n - k);
      OverlappingRateBound(s, events, k, i, days - 1, n - k);
    }
  }

  lemma {:induction false} LiftedInWider(s: Settings, events: seq<Event>, a: nat, b: nat, a': nat, b': nat)
    requires a' <= a && b <= b' && LiftedBetween(s, events, a, b)
    ensures LiftedBetween(s, events, a', b')
    decreases |events|
  {
    var n := |events| - 1;
    if LiftedBetween(s, events[..n], a, b) {
      LiftedInWider(s, events[..n], a, b, a', b');
    }
  }

  // ---------------------------------------------------------------------------------------------
  // Why the bounds cannot be better
  // ---------------------------------------------------------------------------------------------

  const AnyTime := Check(0, 0, None)
  const Mismatch := Settle(0, false)

  /** `checks` calls that all start, and `settles` of them failing, after an earlier run and at one time. */
  function Burst(earlier: seq<Event>, checks: nat, settles: nat): seq<Event>
  {
    if settles > 0 then Burst(earlier, checks, settles - 1) + [Mismatch]
    else if checks > 0 then Burst(earlier, checks - 1, 0) + [AnyTime]
    else earlier
  }

  /** A run after which no call is hashing and the login by hash is open at time 0. */
  ghost predicate Idle(s: Settings, earlier: seq<Event>, k: nat)
  {
    var w := Play(s, earlier);
    && Overlapping(s, earlier, k) && w.hashing == 0 && (earlier != [] ==> Last(earlier[|earlier| - 1]) == 0)
    && !IsLocked(w.settings, 0) && HasHash(w.settings)
  }

  lemma {:induction false} BurstChecks(s: Settings, earlier: seq<Event>, k: nat, checks: nat)
    requires Idle(s, earlier, k) && checks <= k
    ensures var events, w := Burst(earlier, checks, 0), Play(s, earlier);
            && Overlapping(s, events, k) && (events != [] ==> Last(events[|events| - 1]) == 0)
            && Play(s, events) == Login(w.settings, checks) && RecordTimes(s, events) == RecordTimes(s, earlier)
    decreases checks
  {
    if checks > 0 {
      BurstChecks(s, earlier, k, checks - 1);
      var before := Burst(earlier, checks - 1, 0);
      assert (before + [AnyTime])[..|before|] == before;
    }
  }

  function Zeros(n: nat): seq<int>
  {
    seq(n, _ => 0)
  }

  /** `left` calls still hash at time 0, after `failed` failures at that time. */
  ghost predicate Failing(s: Settings, events: seq<Event>, k: nat, left: nat, times: seq<int>, failed: nat)
  {
    && Overlapping(s, events, k) && Play(s, events).hashing == left
    && (events != [] ==> Last(events[|events| - 1]) == 0)
    && RecordTimes(s, events) == times + Zeros(failed)
  }

  lemma MismatchRecords(s: Settings, before: seq<Event>, k: nat, left: nat, times: seq<int>, failed: nat)
    requires Failing(s, before, k, left, times, failed) && left > 0
    ensures Failing(s, before + [Mismatch], k, left - 1, times, failed + 1)
  {
    assert (before + [Mismatch])[..|before|] == before;
    assert times + Zeros(failed + 1) == times + Zeros(failed) + [0];
  }

  /** All of them fail at time 0: whatever lock the first failures set comes too late for the others. */
  lemma {:induction false} BurstFails(s: Settings, earlier: seq<Event>, k: nat, checks: nat, settles: nat)
    requires Idle(s, earlier, k) && settles <= checks <= k
    ensures Failing(s, Burst(earlier, checks, settles), k, checks - settles, RecordTimes(s, earlier), settles)
    decreases settles
  {
    if settles == 0 {
      BurstChecks(s, earlier, k, checks);
    } else {
      BurstFails(s, earlier, k, checks, settles - 1);
      MismatchRecords(s, Burst(earlier, checks, settles - 1), k, checks - settles + 1, RecordTimes(s, earlier), settles - 1);
    }
  }

  lemma {:induction false} BurstLiftsNothing(s: Settings, earlier: seq<Event>, checks: nat, settles: nat, a: nat, b: nat)
    requires !LiftedBetween(s, earlier, a, b)
    ensures !LiftedBetween(s, Burst(earlier, checks, settles), a, b)
    decreases checks, settles
  {
    if settles > 0 {
      BurstLiftsNothing(s, earlier, checks, settles - 1, a, b);
      var before := Burst(earlier, checks, settles - 1);
      assert (before + [Mismatch])[..|before|] == before;
    } else if checks > 0 {
      BurstLiftsNothing(s, earlier, checks - 1, 0, a, b);
      var before := Burst(earlier, checks - 1, 0);
      assert (before + [AnyTime])[..|before|] == before;
    }
  }

  /** Failure i + m waits for the pause of failure i. */
  ghost predicate Spaced(k: nat, m: nat, s: Settings, events: seq<Event>, i: nat)
  {
    Overlapping(s, events, k) && i + m < |RecordTimes(s, events)| && Number(s, i) >= 5 &&
    !LiftedBetween(s, events, Number(s, i), Number(s, i) + m) ==>
      RecordTimes(s, events)[i + m] - RecordTimes(s, events)[i] >= Pause(Number(s, i))
  }

  const OneBeforeLock := Settings(Pin, None, Some("hash"), Some(4), None)

  lemma LaterFailuresWaitToo(k: nat, m: nat, s: Settings, events: seq<Event>, i: nat)
    requires 0 < k <= m
    ensures Spaced(k, m, s, events, i)
  {
    var a := Number(s, i);
    if Overlapping(s, events, k) && i + m < |RecordTimes(s, events)| && a >= 5 && !LiftedBetween(s, events, a, a + m) {
      if LiftedBetween(s, events, a, a + k) {
        LiftedInWider(s, events, a, a + k, a, a + m);
      }
      OverlappingFailuresWait(s, events, k, i);
      RecordTimesAscend(s, events, k, i + k, i + m);
    }
  }

  /** With up to `k` calls in progress, the m-th failure after another always waits for that one's lockout
      if and only if m >= k. */
  lemma OverlapBoundIsExact(k: nat, m: nat)
    requires k > 0
    ensures (forall s, events, i :: Spaced(k, m, s, events, i)) <==> m >= k
  {
    if m >= k {
      forall s, events, i ensures Spaced(k, m, s, events, i) {
        LaterFailuresWaitToo(k, m, s, events, i);
      }
    } else {
      var s, events := OneBeforeLock, Burst([], k, m + 1);
      BurstFails(s, [], k, k, m + 1);
      BurstLiftsNothing(s, [], k, m + 1, 5, 5 + m);
      assert RecordTimes(s, events)[m] == 0 == RecordTimes(s, events)[0];
      assert !Spaced(k, m, s, events, 0);
    }
  }

  /** Two calls overlap at the fourth failure: one fails and sets the lock, the other succeeds and lifts it. */
  const Overtaken := [AnyTime, AnyTime, Mismatch, Settle(0, true)]

  lemma OvertakenIsIdle(k: nat)
    requires k >= 2
    ensures Idle(OneBeforeLock, Overtaken, k) && RecordTimes(OneBeforeLock, Overtaken) == [0]
  {
    var s := OneBeforeLock;
    assert Idle(s, [], k) && Burst([], 2, 1) == [AnyTime, AnyTime, Mismatch] by {
      assert Burst([], 2, 0) == Burst([], 1, 0) + [AnyTime] && Burst([], 1, 0) == [] + [AnyTime];
    }
    BurstFails(s, [], k, 2, 1);
    assert Overtaken[..3] == Burst([], 2, 1);
  }

  /** Where a success lifts a lock, the bound does fail: then k more failures come without any wait. */
  lemma LiftedLockBreaksTheBound(k: nat) returns (events: seq<Event>)
    requires k >= 2
    ensures Overlapping(OneBeforeLock, events, k) && k < |RecordTimes(OneBeforeLock, events)|
    ensures RecordTimes(OneBeforeLock, events)[k] - RecordTimes(OneBeforeLock, events)[0] < Pause(Number(OneBeforeLock, 0))
  {
    events := Burst(Overtaken, k, k);
    OvertakenIsIdle(k);
    BurstFails(OneBeforeLock, Overtaken, k, k, k);
  }
}
