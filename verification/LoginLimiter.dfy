/** LoginRateLimiter: five failed logins within a one-minute window lock a key for fifteen
    minutes; entries that no longer matter are removed lazily, at most once a minute. */
module LoginLimiter {

  // Time is counted in ticks of 100 nanoseconds, as DateTimeOffset does.
  const WINDOW: nat := 600_000_000
  const LOCKOUT: nat := 15 * WINDOW
  const MAX_FAILURES: nat := 5

  datatype Entry = Entry(windowStarted: nat, failures: nat, lockedUntil: nat)

  datatype Limiter = Limiter(entries: map<string, Entry>, nextCleanup: nat)

  datatype Call = TryAcquire | RegisterFailure | RegisterSuccess

  // A call reads the clock when it starts, and once more if it has to create an entry.
  datatype Event = Event(call: Call, key: string, now: nat, born: nat)

  datatype Answer = Accepted | Refused(retryAfter: nat) | Recorded

  const START := Limiter(map[], 0)

  // ---- one entry ----

  function Fresh(born: nat): Entry { Entry(born, 0, 0) }

  function Opened(e: Entry, now: nat): Entry {
    if now - e.windowStarted > WINDOW then e.(windowStarted := now, failures := 0) else e
  }

  function Failed(e: Entry, now: nat): Entry {
    var counted := Opened(e, now).(failures := Opened(e, now).failures + 1);
    if counted.failures >= MAX_FAILURES then counted.(lockedUntil := now + LOCKOUT) else counted
  }

  predicate Expired(e: Entry, now: nat) { e.lockedUntil <= now && now - e.windowStarted > WINDOW }

  // ---- the calls ----

  function Cleanup(l: Limiter, now: nat): Limiter {
    if now < l.nextCleanup then l
    else Limiter(map k | k in l.entries && !Expired(l.entries[k], now) :: l.entries[k], now + WINDOW)
  }

  function GetOrAdd(l: Limiter, key: string, born: nat): Entry {
    if key in l.entries then l.entries[key] else Fresh(born)
  }

  function Put(l: Limiter, key: string, e: Entry): Limiter { l.(entries := l.entries[key := e]) }

  function Step(l: Limiter, ev: Event, cleans: bool): (Limiter, Answer) {
    if ev.call.RegisterSuccess? then (l.(entries := l.entries - {ev.key}), Recorded)
    else
      var c := if cleans then Cleanup(l, ev.now) else l;
      var e := GetOrAdd(c, ev.key, ev.born);
      if ev.call.RegisterFailure? then (Put(c, ev.key, Failed(e, ev.now)), Recorded)
      else if e.lockedUntil > ev.now then (Put(c, ev.key, e), Refused(e.lockedUntil - ev.now))
      else (Put(c, ev.key, Opened(e, ev.now)), Accepted)
  }

  function Answers(l: Limiter, events: seq<Event>, cleans: bool): (answers: seq<Answer>)
    ensures |answers| == |events|
    decreases |events|
  {
    if events == [] then []
    else [Step(l, events[0], cleans).1] + Answers(Step(l, events[0], cleans).0, events[1..], cleans)
  }

  function After(l: Limiter, events: seq<Event>, cleans: bool): Limiter
    decreases |events|
  {
    if events == [] then l else After(Step(l, events[0], cleans).0, events[1..], cleans)
  }

  // A clock that never runs backwards.
  predicate Ordered(events: seq<Event>, clock: nat)
    decreases |events|
  {
    events == [] || (clock <= events[0].now <= events[0].born && Ordered(events[1..], events[0].born))
  }

  // ---- removing old entries cannot be observed ----

  predicate EntryAlike(c: Entry, p: Entry, now: nat) {
    c.windowStarted == p.windowStarted && c.failures == p.failures
    && (c.lockedUntil == p.lockedUntil || (c.lockedUntil <= now && p.lockedUntil <= now))
  }

  predicate KeyAlike(c: Limiter, p: Limiter, now: nat, key: string) {
    if key in c.entries then key in p.entries && EntryAlike(c.entries[key], p.entries[key], now)
    else key in p.entries ==> Expired(p.entries[key], now)
  }

  ghost predicate Alike(c: Limiter, p: Limiter, now: nat) { forall key :: KeyAlike(c, p, now, key) }

  predicate OneReading(events: seq<Event>) { forall i :: 0 <= i < |events| ==> events[i].born == events[i].now }

  lemma CleanupStaysAlike(c: Limiter, p: Limiter, clock: nat, now: nat)
    requires Alike(c, p, clock) && clock <= now
    ensures Alike(Cleanup(c, now), p, now)
  {
    forall key ensures KeyAlike(Cleanup(c, now), p, now, key) {
      assert KeyAlike(c, p, clock, key);
    }
  }

  lemma StepStaysAlike(c: Limiter, p: Limiter, clock: nat, ev: Event)
    requires Alike(c, p, clock) && clock <= ev.now == ev.born
    ensures Step(c, ev, true).1 == Step(p, ev, false).1
    ensures Alike(Step(c, ev, true).0, Step(p, ev, false).0, ev.now)
  {
    CleanupStaysAlike(c, p, clock, ev.now);
    var d := Cleanup(c, ev.now);
    assert KeyAlike(d, p, ev.now, ev.key);
    forall key ensures KeyAlike(Step(c, ev, true).0, Step(p, ev, false).0, ev.now, key) {
      assert KeyAlike(d, p, ev.now, key);
      assert KeyAlike(c, p, clock, key);
    }
  }

  lemma {:induction false} RunsAlike(c: Limiter, p: Limiter, clock: nat, events: seq<Event>)
    requires Alike(c, p, clock) && Ordered(events, clock) && OneReading(events)
    ensures Answers(c, events, true) == Answers(p, events, false)
    decreases |events|
  {
    if events != [] {
      StepStaysAlike(c, p, clock, events[0]);
      RunsAlike(Step(c, events[0], true).0, Step(p, events[0], false).0, events[0].now, events[1..]);
    }
  }

  // How long, at most, a call takes between its two clock readings.
  predicate ReadingsWithin(events: seq<Event>, delay: nat) {
    forall i :: 0 <= i < |events| ==> events[i].born - events[i].now <= delay
  }

  predicate Unobservable(events: seq<Event>) { Answers(START, events, true) == Answers(START, events, false) }

  // Cleaning goes unnoticed on every run exactly when no time passes between the two
  // clock readings of a call: a recreated entry opens its window at the second reading, an
  // entry that was kept reopens its window at the first.
  lemma CleanupIsUnobservableExactly(delay: nat)
    ensures (forall events :: Ordered(events, 0) && ReadingsWithin(events, delay) ==> Unobservable(events)) <==> delay == 0
  {
    if delay == 0 {
      forall events | Ordered(events, 0) && ReadingsWithin(events, delay) ensures Unobservable(events) {
        OrderedReadings(events, 0);
        RunsAlike(START, START, 0, events);
      }
    } else {
      LateEntryIsNoticed();
      assert !Unobservable(LATE);
    }
  }

  lemma {:induction false} OrderedReadings(events: seq<Event>, clock: nat)
    requires Ordered(events, clock) && ReadingsWithin(events, 0)
    ensures OneReading(events)
    decreases |events|
  {
    if events != [] {
      forall i | 0 <= i < |events[1..]| ensures events[1..][i].born - events[1..][i].now <= 0 {
        assert events[1..][i] == events[i + 1];
      }
      OrderedReadings(events[1..], events[0].born);
      forall i | 0 <= i < |events| ensures events[i].born == events[i].now {
        if i > 0 { assert events[i] == events[1..][i - 1]; }
      }
    }
  }

  // The second failure finds its entry removed and one tick later starts a new one.
  const LATE: seq<Event> := [
    Event(RegisterFailure, "k", 0, 0),
    Event(RegisterFailure, "k", 2 * WINDOW, 2 * WINDOW + 1),
    Event(RegisterFailure, "k", 3 * WINDOW + 1, 3 * WINDOW + 1),
    Event(RegisterFailure, "k", 3 * WINDOW + 1, 3 * WINDOW + 1),
    Event(RegisterFailure, "k", 3 * WINDOW + 1, 3 * WINDOW + 1),
    Event(RegisterFailure, "k", 3 * WINDOW + 1, 3 * WINDOW + 1),
    Event(TryAcquire, "k", 3 * WINDOW + 1, 3 * WINDOW + 1)]

  function Only(e: Entry, nextCleanup: nat): Limiter { Limiter(map["k" := e], nextCleanup) }

  lemma OnlyFails(e: Entry, next: nat, now: nat, cleans: bool)
    requires cleans && next <= now ==> !Expired(e, now)
    ensures Step(Only(e, next), Event(RegisterFailure, "k", now, now), cleans).0
         == Only(Failed(e, now), if cleans && now >= next then now + WINDOW else next)
  {
  }

  lemma AnswersFrom(l: Limiter, events: seq<Event>, i: nat, m: Limiter, cleans: bool)
    requires i < |events| && m == After(l, events[..i], cleans)
    ensures Answers(l, events, cleans)[i] == Step(m, events[i], cleans).1
    ensures After(l, events[..i + 1], cleans) == Step(m, events[i], cleans).0
    decreases i
  {
    if i > 0 {
      assert events[..i][1..] == events[1..][..i - 1];
      assert events[..i + 1][1..] == events[1..][..i];
      AnswersFrom(Step(l, events[0], cleans).0, events[1..], i - 1, m, cleans);
    } else {
      assert events[..1] == [events[0]];
      assert After(l, [events[0]], cleans) == After(Step(l, events[0], cleans).0, [], cleans);
    }
  }

  lemma LateRun(cleans: bool)
    ensures var e := if cleans then Entry(2 * WINDOW + 1, 5, 3 * WINDOW + 1 + LOCKOUT) else Entry(3 * WINDOW + 1, 4, 0);
            exists next :: After(START, LATE[..6], cleans) == Only(e, next)
  {
    var late := 3 * WINDOW + 1;
    assert After(START, LATE[..0], cleans) == START;
    AnswersFrom(START, LATE, 0, START, cleans);
    var l1 := Step(START, LATE[0], cleans).0;
    assert l1.entries == map["k" := Entry(0, 1, 0)];
    AnswersFrom(START, LATE, 1, l1, cleans);
    var l2 := Step(l1, LATE[1], cleans).0;
    var e2 := if cleans then Entry(2 * WINDOW + 1, 1, 0) else Entry(2 * WINDOW, 1, 0);
    assert l2.entries == map["k" := e2];
    assert l2 == Only(e2, l2.nextCleanup);
    AnswersFrom(START, LATE, 2, l2, cleans);
    OnlyFails(e2, l2.nextCleanup, late, cleans);
    var l3 := Step(l2, LATE[2], cleans).0;
    AnswersFrom(START, LATE, 3, l3, cleans);
    OnlyFails(Failed(e2, late), l3.nextCleanup, late, cleans);
    var l4 := Step(l3, LATE[3], cleans).0;
    AnswersFrom(START, LATE, 4, l4, cleans);
    OnlyFails(Failed(Failed(e2, late), late), l4.nextCleanup, late, cleans);
    var l5 := Step(l4, LATE[4], cleans).0;
    AnswersFrom(START, LATE, 5, l5, cleans);
    OnlyFails(Failed(Failed(Failed(e2, late), late), late), l5.nextCleanup, late, cleans);
    var l6 := Step(l5, LATE[5], cleans).0;
    assert l6 == Only(if cleans then Entry(2 * WINDOW + 1, 5, late + LOCKOUT) else Entry(late, 4, 0), l6.nextCleanup);
  }

  lemma LateEntryIsNoticed()
    ensures Ordered(LATE, 0) && ReadingsWithin(LATE, 1) && !Unobservable(LATE)
  {
    LateRun(true);
    LateRun(false);
    AnswersFrom(START, LATE, 6, After(START, LATE[..6], true), true);
    AnswersFrom(START, LATE, 6, After(START, LATE[..6], false), false);
    assert Answers(START, LATE, true)[6] == Refused(LOCKOUT);
    assert Answers(START, LATE, false)[6] == Accepted;
    LateIsOrdered();
  }

  lemma LateIsOrdered()
    ensures Ordered(LATE, 0)
  {
    var late := 3 * WINDOW + 1;
    assert LATE[6..] == [LATE[6]] && Ordered(LATE[6..], late);
    OrderedFrom(LATE, 5, late);
    OrderedFrom(LATE, 4, late);
    OrderedFrom(LATE, 3, late);
    OrderedFrom(LATE, 2, 2 * WINDOW + 1);
    OrderedFrom(LATE, 1, 0);
    OrderedFrom(LATE, 0, 0);
    assert LATE[0..] == LATE;
  }

  lemma OrderedFrom(events: seq<Event>, i: nat, clock: nat)
    requires i < |events| && clock <= events[i].now <= events[i].born
    requires Ordered(events[i + 1..], events[i].born)
    ensures Ordered(events[i..], clock)
  {
  }

  // ---- the lock ----

  // Windows start in the past, and only a lock ends a window with five failures.
  predicate Sound(e: Entry, clock: nat) {
    e.windowStarted <= clock && (e.failures >= MAX_FAILURES ==> e.windowStarted + LOCKOUT <= e.lockedUntil)
  }

  ghost predicate WellTimed(l: Limiter, clock: nat) { forall k :: k in l.entries ==> Sound(l.entries[k], clock) }

  lemma StepIsWellTimed(l: Limiter, clock: nat, ev: Event, cleans: bool)
    requires WellTimed(l, clock) && clock <= ev.now <= ev.born
    ensures WellTimed(Step(l, ev, cleans).0, ev.born)
  {
  }

  lemma {:induction false} RunIsWellTimed(l: Limiter, clock: nat, events: seq<Event>, cleans: bool) returns (end: nat)
    requires WellTimed(l, clock) && Ordered(events, clock)
    ensures WellTimed(After(l, events, cleans), end) && end == if events == [] then clock else events[|events| - 1].born
    decreases |events|
  {
    end := clock;
    if events != [] {
      StepIsWellTimed(l, clock, events[0], cleans);
      end := RunIsWellTimed(Step(l, events[0], cleans).0, events[0].born, events[1..], cleans);
    }
  }

  // Logins with this key come one at a time: an outcome is registered only for an accepted
  // attempt, and a new attempt only after the outcome of the previous one.
  predicate OneAtATime(l: Limiter, key: string, open: bool, events: seq<Event>, cleans: bool)
    decreases |events|
  {
    events == []
    || var ev := events[0];
       (ev.key == key ==> ev.call.TryAcquire? != open)
       && OneAtATime(Step(l, ev, cleans).0, key,
                     if ev.key != key then open else Step(l, ev, cleans).1 == Accepted, events[1..], cleans)
  }

  // The key is locked until the given time; its entry may be gone once that time has come.
  predicate LockedUntil(l: Limiter, key: string, until: nat, clock: nat) {
    if key in l.entries then l.entries[key].lockedUntil == until && l.entries[key].windowStarted + LOCKOUT <= until
    else until <= clock
  }

  lemma FifthFailureLocks(l: Limiter, clock: nat, ev: Event, cleans: bool)
    requires WellTimed(l, clock) && clock <= ev.now <= ev.born && ev.call.RegisterFailure? && ev.key in l.entries
    requires ev.now - l.entries[ev.key].windowStarted <= WINDOW && l.entries[ev.key].failures >= 4
    ensures LockedUntil(Step(l, ev, cleans).0, ev.key, ev.now + LOCKOUT, ev.born)
  {
  }

  lemma StepKeepsLock(l: Limiter, key: string, until: nat, clock: nat, ev: Event, cleans: bool)
    requires LockedUntil(l, key, until, clock) && clock <= ev.now <= ev.born
    requires ev.key == key ==> ev.call.TryAcquire? && ev.now < until
    ensures LockedUntil(Step(l, ev, cleans).0, key, until, ev.born)
    ensures ev.key == key ==> Step(l, ev, cleans).1 == Refused(until - ev.now)
  {
  }

  // While a key is locked every attempt with it is refused and told how long to wait,
  // whatever happens to other keys and whenever old entries are removed.
  lemma {:induction false} LockHolds(l: Limiter, key: string, until: nat, clock: nat, events: seq<Event>, cleans: bool)
    requires LockedUntil(l, key, until, clock) && Ordered(events, clock) && OneAtATime(l, key, false, events, cleans)
    requires forall i :: 0 <= i < |events| && events[i].key == key ==> events[i].now < until
    ensures forall i :: 0 <= i < |events| && events[i].key == key ==>
              events[i].call.TryAcquire? && Answers(l, events, cleans)[i] == Refused(until - events[i].now)
    ensures LockedUntil(After(l, events, cleans), key, until, if events == [] then clock else events[|events| - 1].born)
    decreases |events|
  {
    if events != [] {
      var ev, m := events[0], Step(l, events[0], cleans).0;
      StepKeepsLock(l, key, until, clock, ev, cleans);
      forall i | 0 <= i < |events[1..]| && events[1..][i].key == key ensures events[1..][i].now < until {
        assert events[1..][i] == events[i + 1];
      }
      LockHolds(m, key, until, ev.born, events[1..], cleans);
      forall i | 0 <= i < |events| && events[i].key == key
        ensures events[i].call.TryAcquire? && Answers(l, events, cleans)[i] == Refused(until - events[i].now)
      {
        if i > 0 { assert events[i] == events[1..][i - 1]; }
      }
    }
  }

  lemma NextAttemptStartsFresh(l: Limiter, clock: nat, until: nat, ev: Event, cleans: bool)
    requires LockedUntil(l, ev.key, until, clock) && ev.call.TryAcquire? && until <= ev.now <= ev.born
    ensures var (m, answer) := Step(l, ev, cleans);
            answer == Accepted && ev.key in m.entries && m.entries[ev.key].failures == 0
            && ev.now <= m.entries[ev.key].windowStarted <= ev.born
  {
  }

  // A failure that finds four others in its window refuses the key for the full fifteen
  // minutes, over every run in which logins with that key come one at a time; the first attempt
  // after that is accepted and starts an empty window.
  lemma {:induction false} FifthFailureRefusesTheKey(l: Limiter, clock: nat, fifth: Event, events: seq<Event>, next: Event, cleans: bool)
    requires WellTimed(l, clock) && clock <= fifth.now <= fifth.born && Ordered(events + [next], fifth.born)
    requires fifth.call.RegisterFailure? && next.call.TryAcquire? && next.key == fifth.key && fifth.key in l.entries
    requires fifth.now - l.entries[fifth.key].windowStarted <= WINDOW && l.entries[fifth.key].failures >= 4
    requires OneAtATime(Step(l, fifth, cleans).0, fifth.key, false, events, cleans)
    requires forall i :: 0 <= i < |events| && events[i].key == fifth.key ==> events[i].now < fifth.now + LOCKOUT
    requires fifth.now + LOCKOUT <= next.now
    ensures var m := Step(l, fifth, cleans).0;
            (forall i :: 0 <= i < |events| && events[i].key == fifth.key ==>
               events[i].call.TryAcquire? && Answers(m, events, cleans)[i] == Refused(fifth.now + LOCKOUT - events[i].now))
            && var (n, answer) := Step(After(m, events, cleans), next, cleans);
               answer == Accepted && fifth.key in n.entries && n.entries[fifth.key].failures == 0
  {
    FifthFailureLocks(l, clock, fifth, cleans);
    LockThenFresh(Step(l, fifth, cleans).0, fifth.key, fifth.now + LOCKOUT, fifth.born, events, next, cleans);
  }

  lemma LockThenFresh(m: Limiter, key: string, until: nat, clock: nat, events: seq<Event>, next: Event, cleans: bool)
    requires LockedUntil(m, key, until, clock) && Ordered(events + [next], clock) && OneAtATime(m, key, false, events, cleans)
    requires forall i :: 0 <= i < |events| && events[i].key == key ==> events[i].now < until
    requires next.call.TryAcquire? && next.key == key && until <= next.now
    ensures forall i :: 0 <= i < |events| && events[i].key == key ==>
              events[i].call.TryAcquire? && Answers(m, events, cleans)[i] == Refused(until - events[i].now)
    ensures var (n, answer) := Step(After(m, events, cleans), next, cleans);
            answer == Accepted && key in n.entries && n.entries[key].failures == 0
  {
    OrderedParts(events, next, clock);
    LockHolds(m, key, until, clock, events, cleans);
    NextAttemptStartsFresh(After(m, events, cleans), if events == [] then clock else events[|events| - 1].born,
                           until, next, cleans);
  }

  lemma {:induction false} OrderedParts(events: seq<Event>, last: Event, clock: nat)
    requires Ordered(events + [last], clock)
    ensures Ordered(events, clock) && last.now <= last.born
    decreases |events|
  {
    if events == [] {
      assert events + [last] == [last];
    } else {
      assert (events + [last])[1..] == events[1..] + [last];
      OrderedParts(events[1..], last, events[0].born);
    }
  }

  // ---- success, and other keys ----

  // An attempt is refused exactly while its key is locked, with the time that is left.
  lemma RefusedExactly(l: Limiter, ev: Event, cleans: bool)
    requires ev.call.TryAcquire? && ev.now <= ev.born
    ensures var answer := Step(l, ev, cleans).1;
            if ev.key in l.entries && ev.now < l.entries[ev.key].lockedUntil then answer == Refused(l.entries[ev.key].lockedUntil - ev.now)
            else answer == Accepted
  {
  }

  // A call is about its own key: what it changes elsewhere is that expired entries may go.
  lemma OtherKeysStay(l: Limiter, ev: Event, cleans: bool, key: string)
    requires key != ev.key
    ensures var m := Step(l, ev, cleans).0;
            if key in m.entries then key in l.entries && m.entries[key] == l.entries[key]
            else key in l.entries ==> cleans && Expired(l.entries[key], ev.now)
  {
  }

  lemma {:induction false} StaysAbsent(l: Limiter, key: string, events: seq<Event>, cleans: bool)
    requires key !in l.entries && forall i :: 0 <= i < |events| ==> events[i].key != key
    ensures key !in After(l, events, cleans).entries
    decreases |events|
  {
    if events != [] {
      OtherKeysStay(l, events[0], cleans, key);
      StaysAbsent(Step(l, events[0], cleans).0, key, events[1..], cleans);
    }
  }

  // After a success, and whatever calls for other keys, the next attempt with the key is
  // accepted and starts an empty window, and a failure would be the first of its window.
  lemma SuccessStartsOver(l: Limiter, success: Event, events: seq<Event>, next: Event, cleans: bool)
    requires success.call.RegisterSuccess? && next.key == success.key && next.now <= next.born
    requires forall i :: 0 <= i < |events| ==> events[i].key != success.key
    ensures var m := After(Step(l, success, cleans).0, events, cleans);
            var (after, answer) := Step(m, next, cleans);
            match next.call
            case TryAcquire => answer == Accepted && next.key in after.entries && after.entries[next.key] == Entry(next.born, 0, 0)
            case RegisterFailure => next.key in after.entries && after.entries[next.key] == Entry(next.born, 1, 0)
            case RegisterSuccess => next.key !in after.entries
  {
    StaysAbsent(Step(l, success, cleans).0, success.key, events, cleans);
  }

  // ---- what fixed windows let through ----

  predicate Unlocked(l: Limiter, key: string, now: nat) { key in l.entries ==> l.entries[key].lockedUntil <= now }

  predicate NeverLocks(l: Limiter, key: string, events: seq<Event>, cleans: bool)
    decreases |events|
  {
    events == []
    || (Unlocked(Step(l, events[0], cleans).0, key, events[0].now)
        && NeverLocks(Step(l, events[0], cleans).0, key, events[1..], cleans))
  }

  function Failures(events: seq<Event>, key: string): nat {
    if events == [] then 0
    else (if events[0].key == key && events[0].call.RegisterFailure? then 1 else 0) + Failures(events[1..], key)
  }

  // How many more failures a key can take before a lock, for calls from time start on, as long
  // as no window opened since then has run out.
  function Allowance(l: Limiter, key: string, start: nat): int {
    if key !in l.entries then 4
    else
      var e := l.entries[key];
      if start <= e.windowStarted then 4 - e.failures
      else if start - e.windowStarted > WINDOW then 4
      else 8 - e.failures
  }

  lemma AllowanceShrinks(l: Limiter, key: string, start: nat, clock: nat, ev: Event, cleans: bool)
    requires WellTimed(l, clock) && Unlocked(l, key, clock) && start <= clock <= ev.now <= ev.born
    requires ev.now <= start + WINDOW && !(ev.key == key && ev.call.RegisterSuccess?)
    requires Unlocked(Step(l, ev, cleans).0, key, ev.now)
    ensures Allowance(Step(l, ev, cleans).0, key, start) + Failures([ev], key) <= Allowance(l, key, start)
  {
    assert Failures([ev], key) == if ev.key == key && ev.call.RegisterFailure? then 1 else 0;
  }

  lemma {:induction false} FailuresWithinAllowance(l: Limiter, key: string, start: nat, clock: nat, events: seq<Event>, cleans: bool)
    requires WellTimed(l, clock) && Unlocked(l, key, clock) && start <= clock && Ordered(events, clock)
    requires forall i :: 0 <= i < |events| ==>
               events[i].now <= start + WINDOW && !(events[i].key == key && events[i].call.RegisterSuccess?)
    requires NeverLocks(l, key, events, cleans)
    requires Allowance(l, key, start) >= 0
    ensures Failures(events, key) <= Allowance(l, key, start)
    decreases |events|
  {
    if events != [] {
      var m := Step(l, events[0], cleans).0;
      StepIsWellTimed(l, clock, events[0], cleans);
      AllowanceShrinks(l, key, start, clock, events[0], cleans);
      forall i | 0 <= i < |events[1..]|
        ensures events[1..][i].now <= start + WINDOW && !(events[1..][i].key == key && events[1..][i].call.RegisterSuccess?)
      {
        assert events[1..][i] == events[i + 1];
      }
      FailuresWithinAllowance(m, key, start, events[0].born, events[1..], cleans);
    }
  }

  // In every run, nine failures of one key within a minute, with no success between them, lock
  // that key at one of them: eight is the most that two adjacent windows let through.
  lemma NineFailuresLock(before: seq<Event>, key: string, start: nat, events: seq<Event>, cleans: bool)
    requires Ordered(before, 0) && Ordered(events, start)
    requires forall i :: 0 <= i < |before| ==> before[i].born <= start
    requires forall i :: 0 <= i < |events| ==>
               events[i].now <= start + WINDOW && !(events[i].key == key && events[i].call.RegisterSuccess?)
    requires Unlocked(After(START, before, cleans), key, start)
    requires Failures(events, key) >= 9
    ensures !NeverLocks(After(START, before, cleans), key, events, cleans)
  {
    var l := After(START, before, cleans);
    var end := RunIsWellTimed(START, 0, before, cleans);
    assert WellTimed(l, start);
    if NeverLocks(l, key, events, cleans) {
      assert 0 <= Allowance(l, key, start) <= 8;
      FailuresWithinAllowance(l, key, start, start, events, cleans);
      assert false;
    }
  }

  // Failures just before and just after a window runs out: four of each fit.
  function Passing(n: nat): (events: seq<Event>)
    ensures |events| == n
  {
    seq(n, i requires 0 <= i < n => var now := if i < 4 then WINDOW else WINDOW + 1; Event(RegisterFailure, "k", now, now))
  }

  const FIRST := Event(TryAcquire, "k", 0, 0)

  // The entry after so many of those failures.
  function PassedEntry(i: nat): Entry { if i <= 4 then Entry(0, i, 0) else Entry(WINDOW + 1, i - 4, 0) }

  predicate PassedState(l: Limiter, i: nat, cleans: bool) {
    l == Only(PassedEntry(i), l.nextCleanup) && (cleans ==> l.nextCleanup == if i == 0 then WINDOW else 2 * WINDOW)
  }

  lemma PassingStep(l: Limiter, n: nat, i: nat, cleans: bool) returns (m: Limiter)
    requires i < n <= 8 && PassedState(l, i, cleans)
    ensures m == Step(l, Passing(n)[i], cleans).0 && PassedState(m, i + 1, cleans)
  {
    OnlyFails(PassedEntry(i), l.nextCleanup, Passing(n)[i].now, cleans);
    m := Step(l, Passing(n)[i], cleans).0;
  }

  lemma {:induction false} PassingNeverLocks(l: Limiter, n: nat, i: nat, cleans: bool)
    requires i <= n <= 8 && PassedState(l, i, cleans)
    ensures NeverLocks(l, "k", Passing(n)[i..], cleans) && Ordered(Passing(n)[i..], if i <= 4 then WINDOW else WINDOW + 1)
    ensures Failures(Passing(n)[i..], "k") == n - i
    decreases n - i
  {
    if i < n {
      var m := PassingStep(l, n, i, cleans);
      PassingNeverLocks(m, n, i + 1, cleans);
      assert Passing(n)[i..][1..] == Passing(n)[i + 1..] && Passing(n)[i..][0] == Passing(n)[i];
      if i == 3 && n > 4 { assert Passing(n)[i + 1..][0].now == WINDOW + 1; }
    }
  }

  // A run in which so many failures of a key fall within a minute, with no success between
  // them, and the key is never locked.
  ghost predicate PassesWith(n: nat, cleans: bool, before: seq<Event>, key: string, start: nat, events: seq<Event>) {
    && Ordered(before, 0) && Ordered(events, start)
    && (forall i :: 0 <= i < |before| ==> before[i].born <= start)
    && (forall i :: 0 <= i < |events| ==> events[i].now <= start + WINDOW && !(events[i].key == key && events[i].call.RegisterSuccess?))
    && Unlocked(After(START, before, cleans), key, start)
    && Failures(events, key) == n && NeverLocks(After(START, before, cleans), key, events, cleans)
  }

  // Eight is what two adjacent windows let through: some run has n failures within a minute
  // and no lock exactly when n is at most eight.
  lemma EightFailuresAreTheMost(n: nat, cleans: bool)
    ensures (exists before, key, start, events :: PassesWith(n, cleans, before, key, start, events)) <==> n <= 8
  {
    if n <= 8 {
      var l := Step(START, FIRST, cleans).0;
      assert [FIRST][..0] == [] && [FIRST][..1] == [FIRST];
      AnswersFrom(START, [FIRST], 0, START, cleans);
      assert l.entries == map["k" := Entry(0, 0, 0)];
      PassingNeverLocks(l, n, 0, cleans);
      assert Passing(n)[0..] == Passing(n);
      assert PassesWith(n, cleans, [FIRST], "k", WINDOW, Passing(n));
    } else {
      forall before, key, start, events | PassesWith(n, cleans, before, key, start, events) ensures false {
        NineFailuresLock(before, key, start, events, cleans);
      }
    }
  }

  // After k failures of a key, counted from one that started a window: that window still
  // stands, or it has run out and the entry, if there still is one, counts fewer.
  predicate Tracks(l: Limiter, key: string, begun: nat, k: nat, clock: nat) {
    || (key in l.entries && l.entries[key].windowStarted == begun && l.entries[key].failures == k && l.entries[key].lockedUntil <= clock)
    || (clock - begun > WINDOW && (key in l.entries ==> l.entries[key].failures < k && l.entries[key].lockedUntil <= clock))
  }

  lemma TracksOn(l: Limiter, key: string, begun: nat, k: nat, clock: nat, ev: Event, cleans: bool)
    requires Tracks(l, key, begun, k, clock) && clock <= ev.now <= ev.born && 1 <= k
    requires k + Failures([ev], key) <= 4 && !(ev.key == key && ev.call.RegisterSuccess?)
    ensures Tracks(Step(l, ev, cleans).0, key, begun, k + Failures([ev], key), ev.born)
    ensures Unlocked(Step(l, ev, cleans).0, key, ev.now)
  {
    assert Failures([ev], key) == if ev.key == key && ev.call.RegisterFailure? then 1 else 0;
  }

  lemma {:induction false} RunTracks(l: Limiter, key: string, begun: nat, k: nat, clock: nat, events: seq<Event>, cleans: bool)
    requires Tracks(l, key, begun, k, clock) && Ordered(events, clock) && 1 <= k && k + Failures(events, key) <= 4
    requires forall i :: 0 <= i < |events| ==> !(events[i].key == key && events[i].call.RegisterSuccess?)
    ensures Tracks(After(l, events, cleans), key, begun, k + Failures(events, key), if events == [] then clock else events[|events| - 1].born)
    ensures NeverLocks(l, key, events, cleans)
    decreases |events|
  {
    if events != [] {
      TracksOn(l, key, begun, k, clock, events[0], cleans);
      assert Failures([events[0]], key) + Failures(events[1..], key) == Failures(events, key);
      forall i | 0 <= i < |events[1..]| ensures !(events[1..][i].key == key && events[1..][i].call.RegisterSuccess?) {
        assert events[1..][i] == events[i + 1];
      }
      RunTracks(Step(l, events[0], cleans).0, key, begun, k + Failures([events[0]], key), events[0].born, events[1..], cleans);
    }
  }

  // In every run, with calls for other keys, attempts with this one and removals in between:
  // when a failure is the first of an unlocked key's window and three more follow without a
  // success, none of them locks, and the fifth does exactly when it still falls in the window
  // the first was counted in.
  lemma FiveFailuresLockExactly(before: seq<Event>, first: Event, between: seq<Event>, fifth: Event, clock: nat, cleans: bool)
    requires Ordered(before, 0) && (forall i :: 0 <= i < |before| ==> before[i].born <= clock)
    requires clock <= first.now <= first.born && Ordered(between + [fifth], first.born)
    requires first.call.RegisterFailure? && fifth.call.RegisterFailure? && fifth.key == first.key
    requires var l := Step(After(START, before, cleans), first, cleans).0;
             l.entries[first.key].failures == 1 && Unlocked(l, first.key, first.now)
    requires forall i :: 0 <= i < |between| ==> !(between[i].key == first.key && between[i].call.RegisterSuccess?)
    requires Failures(between, first.key) == 3
    ensures var key := first.key;
            var l := Step(After(START, before, cleans), first, cleans).0;
            var locked := Step(After(l, between, cleans), fifth, cleans).0;
            && NeverLocks(l, key, between, cleans) && key in locked.entries
            && (fifth.now - l.entries[key].windowStarted <= WINDOW ==> locked.entries[key].lockedUntil == fifth.now + LOCKOUT)
            && (Unlocked(locked, key, fifth.now) <==> fifth.now - l.entries[key].windowStarted > WINDOW)
  {
    var key := first.key;
    var l := Step(After(START, before, cleans), first, cleans).0;
    var begun := l.entries[key].windowStarted;
    OrderedParts(between, fifth, first.born);
    LastAfter(between, fifth, first.born);
    assert Tracks(l, key, begun, 1, first.born);
    RunTracks(l, key, begun, 1, first.born, between, cleans);
    FifthDecides(After(l, between, cleans), begun, if between == [] then first.born else between[|between| - 1].born, fifth, cleans);
  }

  lemma FifthDecides(l: Limiter, begun: nat, clock: nat, fifth: Event, cleans: bool)
    requires Tracks(l, fifth.key, begun, 4, clock) && clock <= fifth.now <= fifth.born && fifth.call.RegisterFailure?
    ensures var locked := Step(l, fifth, cleans).0;
            && fifth.key in locked.entries
            && (fifth.now - begun <= WINDOW ==> locked.entries[fifth.key].lockedUntil == fifth.now + LOCKOUT)
            && (fifth.now - begun > WINDOW ==> locked.entries[fifth.key].lockedUntil <= fifth.now)
  {
  }

  lemma {:induction false} LastAfter(events: seq<Event>, last: Event, clock: nat)
    requires Ordered(events + [last], clock)
    ensures (if events == [] then clock else events[|events| - 1].born) <= last.now
    decreases |events|
  {
    if events == [] {
      assert events + [last] == [last];
    } else {
      assert (events + [last])[1..] == events[1..] + [last];
      LastAfter(events[1..], last, events[0].born);
    }
  }

  // ---- the limiter itself ----

  class LoginRateLimiter {
    var entries: map<string, Entry>
    var nextCleanup: nat

    constructor ()
      ensures State() == START
    {
      entries, nextCleanup := map[], 0;
    }

    function State(): Limiter
      reads this
    {
      Limiter(entries, nextCleanup)
    }

    method TryAcquire(key: string, now: nat, born: nat) returns (accepted: bool, retryAfter: nat)
      modifies this
      ensures (State(), if accepted then Accepted else Refused(retryAfter))
           == Step(old(State()), Event(Call.TryAcquire, key, now, born), true)
      ensures accepted ==> retryAfter == 0
    {
      CleanupExpired(now);
      var entry := if key in entries then entries[key] else Fresh(born);
      ghost var cleaned := entries;
      entries := entries[key := entry];
      if entry.lockedUntil > now {
        return false, entry.lockedUntil - now;
      }
      if now - entry.windowStarted > WINDOW {
        entry := entry.(windowStarted := now, failures := 0);
        entries := entries[key := entry];
        assert entries == cleaned[key := entry];
      }
      return true, 0;
    }

    method RegisterFailure(key: string, now: nat, born: nat)
      modifies this
      ensures State() == Step(old(State()), Event(Call.RegisterFailure, key, now, born), true).0
    {
      CleanupExpired(now);
      var entry := if key in entries then entries[key] else Fresh(born);
      if now - entry.windowStarted > WINDOW {
        entry := entry.(windowStarted := now, failures := 0);
      }
      entry := entry.(failures := entry.failures + 1);
      if entry.failures >= MAX_FAILURES {
        entry := entry.(lockedUntil := now + LOCKOUT);
      }
      entries := entries[key := entry];
    }

    method RegisterSuccess(key: string)
      modifies this
      ensures forall t: nat :: State() == Step(old(State()), Event(Call.RegisterSuccess, key, t, t), true).0
    {
      entries := entries - {key};
    }

    method CleanupExpired(now: nat)
      modifies this
      ensures State() == Cleanup(old(State()), now)
    {
      if now < nextCleanup {
        return;
      }
      nextCleanup := now + WINDOW;
      var snapshot := entries;
      var left := entries.Keys;
      while left != {}
        invariant left <= snapshot.Keys
        invariant entries == map k | k in snapshot && (k in left || !Expired(snapshot[k], now)) :: snapshot[k]
        invariant nextCleanup == now + WINDOW
        decreases |left|
      {
        var key :| key in left;
        if snapshot[key].lockedUntil <= now && now - snapshot[key].windowStarted > WINDOW {
          entries := entries - {key};
        }
        left := left - {key};
      }
    }
  }
}
