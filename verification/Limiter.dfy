/**
 The per-key rate limiter of internal/ratelimit/limiter.go as a state machine on values.

 Instants are integer nanoseconds counted from Go's zero time, so an unset `bannedUntil` is 0.
 `LimiterObject` holds the class whose methods carry out these steps in place.
 */
module Limiter {
  import opened Wrappers

  const WINDOW: int := 60 * SECOND
  const CLEANUP_INTERVAL: int := 60 * SECOND
  const ZERO_TIME: int := 0

  datatype Entry = Entry(windowStart: int, count: int, bannedUntil: int, lastSeen: int)

  datatype Answer = Answer(allowed: bool, retryAfter: int)

  datatype State = State(enabled: bool, limit: int, ban: int, entries: map<string, Entry>, lastCleanup: int)

  function New(enabled: bool, limit: int, ban: int, now: int): State {
    State(enabled, limit, ban, map[], now)
  }

  /** Rounds a wait up to whole seconds; a wait that is over is reported as 0. */
  function RetryAfterSeconds(duration: int): (seconds: int)
    ensures seconds >= 0
    ensures 0 <= seconds * SECOND - duration < SECOND <==> duration > -SECOND
    ensures duration <= 0 <==> seconds == 0
  {
    if duration <= 0 then 0 else (duration + SECOND - 1) / SECOND
  }

  predicate Stale(e: Entry, now: int) {
    e.bannedUntil < now && now - e.lastSeen > 2 * WINDOW
  }

  function Evict(entries: map<string, Entry>, now: int): map<string, Entry> {
    map key | key in entries && !Stale(entries[key], now) :: entries[key]
  }

  function Cleanup(l: State, now: int): State {
    if now - l.lastCleanup < CLEANUP_INTERVAL then l
    else l.(entries := Evict(l.entries, now), lastCleanup := now)
  }

  /** The record of one key after one counted request, and the answer that request gets. */
  function Touch(rec: Option<Entry>, now: int, limit: int, ban: int): (Entry, Answer) {
    var known := if rec.None? then Entry(now, 0, ZERO_TIME, now) else rec.value;
    var seen := known.(lastSeen := now);
    if seen.bannedUntil > now then
      (seen, Answer(false, RetryAfterSeconds(seen.bannedUntil - now)))
    else
      var open := if now - seen.windowStart >= WINDOW then seen.(windowStart := now, count := 0) else seen;
      var counted := open.(count := open.count + 1);
      if counted.count > limit then
        (counted.(bannedUntil := now + ban), Answer(false, RetryAfterSeconds(ban)))
      else
        (counted, Answer(true, 0))
  }

  /** A record that is created empty and then charged ends as one that was never seen before. */
  lemma TouchCreated(now: int, limit: int, ban: int)
    ensures Touch(Some(Entry(now, 0, ZERO_TIME, ZERO_TIME)), now, limit, ban) == Touch(None, now, limit, ban)
  {
  }

  /** Requests are only accounted for while the limiter is on and has a positive limit. */
  predicate Active(l: State) {
    l.enabled && l.limit > 0
  }

  /** One request. `evicts` is true for the limiter as written; false gives one that never deletes. */
  function Allow(l: State, key: string, now: int, evicts: bool := true): (State, Answer) {
    if !Active(l) then (l, Answer(true, 0))
    else
      var cleaned := if evicts then Cleanup(l, now) else l;
      var (rec, answer) := Touch(Lookup(cleaned.entries, key), now, l.limit, l.ban);
      (cleaned.(entries := cleaned.entries[key := rec]), answer)
  }

  datatype Event =
    | Request(key: string, now: int)
    | SetLimit(limit: int)
    | SetEnabled(enabled: bool)

  datatype Reply = Reply(key: string, now: int, answer: Answer)

  function Step(l: State, e: Event, evicts: bool := true): State {
    match e
    case Request(key, now) => Allow(l, key, now, evicts).0
    case SetLimit(limit) => l.(limit := limit)
    case SetEnabled(enabled) => l.(enabled := enabled)
  }

  function Emit(l: State, e: Event, evicts: bool := true): seq<Reply> {
    if e.Request? then [Reply(e.key, e.now, Allow(l, e.key, e.now, evicts).1)] else []
  }

  function Final(l: State, run: seq<Event>, evicts: bool := true): State
    decreases |run|
  {
    if run == [] then l else Final(Step(l, run[0], evicts), run[1..], evicts)
  }

  function Replies(l: State, run: seq<Event>, evicts: bool := true): seq<Reply>
    decreases |run|
  {
    if run == [] then [] else Emit(l, run[0], evicts) + Replies(Step(l, run[0], evicts), run[1..], evicts)
  }

  /** The clock readings of a run, in the order in which the lock was taken, start at or after `t`
      and never go back. The source reads the clock before it takes the lock. */
  predicate Ordered(run: seq<Event>, t: int) {
    run == [] || (if run[0].Request? then t <= run[0].now && Ordered(run[1..], run[0].now) else Ordered(run[1..], t))
  }

  /** The time after `e`, when the time before it was `t`. */
  function Clock(e: Event, t: int): int {
    if e.Request? then e.now else t
  }

  /** A record's last ban is over when its window opens, or ends a full ban after the window opened;
      a record is kept only when the last clean-up found it recent or banned, or when it is younger. */
  predicate ValidEntry(e: Entry, ban: int, lastCleanup: int, t: int) {
    && e.count >= 1
    && e.windowStart <= e.lastSeen <= t
    && (e.bannedUntil == ZERO_TIME || e.bannedUntil <= e.lastSeen + ban)
    && (e.bannedUntil <= e.windowStart || e.windowStart + ban <= e.bannedUntil)
    && (e.bannedUntil >= lastCleanup || lastCleanup - e.lastSeen <= 2 * WINDOW)
  }

  /** What holds of every limiter at or after the last clock reading `t`. */
  ghost predicate Valid(l: State, t: int) {
    && ZERO_TIME <= t
    && l.lastCleanup <= t
    && forall key :: key in l.entries ==> ValidEntry(l.entries[key], l.ban, l.lastCleanup, t)
  }

  lemma CleanupKeepsValid(l: State, now: int)
    requires Valid(l, now)
    ensures Valid(Cleanup(l, now), now)
  {
  }

  lemma TouchKeepsValid(rec: Option<Entry>, now: int, limit: int, ban: int, lastCleanup: int)
    requires ZERO_TIME <= now && lastCleanup <= now
    requires rec.Some? ==> ValidEntry(rec.value, ban, lastCleanup, now)
    ensures ValidEntry(Touch(rec, now, limit, ban).0, ban, lastCleanup, now)
  {
  }

  lemma StepKeepsValid(l: State, e: Event, evicts: bool, t: int)
    requires Valid(l, t)
    requires Ordered([e], t)
    ensures Valid(Step(l, e, evicts), Clock(e, t))
  {
    if e.Request? && Active(l) {
      CleanupKeepsValid(l, e.now);
      var cleaned := if evicts then Cleanup(l, e.now) else l;
      TouchKeepsValid(Lookup(cleaned.entries, e.key), e.now, l.limit, l.ban, cleaned.lastCleanup);
    }
  }

  function EndClock(run: seq<Event>, t: int): int
    decreases |run|
  {
    if run == [] then t else EndClock(run[1..], Clock(run[0], t))
  }

  lemma {:induction false} RunsCompose(l: State, run: seq<Event>, more: seq<Event>, evicts: bool)
    ensures Final(l, run + more, evicts) == Final(Final(l, run, evicts), more, evicts)
    ensures Replies(l, run + more, evicts) == Replies(l, run, evicts) + Replies(Final(l, run, evicts), more, evicts)
    decreases |run|
  {
    if run == [] {
      assert run + more == more;
    } else {
      assert (run + more)[1..] == run[1..] + more;
      RunsCompose(Step(l, run[0], evicts), run[1..], more, evicts);
    }
  }

  lemma {:induction false} OrderComposes(run: seq<Event>, more: seq<Event>, t: int)
    ensures Ordered(run + more, t) <==> Ordered(run, t) && Ordered(more, EndClock(run, t))
    decreases |run|
  {
    if run == [] {
      assert run + more == more;
    } else {
      assert (run + more)[1..] == run[1..] + more;
      OrderComposes(run[1..], more, Clock(run[0], t));
    }
  }

  lemma {:induction false} FinalValid(l: State, run: seq<Event>, evicts: bool, t: int)
    requires Valid(l, t) && Ordered(run, t)
    ensures Valid(Final(l, run, evicts), EndClock(run, t))
    decreases |run|
  {
    if run != [] {
      StepKeepsValid(l, run[0], evicts, t);
      FinalValid(Step(l, run[0], evicts), run[1..], evicts, Clock(run[0], t));
    }
  }
}
