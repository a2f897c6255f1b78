/**
 What the rate limiter promises over whole runs. The common tool is `Projection`: two limiters, each
 evicting or not, one of them seeing only the requests of some keys, give those keys the same answers.
 */
module LimiterRuns {
  import opened Wrappers
  import opened Limiter

  // ---------- Eviction and other keys cannot be observed ----------

  /** The next request at or after `t` opens a new window and is not banned. */
  predicate Idle(rec: Option<Entry>, t: int) {
    rec.None? || (rec.value.bannedUntil <= t && t - rec.value.windowStart >= WINDOW)
  }

  /** No request at or after `t` can tell the two records apart. */
  predicate Alike(a: Option<Entry>, b: Option<Entry>, t: int) {
    || (Idle(a, t) && Idle(b, t))
    || (&& a.Some? && b.Some?
        && a.value.windowStart == b.value.windowStart
        && a.value.count == b.value.count
        && (a.value.bannedUntil == b.value.bannedUntil || (a.value.bannedUntil <= t && b.value.bannedUntil <= t)))
  }

  lemma TouchAlike(a: Option<Entry>, b: Option<Entry>, t: int, now: int, limit: int, ban: int)
    requires ZERO_TIME <= t <= now
    requires Alike(a, b, t)
    ensures Touch(a, now, limit, ban).1 == Touch(b, now, limit, ban).1
    ensures Alike(Some(Touch(a, now, limit, ban).0), Some(Touch(b, now, limit, ban).0), now)
  {
  }

  /** Evicting never changes what a key's next request will see. */
  lemma CleanupAlike(l: State, key: string, now: int)
    requires Valid(l, now)
    ensures Alike(Lookup(l.entries, key), Lookup(Cleanup(l, now).entries, key), now)
  {
  }

  function Only(run: seq<Event>, keep: string -> bool): seq<Event> {
    if run == [] then []
    else (if run[0].Request? && !keep(run[0].key) then [] else [run[0]]) + Only(run[1..], keep)
  }

  function Kept(replies: seq<Reply>, keep: string -> bool): seq<Reply> {
    if replies == [] then []
    else (if keep(replies[0].key) then [replies[0]] else []) + Kept(replies[1..], keep)
  }

  ghost predicate AlikeOn(l: State, m: State, keep: string -> bool, t: int) {
    && l.enabled == m.enabled && l.limit == m.limit && l.ban == m.ban
    && forall key :: keep(key) ==> Alike(Lookup(l.entries, key), Lookup(m.entries, key), t)
  }

  /** Cleaning up, or not, on either side keeps two records alike. */
  lemma CleanedAlike(l: State, m: State, le: bool, me: bool, key: string, t: int, now: int)
    requires t <= now && Valid(l, t) && Valid(m, t)
    requires Alike(Lookup(l.entries, key), Lookup(m.entries, key), t)
    ensures Alike(Lookup((if le then Cleanup(l, now) else l).entries, key),
                  Lookup((if me then Cleanup(m, now) else m).entries, key), now)
  {
    CleanupAlike(l, key, now);
    CleanupAlike(m, key, now);
  }

  /** A request of a key that is not kept changes nothing for the kept keys. */
  lemma OtherKeyAlike(l: State, m: State, evicts: bool, keep: string -> bool, e: Event, t: int)
    requires e.Request? && !keep(e.key)
    requires t <= e.now && Valid(l, t) && Valid(m, t)
    requires AlikeOn(l, m, keep, t)
    ensures AlikeOn(Step(l, e, evicts), m, keep, e.now)
  {
    forall key | keep(key)
      ensures Alike(Lookup(Step(l, e, evicts).entries, key), Lookup(m.entries, key), e.now)
    {
      CleanedAlike(l, m, evicts, false, key, t, e.now);
      CleanedAlike(l, m, false, false, key, t, e.now);
    }
  }

  lemma SharedRequestAlike(l: State, m: State, le: bool, me: bool, e: Event, key: string, t: int)
    requires e.Request? && t <= e.now && Valid(l, t) && Valid(m, t) && Active(l)
    requires l.enabled == m.enabled && l.limit == m.limit && l.ban == m.ban
    requires Alike(Lookup(l.entries, key), Lookup(m.entries, key), t)
    requires Alike(Lookup(l.entries, e.key), Lookup(m.entries, e.key), t)
    ensures Emit(l, e, le) == Emit(m, e, me)
    ensures Alike(Lookup(Step(l, e, le).entries, key), Lookup(Step(m, e, me).entries, key), e.now)
  {
    var lc := if le then Cleanup(l, e.now) else l;
    var mc := if me then Cleanup(m, e.now) else m;
    CleanedAlike(l, m, le, me, e.key, t, e.now);
    TouchAlike(Lookup(lc.entries, e.key), Lookup(mc.entries, e.key), e.now, e.now, l.limit, l.ban);
    CleanedAlike(l, m, le, me, key, t, e.now);
  }

  lemma SharedStepAlike(l: State, m: State, le: bool, me: bool, keep: string -> bool, e: Event, t: int)
    requires e.Request? ==> keep(e.key)
    requires Ordered([e], t) && Valid(l, t) && Valid(m, t)
    requires AlikeOn(l, m, keep, t)
    ensures Emit(l, e, le) == Emit(m, e, me)
    ensures AlikeOn(Step(l, e, le), Step(m, e, me), keep, Clock(e, t))
  {
    if e.Request? && Active(l) {
      SharedRequestAlike(l, m, le, me, e, e.key, t);
      forall key | keep(key)
        ensures Alike(Lookup(Step(l, e, le).entries, key), Lookup(Step(m, e, me).entries, key), e.now)
      {
        SharedRequestAlike(l, m, le, me, e, key, t);
      }
    }
  }

  lemma {:induction false} Projection(l: State, m: State, le: bool, me: bool, run: seq<Event>,
                                      keep: string -> bool, t: int)
    requires Ordered(run, t) && Valid(l, t) && Valid(m, t)
    requires AlikeOn(l, m, keep, t)
    ensures Kept(Replies(l, run, le), keep) == Replies(m, Only(run, keep), me)
    decreases |run|
  {
    if run != [] {
      var e, rest := run[0], run[1..];
      var t' := Clock(e, t);
      StepKeepsValid(l, e, le, t);
      var later := Replies(Step(l, e, le), rest, le);
      if e.Request? && !keep(e.key) {
        OtherKeyAlike(l, m, le, keep, e, t);
        Projection(Step(l, e, le), m, le, me, rest, keep, t');
        assert Only(run, keep) == Only(rest, keep);
        assert Replies(l, run, le)[1..] == later;
      } else {
        SharedStepAlike(l, m, le, me, keep, e, t);
        StepKeepsValid(m, e, me, t);
        Projection(Step(l, e, le), Step(m, e, me), le, me, rest, keep, t');
        assert Only(run, keep) == [e] + Only(rest, keep);
        assert Only(run, keep)[1..] == Only(rest, keep);
        assert Replies(l, run, le) == Emit(l, e, le) + later;
        assert e.Request? ==> Replies(l, run, le)[1..] == later;
        assert !e.Request? ==> Replies(l, run, le) == later;
      }
    }
  }

  lemma {:induction false} KeepAll(run: seq<Event>, replies: seq<Reply>, keep: string -> bool)
    requires forall key :: keep(key)
    ensures Only(run, keep) == run && Kept(replies, keep) == replies
    decreases |run| + |replies|
  {
    if run != [] { KeepAll(run[1..], replies, keep); }
    if replies != [] { KeepAll(run, replies[1..], keep); }
  }

  /** Deleting stale records changes no answer of any run. */
  lemma EvictionIsInvisible(l: State, run: seq<Event>, t: int)
    requires Valid(l, t) && Ordered(run, t)
    ensures Replies(l, run, true) == Replies(l, run, false)
  {
    var all := (key: string) => true;
    Projection(l, l, true, false, run, all, t);
    KeepAll(run, Replies(l, run, true), all);
  }

  /** The answers given to some keys are those of the run without any other key's requests. */
  lemma KeysAreIndependent(l: State, run: seq<Event>, keep: string -> bool, t: int)
    requires Valid(l, t) && Ordered(run, t)
    ensures Kept(Replies(l, run), keep) == Replies(l, Only(run, keep))
  {
    Projection(l, l, true, true, run, keep, t);
  }

  // ---------- A limiter that is off ----------

  /** Disabled, or without a positive limit, a limiter allows every request and keeps no account of it. */
  lemma OffAllows(l: State, key: string, now: int, evicts: bool)
    requires !l.enabled || l.limit <= 0
    ensures Allow(l, key, now, evicts) == (l, Answer(true, 0))
  {
  }

  predicate StaysDisabled(run: seq<Event>) {
    forall e :: e in run ==> e != SetEnabled(true)
  }

  function WithoutRequests(run: seq<Event>): seq<Event> {
    if run == [] then [] else (if run[0].Request? then [] else [run[0]]) + WithoutRequests(run[1..])
  }

  lemma {:induction false} DisabledRun(l: State, run: seq<Event>, evicts: bool)
    requires !l.enabled && StaysDisabled(run)
    ensures forall r :: r in Replies(l, run, evicts) ==> r.answer == Answer(true, 0)
    ensures Replies(l, WithoutRequests(run), evicts) == []
    ensures Final(l, run, evicts) == Final(l, WithoutRequests(run), evicts)
    decreases |run|
  {
    if run != [] {
      var e, rest := run[0], run[1..];
      assert e in run;
      if e.Request? {
        OffAllows(l, e.key, e.now, evicts);
        assert WithoutRequests(run) == WithoutRequests(rest);
      } else {
        assert WithoutRequests(run)[0] == e && WithoutRequests(run)[1..] == WithoutRequests(rest);
        if e.SetEnabled? { assert e != SetEnabled(true) && !e.enabled; }
      }
      assert forall x :: x in rest ==> x in run;
      DisabledRun(Step(l, e, evicts), rest, evicts);
    }
  }

  /** From `SetEnabled(false)` until it is enabled again a limiter allows every request, and afterwards it
      answers as if these requests had never been. */
  lemma DisabledStretch(l: State, stretch: seq<Event>, more: seq<Event>, evicts: bool)
    requires StaysDisabled(stretch)
    ensures var off := Step(l, SetEnabled(false), evicts);
            && (forall r :: r in Replies(off, stretch, evicts) ==> r.answer == Answer(true, 0))
            && Replies(off, stretch + more, evicts)
               == Replies(off, stretch, evicts) + Replies(off, WithoutRequests(stretch) + more, evicts)
  {
    var off := Step(l, SetEnabled(false), evicts);
    DisabledRun(off, stretch, evicts);
    RunsCompose(off, stretch, more, evicts);
    RunsCompose(off, WithoutRequests(stretch), more, evicts);
    var later := Replies(Final(off, stretch, evicts), more, evicts);
    assert Replies(off, WithoutRequests(stretch) + more, evicts) == [] + later == later;
  }

  // ---------- How many requests fit in one window length ----------

  predicate Within(now: int, a: int) {
    a <= now < a + WINDOW
  }

  /** Every request of `key` in [a, a + WINDOW) meets a limiter that is on, with a limit from 1 to `cap`. */
  predicate LimitedTo(l: State, run: seq<Event>, key: string, a: int, cap: int)
    decreases |run|
  {
    run == [] ||
    (&& (run[0].Request? && run[0].key == key && Within(run[0].now, a) ==> l.enabled && 1 <= l.limit <= cap)
     && LimitedTo(Step(l, run[0]), run[1..], key, a, cap))
  }

  predicate Counts(r: Reply, key: string, a: int) {
    r.key == key && Within(r.now, a) && r.answer.allowed
  }

  /** The number of requests of `key` that were let through during [a, a + WINDOW). */
  function Admitted(replies: seq<Reply>, key: string, a: int): nat {
    if replies == [] then 0
    else (if Counts(replies[0], key, a) then 1 else 0) + Admitted(replies[1..], key, a)
  }

  function Left(cap: int, count: int): nat {
    if count < cap then cap - count else 0
  }

  /** The most requests that can still be admitted during [a, a + WINDOW) once its time has come. */
  function Budget(rec: Option<Entry>, t: int, a: int, cap: nat): nat {
    if t >= a + WINDOW then 0
    else if rec.None? then cap
    else Left(cap, rec.value.count) + (if rec.value.windowStart < a then cap else 0)
  }

  lemma StepSpendsBudget(l: State, e: Event, key: string, a: int, cap: nat, t: int)
    requires Valid(l, t) && Ordered([e], t) && a <= t
    requires LimitedTo(l, [e], key, a, cap)
    ensures Admitted(Emit(l, e), key, a) + Budget(Lookup(Step(l, e).entries, key), Clock(e, t), a, cap)
         <= Budget(Lookup(l.entries, key), t, a, cap)
  {
    assert e.Request? ==> Emit(l, e)[1..] == [];
  }

  lemma {:induction false} AdmittedSplits(r: seq<Reply>, s: seq<Reply>, key: string, a: int)
    ensures Admitted(r + s, key, a) == Admitted(r, key, a) + Admitted(s, key, a)
  {
    if r == [] {
      assert r + s == s;
    } else {
      assert (r + s)[1..] == r[1..] + s;
      AdmittedSplits(r[1..], s, key, a);
    }
  }

  lemma {:induction false} RunSpendsBudget(l: State, run: seq<Event>, key: string, a: int, cap: nat, t: int)
    requires Valid(l, t) && Ordered(run, t) && a <= t
    requires LimitedTo(l, run, key, a, cap)
    ensures Admitted(Replies(l, run), key, a) <= Budget(Lookup(l.entries, key), t, a, cap)
    decreases |run|
  {
    if run != [] {
      var e, next := run[0], Step(l, run[0]);
      StepSpendsBudget(l, e, key, a, cap, t);
      StepKeepsValid(l, e, true, t);
      RunSpendsBudget(next, run[1..], key, a, cap, Clock(e, t));
      AdmittedSplits(Emit(l, e), Replies(next, run[1..]), key, a);
    }
  }

  /** Any half-open interval of one window length holds at most 2 * cap - 1 admitted requests of one key. */
  lemma {:induction false} IntervalBound(l: State, run: seq<Event>, key: string, a: int, cap: nat, t: int)
    requires cap >= 1
    requires Valid(l, t) && Ordered(run, t)
    requires LimitedTo(l, run, key, a, cap)
    ensures Admitted(Replies(l, run), key, a) <= 2 * cap - 1
    decreases |run|
  {
    if run != [] {
      var e := run[0];
      if a <= Clock(e, t) {
        var now := Clock(e, t);
        assert Ordered(run, now);
        RunSpendsBudget(l, run, key, a, cap, now);
      } else {
        StepKeepsValid(l, e, true, t);
        IntervalBound(Step(l, e), run[1..], key, a, cap, Clock(e, t));
        AdmittedSplits(Emit(l, e), Replies(Step(l, e), run[1..]), key, a);
      }
    }
  }

  function Burst(key: string, now: int, n: nat): seq<Event> {
    if n == 0 then [] else [Request(key, now)] + Burst(key, now, n - 1)
  }

  /** Inside an open window all requests up to the limit are admitted. */
  lemma {:induction false} BurstAdmitted(l: State, key: string, now: int, n: nat, a: int)
    requires Active(l) && key in l.entries && l.entries[key].bannedUntil <= now
    requires now - l.entries[key].windowStart < WINDOW && l.entries[key].count + n <= l.limit
    requires Within(now, a)
    ensures Admitted(Replies(l, Burst(key, now, n), false), key, a) == n
    ensures Final(l, Burst(key, now, n), false).entries.Keys == l.entries.Keys
    ensures var rec := Final(l, Burst(key, now, n), false).entries[key];
            rec.windowStart == l.entries[key].windowStart && rec.bannedUntil == l.entries[key].bannedUntil
    ensures var f := Final(l, Burst(key, now, n), false); f == l.(entries := f.entries)
    decreases n
  {
    if n > 0 {
      var e := Request(key, now);
      var next := Step(l, e, false);
      assert Burst(key, now, n)[1..] == Burst(key, now, n - 1);
      BurstAdmitted(next, key, now, n - 1, a);
      AdmittedSplits(Emit(l, e, false), Replies(next, Burst(key, now, n - 1), false), key, a);
      assert Emit(l, e, false)[1..] == [];
    }
  }

  lemma {:induction false} BurstOrdered(key: string, now: int, n: nat, t: int)
    requires t <= now
    ensures Ordered(Burst(key, now, n), t)
    ensures EndClock(Burst(key, now, n), t) == if n == 0 then t else now
    decreases n
  {
    if n > 0 {
      assert Burst(key, now, n)[1..] == Burst(key, now, n - 1);
      BurstOrdered(key, now, n - 1, now);
    }
  }

  /** The window opened at `now`, and the ban, if there was one since, was given at `now`. */
  predicate CountedAt(l: State, key: string, now: int) {
    && key in l.entries && l.entries[key].windowStart == now
    && (if l.entries[key].count <= l.limit then l.entries[key].bannedUntil <= now
        else l.entries[key].bannedUntil == now + l.ban)
  }

  lemma {:induction false} BurstAnswers(l: State, key: string, now: int, m: nat)
    requires Active(l) && CountedAt(l, key, now)
    ensures var replies := Replies(l, Burst(key, now, m), false);
            && |replies| == m
            && forall j :: 0 <= j < m ==>
                 replies[j].answer == if l.entries[key].count + j < l.limit then Answer(true, 0)
                                      else Answer(false, RetryAfterSeconds(l.ban))
    decreases m
  {
    if m > 0 {
      var e := Request(key, now);
      assert Burst(key, now, m)[1..] == Burst(key, now, m - 1);
      BurstAnswers(Step(l, e, false), key, now, m - 1);
    }
  }

  /** A limiter that is switched on and given a limit of at least 1 allows exactly that many requests of a
      key that starts a window, and refuses all further ones at the time with the length of a ban. */
  lemma LimitIsExact(l: State, key: string, limit: int, now: int, m: nat, t: int)
    requires Valid(l, t) && t <= now && limit >= 1 && Idle(Lookup(l.entries, key), now)
    ensures var replies := Replies(Step(Step(l, SetEnabled(true)), SetLimit(limit)), Burst(key, now, m));
            && |replies| == m
            && forall j :: 0 <= j < m ==>
                 replies[j].answer == if j < limit then Answer(true, 0) else Answer(false, RetryAfterSeconds(l.ban))
  {
    var on := Step(Step(l, SetEnabled(true)), SetLimit(limit));
    BurstOrdered(key, now, m, t);
    EvictionIsInvisible(on, Burst(key, now, m), t);
    if m > 0 {
      assert Burst(key, now, m)[1..] == Burst(key, now, m - 1);
      BurstAnswers(Step(on, Request(key, now), false), key, now, m - 1);
    }
  }

  /** The requests that fill the end of one window and then the start of the next. */
  function Straddle(key: string, cap: nat): seq<Event>
    requires cap >= 1
  {
    [Request(key, 0)] + (Burst(key, WINDOW - 1, cap - 1) + ([Request(key, WINDOW)] + Burst(key, WINDOW, cap - 1)))
  }

  lemma StraddleOrdered(key: string, cap: nat)
    requires cap >= 1
    ensures Ordered(Straddle(key, cap), 0)
  {
    var late := [Request(key, WINDOW)] + Burst(key, WINDOW, cap - 1);
    var early := Burst(key, WINDOW - 1, cap - 1);
    BurstOrdered(key, WINDOW - 1, cap - 1, 0);
    BurstOrdered(key, WINDOW, cap - 1, WINDOW);
    assert late[1..] == Burst(key, WINDOW, cap - 1);
    OrderComposes(early, late, 0);
    assert Straddle(key, cap)[1..] == early + late;
  }

  /** A request that opens a window, and the burst that fills it, are all admitted. */
  lemma OpeningAdmitted(l: State, key: string, now: int, cap: nat, a: int)
    requires Active(l) && l.limit == cap && Idle(Lookup(l.entries, key), now)
    requires ZERO_TIME <= now && Within(now, a)
    ensures Admitted(Replies(l, [Request(key, now)] + Burst(key, now, cap - 1), false), key, a) == cap
  {
    var e, rest := Request(key, now), Burst(key, now, cap - 1);
    var next := Step(l, e, false);
    assert ([e] + rest)[1..] == rest;
    assert Emit(l, e, false)[1..] == [];
    AdmittedSplits(Emit(l, e, false), Replies(next, rest, false), key, a);
    BurstAdmitted(next, key, now, cap - 1, a);
  }

  /** The bound is reached: by `Straddle`, for every limit and every ban length. */
  lemma IntervalBoundIsTight(key: string, cap: nat, ban: int)
    requires cap >= 1
    ensures Valid(New(true, cap, ban, 0), 0) && Ordered(Straddle(key, cap), 0)
    ensures Admitted(Replies(New(true, cap, ban, 0), Straddle(key, cap)), key, 1) == 2 * cap - 1
  {
    var l := New(true, cap, ban, 0);
    StraddleOrdered(key, cap);
    EvictionIsInvisible(l, Straddle(key, cap), 0);
    var first := Request(key, 0);
    var early, late := Burst(key, WINDOW - 1, cap - 1), [Request(key, WINDOW)] + Burst(key, WINDOW, cap - 1);
    var l1 := Step(l, first, false);
    assert Straddle(key, cap)[1..] == early + late;
    assert Emit(l, first, false)[1..] == [];
    BurstAdmitted(l1, key, WINDOW - 1, cap - 1, 1);
    RunsCompose(l1, early, late, false);
    OpeningAdmitted(Final(l1, early, false), key, WINDOW, cap, 1);
    AdmittedSplits(Emit(l, first, false), Replies(l1, early + late, false), key, 1);
    AdmittedSplits(Replies(l1, early, false), Replies(Final(l1, early, false), late, false), key, 1);
  }

  // ---------- Bans ----------

  /** The retry hint of a refusal points at the end of the ban, rounded up to a whole second, if and
      only if the limiter was not set up with a ban of minus one second or less. */
  lemma RetryHint(l: State, key: string, now: int, t: int)
    requires Valid(l, t) && t <= now
    requires !Allow(l, key, now).1.allowed
    ensures var (after, answer) := Allow(l, key, now);
            var end := after.entries[key].bannedUntil;
            (end <= now + answer.retryAfter * SECOND < end + SECOND <==> l.ban > -SECOND)
  {
  }

  /** `key` is serving a ban until `end`, or served it and was forgotten since. */
  predicate Serving(l: State, key: string, end: int, t: int) {
    if key in l.entries then l.entries[key].bannedUntil == end && l.entries[key].windowStart + WINDOW <= end
    else t > end
  }

  /** Through `run`, every accounted request of `key` is refused, leaves the end of the ban where it
      was, and is told to come back at that end, rounded up to a whole second. */
  predicate RefusedUntil(l: State, run: seq<Event>, key: string, end: int)
    decreases |run|
  {
    run == [] ||
    (&& (run[0].Request? && run[0].key == key && Active(l) ==>
           var (after, answer) := Allow(l, key, run[0].now);
           && !answer.allowed
           && key in after.entries && after.entries[key].bannedUntil == end
           && end <= run[0].now + answer.retryAfter * SECOND < end + SECOND)
     && RefusedUntil(Step(l, run[0]), run[1..], key, end))
  }

  /** `run` holds no request of `key` at or after `end`. */
  predicate AwayFrom(run: seq<Event>, key: string, end: int) {
    forall e :: e in run && e.Request? && e.key == key ==> e.now < end
  }

  lemma {:induction false} BanIsServed(l: State, run: seq<Event>, key: string, end: int, t: int)
    requires Valid(l, t) && Ordered(run, t)
    requires Serving(l, key, end, t) && AwayFrom(run, key, end)
    ensures RefusedUntil(l, run, key, end)
    ensures Serving(Final(l, run), key, end, EndClock(run, t))
    decreases |run|
  {
    if run != [] {
      var e := run[0];
      assert e in run;
      StepKeepsValid(l, e, true, t);
      assert AwayFrom(run[1..], key, end);
      BanIsServed(Step(l, e), run[1..], key, end, Clock(e, t));
    }
  }

  /** The life of a ban of at least one window: whatever else happens, requests of the key are refused
      until it ends, none of them extends it, and the first one at or after the end is let through,
      whether or not the record was evicted in between. */
  lemma BanLifecycle(l: State, key: string, b: int, run: seq<Event>, now: int, t: int)
    requires Valid(l, t) && t <= b && l.ban >= WINDOW
    requires !Allow(l, key, b).1.allowed
    requires Ordered(run, b) && EndClock(run, b) <= now
    requires var end := Allow(l, key, b).0.entries[key].bannedUntil; AwayFrom(run, key, end) && end <= now
    ensures var banned := Allow(l, key, b).0;
            && RefusedUntil(banned, run, key, banned.entries[key].bannedUntil)
            && Allow(Final(banned, run), key, now).1 == Answer(true, 0)
  {
    var banned := Allow(l, key, b).0;
    var end := banned.entries[key].bannedUntil;
    StepKeepsValid(l, Request(key, b), true, t);
    BanIsServed(banned, run, key, end, b);
    FinalValid(banned, run, true, b);
  }

  /** For every shorter ban, also a negative one, the last part fails: the window that led to the ban may
      still be open. */
  lemma ShortBanRefusesAgain(key: string, ban: int)
    requires ban < WINDOW
    ensures var banned := Final(New(true, 1, ban, 0), [Request(key, 0), Request(key, 0)]);
            && key in banned.entries && banned.entries[key].bannedUntil == ban
            && !Allow(banned, key, if ban < 0 then 0 else ban).1.allowed
  {
    var l := New(true, 1, ban, 0);
    var run := [Request(key, 0), Request(key, 0)];
    var once := Step(l, run[0]);
    assert run[1..] == [run[1]] && run[1..][1..] == [];
    assert Final(once, run[1..]) == Step(once, run[1]);
  }

  // ---------- Memory ----------

  /** Once it cleaned up, a limiter drops no record for the length of an interval. */
  lemma CleanupIsRare(l: State, key: string, now: int, other: string, later: int)
    requires Active(l) && now - l.lastCleanup >= CLEANUP_INTERVAL && now <= later < now + CLEANUP_INTERVAL
    ensures var cleaned := Step(l, Request(key, now));
            cleaned.entries.Keys <= Step(cleaned, Request(other, later)).entries.Keys
  {
  }

  /** Right after an accounted request at `now`, every record still held was seen less than three
      windows ago, or its ban ended less than one window ago or has not ended; and no record was dropped
      that was seen during the last two windows or is banned. */
  lemma EvictionBound(l: State, run: seq<Event>, key: string, now: int, t: int)
    requires Valid(l, t) && Ordered(run, t) && EndClock(run, t) <= now
    requires Active(Final(l, run))
    ensures var before, after := Final(l, run), Allow(Final(l, run), key, now).0;
            forall k :: k in before.entries && k !in after.entries ==>
              now - before.entries[k].lastSeen > 2 * WINDOW && before.entries[k].bannedUntil < now
    ensures var after := Allow(Final(l, run), key, now).0;
            forall k :: k in after.entries ==>
              now - after.entries[k].lastSeen < 3 * WINDOW || now - after.entries[k].bannedUntil < WINDOW
  {
    FinalValid(l, run, true, t);
    StepKeepsValid(Final(l, run), Request(key, now), true, EndClock(run, t));
  }
}
