/**
 The table of dynamic rules that both rule stores keep in memory: internal/store/rules.go,
 internal/store/types.go and the cache half of internal/plugins/storage/firestore/rule_store.go.
 A table maps a rule id to a rule and its request counter. Go visits a map in any order; here the
 rule a check stops at is part of the operation, and `EveryOrderIsAChoice` and `EveryChoiceHasAnOrder`
 show that the choices are exactly the outcomes of the orders.
 */
module RuleTable {
  import opened Wrappers

  const MAX_INT64: int := 0x7FFF_FFFF_FFFF_FFFF
  const MIN_INT64: int := -0x8000_0000_0000_0000

  datatype Rule = Rule(ruleId: string, targetHost: string, action: string, maxRPM: int,
                       pathPattern: Option<string>, rateByKey: bool, limiter: string,
                       throttleDelayMs: int, maxDelaySlots: int, durationSeconds: int, expiresAt: int)

  /** A rule in a table, with the value of its atomic counter. */
  datatype Live = Live(rule: Rule, count: int)

  type Table = map<string, Live>

  /** `path.Match`, of which nothing is assumed. */
  type Glob = (string, string) -> bool

  function WithExpiry(rule: Rule, now: int): Rule {
    if rule.expiresAt == 0 then rule.(expiresAt := now + rule.durationSeconds * SECOND) else rule
  }

  predicate Unexpired(rule: Rule, now: int) {
    rule.expiresAt > now
  }

  predicate IsGlob(pattern: string) {
    '*' in pattern || '?' in pattern || '[' in pattern
  }

  predicate MatchRulePath(pattern: string, path: string, glob: Glob) {
    if pattern == "" then true
    else if IsGlob(pattern) then glob(pattern, path)
    else pattern <= path
  }

  predicate KnownAction(action: string) {
    action == "block" || action == "allow" || action == "throttle"
  }

  predicate Decides(rule: Rule, host: string, path: string, now: int, glob: Glob) {
    && Unexpired(rule, now)
    && rule.targetHost == host
    && (rule.pathPattern.Some? ==> MatchRulePath(rule.pathPattern.value, path, glob))
    && KnownAction(rule.action)
  }

  /** An atomic 64-bit counter wraps around. */
  function Increment(count: int): int {
    if count == MAX_INT64 then MIN_INT64 else count + 1
  }

  function Bump(t: Table, id: string): Table
    requires id in t
  {
    t[id := t[id].(count := Increment(t[id].count))]
  }

  /** The answer of a check that stops at `pick`. */
  function Answer(t: Table, pick: Option<string>): bool
    requires pick.Some? ==> pick.value in t
  {
    pick.None? || (
      var live := t[pick.value];
      live.rule.action == "allow" || (live.rule.action == "throttle" && Increment(live.count) <= live.rule.maxRPM))
  }

  function AfterCheck(t: Table, pick: Option<string>): Table
    requires pick.Some? ==> pick.value in t
  {
    if pick.Some? && t[pick.value].rule.action == "throttle" then Bump(t, pick.value) else t
  }

  /** A check may stop at any rule that decides it, and at none only when there is no such rule. */
  predicate Choosable(t: Table, host: string, path: string, now: int, glob: Glob, pick: Option<string>) {
    match pick
    case None => forall id :: id in t ==> !Decides(t[id].rule, host, path, now, glob)
    case Some(id) => id in t && Decides(t[id].rule, host, path, now, glob)
  }

  // ---------- Iteration orders ----------

  /** The rule at which a check stops that visits the table in the given order. */
  function FirstIn(t: Table, order: seq<string>, host: string, path: string, now: int, glob: Glob)
    : (pick: Option<string>)
    ensures pick.Some? ==> pick.value in t && Decides(t[pick.value].rule, host, path, now, glob)
  {
    if order == [] then None
    else if order[0] in t && Decides(t[order[0]].rule, host, path, now, glob) then Some(order[0])
    else FirstIn(t, order[1..], host, path, now, glob)
  }

  ghost predicate IterationOrder(t: Table, order: seq<string>) {
    && (forall id :: id in t <==> id in order)
    && forall i, j :: 0 <= i < j < |order| ==> order[i] != order[j]
  }

  lemma {:induction false} FirstInOrder(t: Table, order: seq<string>, host: string, path: string, now: int, glob: Glob)
    ensures FirstIn(t, order, host, path, now, glob).None?
            ==> forall id :: id in order && id in t ==> !Decides(t[id].rule, host, path, now, glob)
  {
    if order != [] { FirstInOrder(t, order[1..], host, path, now, glob); }
  }

  lemma EveryOrderIsAChoice(t: Table, order: seq<string>, host: string, path: string, now: int, glob: Glob)
    requires IterationOrder(t, order)
    ensures Choosable(t, host, path, now, glob, FirstIn(t, order, host, path, now, glob))
  {
    FirstInOrder(t, order, host, path, now, glob);
  }

  lemma {:induction false} Enumerated(ids: set<string>) returns (order: seq<string>)
    ensures forall id :: id in ids <==> id in order
    ensures forall i, j :: 0 <= i < j < |order| ==> order[i] != order[j]
    decreases |ids|
  {
    if ids == {} {
      order := [];
    } else {
      var id :| id in ids;
      var rest := Enumerated(ids - {id});
      order := [id] + rest;
      assert forall x :: x in order <==> x == id || x in rest;
      assert forall j :: 0 <= j < |rest| ==> rest[j] in rest;
    }
  }

  lemma EveryChoiceHasAnOrder(t: Table, host: string, path: string, now: int, glob: Glob, pick: Option<string>)
    requires Choosable(t, host, path, now, glob, pick)
    ensures exists order :: IterationOrder(t, order) && FirstIn(t, order, host, path, now, glob) == pick
  {
    if pick.None? {
      var order := Enumerated(t.Keys);
      FirstInOrder(t, order, host, path, now, glob);
      assert IterationOrder(t, order);
    } else {
      var rest := Enumerated(t.Keys - {pick.value});
      var order := [pick.value] + rest;
      assert forall x :: x in order <==> x == pick.value || x in rest;
      assert forall j :: 0 <= j < |rest| ==> rest[j] in rest;
      assert IterationOrder(t, order);
    }
  }

  /** Whatever the order, a check gets the decision of one unexpired, matching rule with a known
      action, or is allowed when there is none, and at most that rule's counter changes. */
  lemma CheckOutcome(t: Table, order: seq<string>, host: string, path: string, now: int, glob: Glob)
    requires IterationOrder(t, order)
    ensures var pick := FirstIn(t, order, host, path, now, glob);
            (pick.Some? ==> pick.value in t) &&
            var answer, after := Answer(t, pick), AfterCheck(t, pick);
            && (pick.None? <==> forall id :: id in t ==> !Decides(t[id].rule, host, path, now, glob))
            && (pick.None? ==> answer && after == t)
            && (pick.Some? ==>
                  && Decides(t[pick.value].rule, host, path, now, glob)
                  && (t[pick.value].rule.action == "block" ==> !answer)
                  && (t[pick.value].rule.action == "allow" ==> answer)
                  && (t[pick.value].rule.action == "throttle" ==>
                      (answer <==> after[pick.value].count <= t[pick.value].rule.maxRPM)))
            && after.Keys == t.Keys
            && (forall id :: id in t ==> after[id].rule == t[id].rule && (pick != Some(id) ==> after[id] == t[id]))
  {
    EveryOrderIsAChoice(t, order, host, path, now, glob);
  }

  // ---------- Checks, read off the rules ----------

  /** The rule is for this request: it has not expired, it names the host, and it has no pattern, an empty
      one, a plain one that the path starts with, or one with `*`, `?` or `[` that the path matches. */
  predicate IsFor(rule: Rule, host: string, path: string, now: int, glob: Glob) {
    && now < rule.expiresAt
    && host == rule.targetHost
    && match rule.pathPattern
       case None => true
       case Some(pattern) =>
         || |pattern| == 0
         || (if '*' in pattern || '?' in pattern || '[' in pattern then glob(pattern, path)
             else |pattern| <= |path| && path[..|pattern|] == pattern)
  }

  /** What a rule says of a request it is for, if anything. A throttle rule counts the request first. */
  function Says(live: Live): Option<bool> {
    if live.rule.action == "block" then Some(false)
    else if live.rule.action == "allow" then Some(true)
    else if live.rule.action == "throttle" then Some(Increment(live.count) <= live.rule.maxRPM)
    else None
  }

  lemma DecidesExactly(t: Table, id: string, host: string, path: string, now: int, glob: Glob)
    requires id in t
    ensures Decides(t[id].rule, host, path, now, glob) <==>
            IsFor(t[id].rule, host, path, now, glob) && Says(t[id]).Some?
    ensures Decides(t[id].rule, host, path, now, glob) ==> Says(t[id]) == Some(Answer(t, Some(id)))
  {
  }

  /** The answers a check can get, over all iteration orders, are exactly what the rules for the request say;
      and when none of them says anything the check is allowed. */
  lemma AnswersExactly(t: Table, host: string, path: string, now: int, glob: Glob, answer: bool)
    ensures (exists order :: IterationOrder(t, order) && Answer(t, FirstIn(t, order, host, path, now, glob)) == answer)
       <==> || (exists id :: id in t && IsFor(t[id].rule, host, path, now, glob) && Says(t[id]) == Some(answer))
            || (answer && forall id :: id in t && IsFor(t[id].rule, host, path, now, glob) ==> Says(t[id]) == None)
  {
    forall id | id in t
      ensures Decides(t[id].rule, host, path, now, glob) <==>
              IsFor(t[id].rule, host, path, now, glob) && Says(t[id]).Some?
      ensures Decides(t[id].rule, host, path, now, glob) ==> Says(t[id]) == Some(Answer(t, Some(id)))
    {
      DecidesExactly(t, id, host, path, now, glob);
    }
    if order :| IterationOrder(t, order) && Answer(t, FirstIn(t, order, host, path, now, glob)) == answer {
      EveryOrderIsAChoice(t, order, host, path, now, glob);
    }
    if id :| id in t && IsFor(t[id].rule, host, path, now, glob) && Says(t[id]) == Some(answer) {
      EveryChoiceHasAnOrder(t, host, path, now, glob, Some(id));
    } else if answer && forall id :: id in t && IsFor(t[id].rule, host, path, now, glob) ==> Says(t[id]) == None {
      EveryChoiceHasAnOrder(t, host, path, now, glob, None);
    }
  }

  /** The request is blocked: there is a block rule for it, and no rule for it allows or throttles. */
  ghost predicate Barred(t: Table, host: string, path: string, now: int, glob: Glob) {
    && (exists id :: id in t && IsFor(t[id].rule, host, path, now, glob) && t[id].rule.action == "block")
    && (forall id :: id in t && IsFor(t[id].rule, host, path, now, glob) ==>
          t[id].rule.action != "allow" && t[id].rule.action != "throttle")
  }

  /** Then every check is refused in every order; and where no unexpired rule names the host, every check is
      allowed. In both cases no counter changes. */
  lemma BarredAndFree(t: Table, order: seq<string>, host: string, path: string, now: int, glob: Glob)
    requires IterationOrder(t, order)
    ensures var pick := FirstIn(t, order, host, path, now, glob);
            && (pick.Some? ==> pick.value in t)
            && (Barred(t, host, path, now, glob) ==> !Answer(t, pick) && AfterCheck(t, pick) == t)
            && ((forall id :: id in t && t[id].rule.targetHost == host ==> t[id].rule.expiresAt <= now) ==>
                  Answer(t, pick) && AfterCheck(t, pick) == t)
  {
    EveryOrderIsAChoice(t, order, host, path, now, glob);
    var pick := FirstIn(t, order, host, path, now, glob);
    if pick.Some? { DecidesExactly(t, pick.value, host, path, now, glob); }
    if Barred(t, host, path, now, glob) {
      var id :| id in t && IsFor(t[id].rule, host, path, now, glob) && t[id].rule.action == "block";
      DecidesExactly(t, id, host, path, now, glob);
    }
  }

  // ---------- Operations ----------

  datatype Op =
    | Put(rule: Rule)
    | Drop(id: string)
    | Clear
    | Check(host: string, path: string, now: int, pick: Option<string>)
    | Status(now: int)
    | ResetAll
    | Sweep(now: int)

  function Reset(t: Table): Table {
    map id | id in t :: t[id].(count := 0)
  }

  /** What is left once the expired rules are gone. */
  function Active(t: Table, now: int): Table {
    map id | id in t && Unexpired(t[id].rule, now) :: t[id]
  }

  predicate Enabled(t: Table, op: Op, glob: Glob) {
    op.Check? ==> Choosable(t, op.host, op.path, op.now, glob, op.pick)
  }

  /** The rule a check stopped at is in the table. */
  predicate Applies(t: Table, op: Op) {
    op.Check? && op.pick.Some? ==> op.pick.value in t
  }

  function Step(t: Table, op: Op): Table
    requires Applies(t, op)
  {
    match op
    case Put(rule) => t[rule.ruleId := Live(rule, 0)]
    case Drop(id) => t - {id}
    case Clear => map[]
    case Check(_, _, _, pick) => AfterCheck(t, pick)
    case Status(_) => t
    case ResetAll => Reset(t)
    case Sweep(now) => Active(t, now)
  }

  datatype Output = Allowed(allowed: bool) | Listed(rules: Table)

  /** What a caller of `ShouldAllow` and `GetStatus` gets to see. */
  function Emit(t: Table, op: Op): seq<Output>
    requires Applies(t, op)
  {
    match op
    case Check(_, _, _, pick) => [Allowed(Answer(t, pick))]
    case Status(now) => [Listed(Active(t, now))]
    case _ => []
  }

  ghost predicate Possible(t: Table, run: seq<Op>, glob: Glob)
    decreases |run|
  {
    run == [] || (Enabled(t, run[0], glob) && Possible(Step(t, run[0]), run[1..], glob))
  }

  ghost function Final(t: Table, run: seq<Op>, glob: Glob): Table
    requires Possible(t, run, glob)
    decreases |run|
  {
    if run == [] then t else Final(Step(t, run[0]), run[1..], glob)
  }

  ghost function Outputs(t: Table, run: seq<Op>, glob: Glob): seq<Output>
    requires Possible(t, run, glob)
    decreases |run|
  {
    if run == [] then [] else Emit(t, run[0]) + Outputs(Step(t, run[0]), run[1..], glob)
  }

  function Clock(op: Op, t: int): int {
    match op
    case Check(_, _, now, _) => now
    case Status(now) => now
    case Sweep(now) => now
    case _ => t
  }

  predicate Ordered(run: seq<Op>, t: int) {
    run == [] || (t <= Clock(run[0], t) && Ordered(run[1..], Clock(run[0], t)))
  }

  // ---------- Sweeping expired rules cannot be observed ----------

  function NoSweeps(run: seq<Op>): seq<Op> {
    if run == [] then [] else (if run[0].Sweep? then [] else [run[0]]) + NoSweeps(run[1..])
  }

  lemma AgreeLater(a: Table, b: Table, t: int, now: int)
    requires t <= now && Active(a, t) == Active(b, t)
    ensures Active(a, now) == Active(b, now)
  {
    forall id
      ensures id in Active(a, now) <==> id in Active(b, now)
      ensures id in Active(a, now) ==> a[id] == b[id]
    {
      assert id in Active(a, t) <==> id in Active(b, t);
      assert id in Active(a, t) ==> a[id] == Active(a, t)[id] == Active(b, t)[id] == b[id];
    }
  }

  lemma AgreeOn(a: Table, b: Table, t: int, id: string)
    requires Active(a, t) == Active(b, t)
    ensures id in a && Unexpired(a[id].rule, t) <==> id in b && Unexpired(b[id].rule, t)
    ensures id in a && Unexpired(a[id].rule, t) ==> a[id] == b[id]
  {
    assert id in Active(a, t) <==> id in Active(b, t);
    assert id in Active(a, t) ==> a[id] == Active(a, t)[id] == Active(b, t)[id] == b[id];
  }

  lemma ChecksAgree(a: Table, b: Table, op: Op, glob: Glob)
    requires op.Check? && Active(a, op.now) == Active(b, op.now)
    ensures Enabled(a, op, glob) <==> Enabled(b, op, glob)
    ensures Enabled(a, op, glob) ==> Emit(a, op) == Emit(b, op)
    ensures Enabled(a, op, glob) ==> Active(Step(a, op), op.now) == Active(Step(b, op), op.now)
  {
    forall id
      ensures id in a && Unexpired(a[id].rule, op.now) <==> id in b && Unexpired(b[id].rule, op.now)
      ensures id in a && Unexpired(a[id].rule, op.now) ==> a[id] == b[id]
    {
      AgreeOn(a, b, op.now, id);
    }
  }

  lemma OthersAgree(a: Table, b: Table, op: Op, glob: Glob, t: int)
    requires !op.Check? && Active(a, t) == Active(b, t) && t == Clock(op, t)
    ensures Emit(a, op) == Emit(b, op)
    ensures Active(Step(a, op), t) == Active(if op.Sweep? then b else Step(b, op), t)
  {
    forall id
      ensures id in a && Unexpired(a[id].rule, t) <==> id in b && Unexpired(b[id].rule, t)
      ensures id in a && Unexpired(a[id].rule, t) ==> a[id] == b[id]
    {
      AgreeOn(a, b, t, id);
    }
  }

  /** Whether and when expired rules are swept changes no answer of `ShouldAllow`, no set of possible
      answers, and no listing, at any later time either. */
  lemma {:induction false} SweepsAreInvisible(a: Table, b: Table, run: seq<Op>, glob: Glob, t: int)
    requires Active(a, t) == Active(b, t) && Ordered(run, t)
    ensures Possible(a, run, glob) <==> Possible(b, NoSweeps(run), glob)
    ensures Possible(a, run, glob) ==> Outputs(a, run, glob) == Outputs(b, NoSweeps(run), glob)
    decreases |run|
  {
    if run != [] {
      var op := run[0];
      var now := Clock(op, t);
      AgreeLater(a, b, t, now);
      if op.Check? { ChecksAgree(a, b, op, glob); } else { OthersAgree(a, b, op, glob, now); }
      if op.Sweep? {
        assert NoSweeps(run) == NoSweeps(run[1..]);
        SweepsAreInvisible(Step(a, op), b, run[1..], glob, now);
      } else {
        assert NoSweeps(run)[0] == op && NoSweeps(run)[1..] == NoSweeps(run[1..]);
        if Enabled(a, op, glob) {
          SweepsAreInvisible(Step(a, op), Step(b, op), run[1..], glob, now);
        }
      }
    }
  }

  // ---------- What setting, removing and clearing leave ----------

  lemma {:induction false} GoneUntilPut(t: Table, run: seq<Op>, glob: Glob, id: string)
    requires Possible(t, run, glob) && id !in t && forall op :: op in run && op.Put? ==> op.rule.ruleId != id
    ensures id !in Final(t, run, glob)
    ensures forall op :: op in run && op.Check? ==> op.pick != Some(id)
    ensures forall o :: o in Outputs(t, run, glob) && o.Listed? ==> id !in o.rules
    decreases |run|
  {
    if run != [] {
      assert run[0] in run;
      GoneUntilPut(Step(t, run[0]), run[1..], glob, id);
    }
  }

  /** A rule that was removed decides no check and is on no listing until it is put again. */
  lemma DroppedUntilPut(t: Table, run: seq<Op>, glob: Glob, id: string)
    requires Possible(Step(t, Drop(id)), run, glob) && forall op :: op in run && op.Put? ==> op.rule.ruleId != id
    ensures forall op :: op in run && op.Check? ==> op.pick != Some(id)
    ensures forall o :: o in Outputs(Step(t, Drop(id)), run, glob) && o.Listed? ==> id !in o.rules
    ensures forall k :: k in t && k != id ==> Lookup(Step(t, Drop(id)), k) == Some(t[k])
  {
    GoneUntilPut(Step(t, Drop(id)), run, glob, id);
  }

  lemma {:induction false} EmptyUntilPut(t: Table, run: seq<Op>, glob: Glob)
    requires Possible(t, run, glob) && t == map[] && forall op :: op in run ==> !op.Put?
    ensures forall op :: op in run && op.Check? ==> op.pick == None
    ensures forall o :: o in Outputs(t, run, glob) ==> o == Allowed(true) || o == Listed(map[])
    decreases |run|
  {
    if run != [] {
      assert run[0] in run;
      assert Step(t, run[0]) == map[];
      EmptyUntilPut(Step(t, run[0]), run[1..], glob);
    }
  }

  /** After all rules are removed every check is allowed, stopping at no rule, and every listing is empty,
      until a rule is put. */
  lemma ClearedUntilPut(t: Table, run: seq<Op>, glob: Glob)
    requires Possible(Step(t, Clear), run, glob) && forall op :: op in run ==> !op.Put?
    ensures forall op :: op in run && op.Check? ==> op.pick == None
    ensures forall o :: o in Outputs(Step(t, Clear), run, glob) ==> o == Allowed(true) || o == Listed(map[])
  {
    EmptyUntilPut(Step(t, Clear), run, glob);
  }

  /** Listings show, and sweeps leave, exactly the rules that expire later, with their counters. */
  lemma ListedAndSwept(t: Table, now: int, id: string)
    ensures Emit(t, Status(now)) == [Listed(Step(t, Sweep(now)))]
    ensures Lookup(Step(t, Sweep(now)), id) == if id in t && t[id].rule.expiresAt > now then Some(t[id]) else None
  {
  }

  /** A rule without an expiry is given one `durationSeconds` from now, and nothing else is changed. */
  lemma DatedExactly(rule: Rule, now: int)
    ensures WithExpiry(rule, now)
         == Rule(rule.ruleId, rule.targetHost, rule.action, rule.maxRPM, rule.pathPattern, rule.rateByKey,
                 rule.limiter, rule.throttleDelayMs, rule.maxDelaySlots, rule.durationSeconds,
                 if rule.expiresAt == 0 then now + 1_000_000_000 * rule.durationSeconds else rule.expiresAt)
  {
  }

  /** `run` neither sets nor removes rule `id`. */
  predicate Leaves(run: seq<Op>, id: string) {
    forall op :: op in run ==> !op.Clear? && (op.Put? ==> op.rule.ruleId != id) && (op.Drop? ==> op.id != id)
  }

  /** The clock after a run. */
  function EndClock(run: seq<Op>, t: int): int {
    if run == [] then t else EndClock(run[1..], Clock(run[0], t))
  }

  lemma {:induction false} KeptWhileLeft(t: Table, run: seq<Op>, glob: Glob, id: string, start: int, now: int)
    requires Possible(t, run, glob) && Ordered(run, start) && EndClock(run, start) <= now
    requires id in t && Leaves(run, id) && now < t[id].rule.expiresAt
    ensures id in Final(t, run, glob) && Final(t, run, glob)[id].rule == t[id].rule
    ensures start <= EndClock(run, start)
    decreases |run|
  {
    if run != [] {
      assert run[0] in run;
      LaterEnd(run[1..], Clock(run[0], start));
      KeptWhileLeft(Step(t, run[0]), run[1..], glob, id, Clock(run[0], start), now);
    }
  }

  lemma {:induction false} LaterEnd(run: seq<Op>, start: int)
    requires Ordered(run, start)
    ensures start <= EndClock(run, start)
    decreases |run|
  {
    if run != [] { LaterEnd(run[1..], Clock(run[0], start)); }
  }

  /** A rule that is set stays in force, as it was set, until it expires, is set again or is removed. */
  lemma PutUntilExpiry(t: Table, rule: Rule, run: seq<Op>, glob: Glob, start: int, now: int)
    requires Possible(Step(t, Put(rule)), run, glob) && Ordered(run, start) && EndClock(run, start) <= now
    requires Leaves(run, rule.ruleId) && now < rule.expiresAt
    ensures var after := Final(Step(t, Put(rule)), run, glob);
            && rule.ruleId in after && after[rule.ruleId].rule == rule
            && Emit(after, Status(now)) == [Listed(Active(after, now))] && rule.ruleId in Active(after, now)
  {
    KeptWhileLeft(Step(t, Put(rule)), run, glob, rule.ruleId, start, now);
  }

  lemma {:induction false} NoOtherForHost(t: Table, run: seq<Op>, glob: Glob, id: string, host: string)
    requires Possible(t, run, glob) && forall op :: op in run && op.Put? ==> op.rule.targetHost != host
    requires forall k :: k in t && t[k].rule.targetHost == host ==> k == id
    ensures forall k :: k in Final(t, run, glob) && Final(t, run, glob)[k].rule.targetHost == host ==> k == id
    ensures id in Final(t, run, glob) && Final(t, run, glob)[id].rule.targetHost == host ==>
              id in t && Final(t, run, glob)[id].rule == t[id].rule
    decreases |run|
  {
    if run != [] {
      assert run[0] in run;
      NoOtherForHost(Step(t, run[0]), run[1..], glob, id, host);
    }
  }

  /** A block rule for a host without other rules, set at `start` for a number of seconds, refuses every
      check of the host, whatever the path, for exactly that long, if it is left alone. */
  lemma BlocksForItsDuration(t: Table, rule: Rule, run: seq<Op>, glob: Glob, start: int, check: Op)
    requires rule.action == "block" && rule.pathPattern == None && rule.expiresAt == 0
    requires forall k :: k in t && t[k].rule.targetHost == rule.targetHost ==> k == rule.ruleId
    requires Possible(Step(t, Put(WithExpiry(rule, start))), run, glob) && Ordered(run, start)
    requires Leaves(run, rule.ruleId) && forall op :: op in run && op.Put? ==> op.rule.targetHost != rule.targetHost
    requires check.Check? && check.host == rule.targetHost && EndClock(run, start) <= check.now
    requires Enabled(Final(Step(t, Put(WithExpiry(rule, start))), run, glob), check, glob)
    ensures Emit(Final(Step(t, Put(WithExpiry(rule, start))), run, glob), check)
         == [Allowed(check.now >= start + 1_000_000_000 * rule.durationSeconds)]
  {
    var dated, id := WithExpiry(rule, start), rule.ruleId;
    DatedExactly(rule, start);
    var put := Step(t, Put(dated));
    var after := Final(put, run, glob);
    NoOtherForHost(put, run, glob, id, rule.targetHost);
    if check.now < dated.expiresAt {
      KeptWhileLeft(put, run, glob, id, start, check.now);
      assert Decides(after[id].rule, check.host, check.path, check.now, glob);
    }
  }

  // ---------- Throttle budgets ----------

  /** How many of `n` requests in a row a throttle rule lets through, from counter value `count` on. */
  function Passed(count: int, n: nat, maxRPM: int): nat
    decreases n
  {
    if n == 0 then 0
    else (if Increment(count) <= maxRPM then 1 else 0) + Passed(Increment(count), n - 1, maxRPM)
  }

  lemma {:induction false} PassedFrom(count: int, n: nat, maxRPM: int)
    requires 0 <= count && count + n <= MAX_INT64
    ensures Passed(count, n, maxRPM) == if count + n <= maxRPM then n else if maxRPM <= count then 0 else maxRPM - count
    decreases n
  {
    if n > 0 { PassedFrom(count + 1, n - 1, maxRPM); }
  }

  lemma {:induction false} PassedSplits(count: int, n: nat, more: nat, maxRPM: int)
    requires 0 <= count && count + n <= MAX_INT64
    ensures Passed(count, n + more, maxRPM) == Passed(count, n, maxRPM) + Passed(count + n, more, maxRPM)
    decreases n
  {
    if n > 0 { PassedSplits(count + 1, n - 1, more, maxRPM); }
  }

  lemma PassedWithin(n: nat, maxRPM: int)
    requires MIN_INT64 <= maxRPM <= MAX_INT64
    ensures Passed(0, n, maxRPM) <= (if maxRPM < 0 then 0 else maxRPM) <==> n <= MAX_INT64
  {
    if n <= MAX_INT64 {
      PassedFrom(0, n, maxRPM);
    } else {
      PassedFrom(0, MAX_INT64, maxRPM);
      PassedSplits(0, MAX_INT64, n - MAX_INT64, maxRPM);
    }
  }

  /** A throttle decision by rule `id` that lets the request through. */
  predicate Admits(t: Table, op: Op, id: string) {
    op.Check? && op.pick == Some(id) && id in t && t[id].rule.action == "throttle" && Answer(t, op.pick)
  }

  ghost function Admitted(t: Table, run: seq<Op>, glob: Glob, id: string): nat
    requires Possible(t, run, glob)
    decreases |run|
  {
    if run == [] then 0
    else (if Admits(t, run[0], id) then 1 else 0) + Admitted(Step(t, run[0]), run[1..], glob, id)
  }

  /** The counter of `id` starts again when the rule is put, or when all counters are reset. */
  predicate Restarts(op: Op, id: string) {
    op.ResetAll? || (op.Put? && op.rule.ruleId == id)
  }

  function Starts(run: seq<Op>, id: string): nat {
    if run == [] then 0 else (if Restarts(run[0], id) then 1 else 0) + Starts(run[1..], id)
  }

  lemma {:induction false} RunsCompose(t: Table, run: seq<Op>, more: seq<Op>, glob: Glob, id: string)
    requires Possible(t, run, glob) && Possible(Final(t, run, glob), more, glob)
    ensures Possible(t, run + more, glob)
    ensures Final(t, run + more, glob) == Final(Final(t, run, glob), more, glob)
    ensures Admitted(t, run + more, glob, id)
            == Admitted(t, run, glob, id) + Admitted(Final(t, run, glob), more, glob, id)
    ensures Starts(run + more, id) == Starts(run, id) + Starts(more, id)
    decreases |run|
  {
    if run == [] {
      assert run + more == more;
    } else {
      assert (run + more)[1..] == run[1..] + more;
      RunsCompose(Step(t, run[0]), run[1..], more, glob, id);
    }
  }

  /** The checks that stop at rule `id`. */
  function Hits(run: seq<Op>, id: string): nat {
    if run == [] then 0 else (if run[0].Check? && run[0].pick == Some(id) then 1 else 0) + Hits(run[1..], id)
  }

  lemma {:induction false} NoHitsOnceGone(t: Table, run: seq<Op>, glob: Glob, id: string)
    requires Possible(t, run, glob) && id !in t && forall op :: op in run ==> !Restarts(op, id)
    ensures Hits(run, id) == 0 && Admitted(t, run, glob, id) == 0
    decreases |run|
  {
    if run != [] {
      assert run[0] in run;
      NoHitsOnceGone(Step(t, run[0]), run[1..], glob, id);
    }
  }

  /** Between two starts of its counter, whatever else happens, also to the rule itself, a throttle rule
      lets through what its counter lets pass of the checks that stop at it. */
  lemma {:induction false} StretchAdmits(t: Table, run: seq<Op>, glob: Glob, id: string)
    requires Possible(t, run, glob) && forall op :: op in run ==> !Restarts(op, id)
    requires id in t && t[id].rule.action == "throttle"
    ensures Admitted(t, run, glob, id) == Passed(t[id].count, Hits(run, id), t[id].rule.maxRPM)
    decreases |run|
  {
    if run != [] {
      var next := Step(t, run[0]);
      assert run[0] in run;
      if id in next {
        StretchAdmits(next, run[1..], glob, id);
      } else {
        NoHitsOnceGone(next, run[1..], glob, id);
      }
    }
  }

  /** Between two starts of its counter a throttle rule keeps to its limit if and only if fewer than 2^63
      checks stop at it; then the counter wraps. A negative limit lets nothing through, as 0 does. */
  lemma StretchBudget(t: Table, run: seq<Op>, glob: Glob, id: string)
    requires Possible(t, run, glob) && forall op :: op in run ==> !Restarts(op, id)
    requires id in t && t[id].rule.action == "throttle" && t[id].count == 0
    requires MIN_INT64 <= t[id].rule.maxRPM <= MAX_INT64
    ensures var limit := if t[id].rule.maxRPM < 0 then 0 else t[id].rule.maxRPM;
            Admitted(t, run, glob, id) <= limit <==> Hits(run, id) <= MAX_INT64
  {
    StretchAdmits(t, run, glob, id);
    PassedWithin(Hits(run, id), t[id].rule.maxRPM);
  }

  /** After a reset every throttle rule has its whole limit again, and every rule is still there. */
  lemma ResetRestoresLimit(t: Table, run: seq<Op>, glob: Glob, id: string)
    requires Possible(Step(t, ResetAll), run, glob) && forall op :: op in run ==> !Restarts(op, id)
    requires id in t && t[id].rule.action == "throttle" && t[id].rule.maxRPM >= 0 && Hits(run, id) <= MAX_INT64
    ensures Step(t, ResetAll).Keys == t.Keys && forall k :: k in t ==> Step(t, ResetAll)[k].rule == t[k].rule
    ensures Admitted(Step(t, ResetAll), run, glob, id)
         == if Hits(run, id) <= t[id].rule.maxRPM then Hits(run, id) else t[id].rule.maxRPM
  {
    StretchAdmits(Step(t, ResetAll), run, glob, id);
    PassedFrom(0, Hits(run, id), t[id].rule.maxRPM);
  }

  /** What rule `id` may still let through before its counter starts again. */
  function Remaining(t: Table, id: string, cap: nat): nat {
    if id in t && t[id].count < cap then cap - t[id].count else 0
  }

  predicate Capped(rule: Rule, id: string, cap: nat) {
    rule.ruleId == id ==> rule.maxRPM <= cap
  }

  /** Over any run with n starts of the counter, a throttle rule whose versions all have a limit of at
      most `cap` lets at most n * cap requests through, besides what was left at the beginning. */
  lemma {:induction false} ThrottleBudget(t: Table, run: seq<Op>, glob: Glob, id: string, cap: nat)
    requires Possible(t, run, glob)
    requires id in t ==> t[id].rule.maxRPM <= cap && 0 <= t[id].count && t[id].count + |run| <= MAX_INT64
    requires |run| <= MAX_INT64
    requires forall op :: op in run && op.Put? ==> Capped(op.rule, id, cap)
    ensures Admitted(t, run, glob, id) <= Starts(run, id) * cap + Remaining(t, id, cap)
    decreases |run|
  {
    if run != [] {
      var op, rest := run[0], run[1..];
      var next := Step(t, op);
      assert op in run;
      ThrottleBudget(next, rest, glob, id, cap);
      if Restarts(op, id) {
        assert Starts(run, id) * cap == cap + Starts(rest, id) * cap;
      }
    }
  }

  // ---------- The budget is reached ----------

  function Throttle(cap: nat): Rule {
    Rule("r", "host", "throttle", cap, None, false, "", 0, 0, 60, 100)
  }

  const CHECK := Check("host", "/", 0, Some("r"))

  function Checks(n: nat): seq<Op> {
    if n == 0 then [] else [CHECK] + Checks(n - 1)
  }

  /** The rule is put and then used up. */
  function Stretch(cap: nat): seq<Op> {
    [Put(Throttle(cap))] + Checks(cap)
  }

  function Stretches(n: nat, cap: nat): seq<Op> {
    if n == 0 then [] else Stretch(cap) + Stretches(n - 1, cap)
  }

  lemma {:induction false} ChecksPossible(t: Table, n: nat, cap: nat, glob: Glob)
    requires "r" in t && t["r"].rule == Throttle(cap)
    ensures Possible(t, Checks(n), glob) && Hits(Checks(n), "r") == n && Starts(Checks(n), "r") == 0
    ensures forall op :: op in Checks(n) ==> op == CHECK
    decreases n
  {
    if n > 0 {
      assert Checks(n)[1..] == Checks(n - 1);
      ChecksPossible(Step(t, CHECK), n - 1, cap, glob);
    }
  }

  lemma StretchUsedUp(t: Table, cap: nat, glob: Glob)
    requires cap <= MAX_INT64
    ensures Possible(t, Stretch(cap), glob)
    ensures Admitted(t, Stretch(cap), glob, "r") == cap && Starts(Stretch(cap), "r") == 1
  {
    var next := Step(t, Put(Throttle(cap)));
    assert Stretch(cap)[1..] == Checks(cap);
    ChecksPossible(next, cap, cap, glob);
    StretchAdmits(next, Checks(cap), glob, "r");
    PassedFrom(0, cap, cap);
  }

  /** For every limit and every number of starts some run reaches the bound of `ThrottleBudget`. */
  lemma {:induction false} ThrottleBudgetIsReached(t: Table, n: nat, cap: nat, glob: Glob)
    requires cap <= MAX_INT64
    ensures Possible(t, Stretches(n, cap), glob) && Starts(Stretches(n, cap), "r") == n
    ensures Admitted(t, Stretches(n, cap), glob, "r") == n * cap
    decreases n
  {
    if n > 0 {
      StretchUsedUp(t, cap, glob);
      var next := Final(t, Stretch(cap), glob);
      ThrottleBudgetIsReached(next, n - 1, cap, glob);
      RunsCompose(t, Stretch(cap), Stretches(n - 1, cap), glob, "r");
      assert n * cap == cap + (n - 1) * cap;
    }
  }

  /** What is left of the limit can be used up first. */
  lemma RestUsedUp(t: Table, cap: nat, glob: Glob)
    requires cap <= MAX_INT64
    requires "r" in t ==> t["r"].rule == Throttle(cap) && 0 <= t["r"].count
    ensures var ops := Checks(Remaining(t, "r", cap));
            Possible(t, ops, glob) && Admitted(t, ops, glob, "r") == Remaining(t, "r", cap) && Starts(ops, "r") == 0
  {
    var left := Remaining(t, "r", cap);
    if left > 0 {
      ChecksPossible(t, left, cap, glob);
      StretchAdmits(t, Checks(left), glob, "r");
      PassedFrom(t["r"].count, left, cap);
    }
  }

  /** So the whole bound is reached, with what was left at the beginning. */
  lemma WholeBudgetIsReached(t: Table, n: nat, cap: nat, glob: Glob)
    requires cap <= MAX_INT64
    requires "r" in t ==> t["r"].rule == Throttle(cap) && 0 <= t["r"].count
    ensures var ops := Checks(Remaining(t, "r", cap)) + Stretches(n, cap);
            && Possible(t, ops, glob) && Starts(ops, "r") == n
            && Admitted(t, ops, glob, "r") == n * cap + Remaining(t, "r", cap)
  {
    var rest := Checks(Remaining(t, "r", cap));
    RestUsedUp(t, cap, glob);
    ThrottleBudgetIsReached(Final(t, rest, glob), n, cap, glob);
    RunsCompose(t, rest, Stretches(n, cap), glob, "r");
  }
}
