/**
 What a run of `RuleReplicas` does to the rule table of one instance, where the rules in it come from,
 and how many requests a throttle rule lets through there.
 */
module ReplicaTables {
  import opened Wrappers
  import opened T = RuleTable
  import opened R = RuleReplicas

  // ---------- The table of one instance ----------

  /** What a run does to the table of instance `i`. */
  ghost function OpsOf(w: World, run: seq<Event>, glob: Glob, i: nat): seq<Op>
    requires R.Possible(w, run, glob)
    decreases |run|
  {
    if run == [] then [] else OpsAt(w, run[0], i) + OpsOf(R.Step(w, run[0], glob), run[1..], glob, i)
  }

  lemma PublishLeavesTables(w: World, docs: map<string, RuleDoc>, c: Change, k: nat)
    requires k < |w.instances|
    ensures |Publish(w, docs, c).instances| == |w.instances|
    ensures Publish(w, docs, c).instances[k].cache == w.instances[k].cache
  {
  }

  lemma CommitLeavesTables(w: World, i: nat, write: Write, k: nat)
    requires i < |w.instances| && k < |w.instances|
    ensures |Apply(w, i, write).instances| == |w.instances|
    ensures Apply(w, i, write).instances[k].cache == w.instances[k].cache
  {
    var inst := w.instances[i];
    var rest := At(w, i, inst.(writes := inst.writes - multiset{write}));
    match write
    case SetDoc(rule) =>
      var doc := RuleToDoc(rule, inst.now);
      PublishLeavesTables(rest, w.docs[rule.ruleId := doc], Upsert(doc), k);
    case DeleteDoc(id) => PublishLeavesTables(rest, w.docs - {id}, Removed(id), k);
    case DeleteAllDocs =>
  }

  lemma StepIsLocal(w: World, e: Event, glob: Glob, i: nat)
    requires R.Enabled(w, e, glob) && i < |w.instances|
    ensures i < |R.Step(w, e, glob).instances|
    ensures var before, after := w.instances[i].cache, R.Step(w, e, glob).instances[i].cache;
            var ops := OpsAt(w, e, i);
            if ops == [] then after == before
            else T.Enabled(before, ops[0], glob) && after == T.Step(before, ops[0])
  {
    if e.Commit? { CommitLeavesTables(w, e.i, e.write, i); }
  }

  /** An instance's table goes through an ordinary table run in which each delivered change, also the
      echo of an own write, is one more `Put` or `Drop`. */
  lemma {:induction false} InstanceRun(w: World, run: seq<Event>, glob: Glob, i: nat)
    requires R.Possible(w, run, glob) && i < |w.instances|
    ensures i < |R.Final(w, run, glob).instances|
    ensures T.Possible(w.instances[i].cache, OpsOf(w, run, glob, i), glob)
    ensures R.Final(w, run, glob).instances[i].cache == T.Final(w.instances[i].cache, OpsOf(w, run, glob, i), glob)
    ensures |OpsOf(w, run, glob, i)| <= |run|
    decreases |run|
  {
    if run != [] {
      StepIsLocal(w, run[0], glob, i);
      var rest := OpsOf(R.Step(w, run[0], glob), run[1..], glob, i);
      InstanceRun(R.Step(w, run[0], glob), run[1..], glob, i);
      var ops := OpsAt(w, run[0], i);
      if ops == [] {
        assert OpsOf(w, run, glob, i) == rest;
      } else {
        assert OpsOf(w, run, glob, i)[1..] == rest;
      }
    }
  }

  lemma {:induction false} NoPutsHere(w: World, run: seq<Event>, glob: Glob, i: nat)
    requires R.Possible(w, run, glob)
    requires forall e :: e in run ==> !(e.SetRule? && e.i == i) && !(e.Deliver? && e.i == i)
    ensures forall op :: op in OpsOf(w, run, glob, i) ==> !op.Put?
    decreases |run|
  {
    if run != [] {
      assert run[0] in run;
      NoPutsHere(R.Step(w, run[0], glob), run[1..], glob, i);
    }
  }

  /** After its own `RemoveAll` an instance allows every check and lists nothing, whatever happens elsewhere,
      until a rule is set at it or a change is delivered to it. */
  lemma RemoveAllClears(w: World, i: nat, run: seq<Event>, glob: Glob)
    requires i < |w.instances| && R.Possible(R.Step(w, RemoveAll(i), glob), run, glob)
    requires forall e :: e in run ==> !(e.SetRule? && e.i == i) && !(e.Deliver? && e.i == i)
    ensures var v := R.Step(w, RemoveAll(i), glob);
            var ops := OpsOf(v, run, glob, i);
            && T.Possible(v.instances[i].cache, ops, glob)
            && forall o :: o in Outputs(v.instances[i].cache, ops, glob) ==> o == Allowed(true) || o == Listed(map[])
  {
    var v := R.Step(w, RemoveAll(i), glob);
    InstanceRun(v, run, glob, i);
    NoPutsHere(v, run, glob, i);
    assert v.instances[i].cache == map[];
    EmptyUntilPut(map[], OpsOf(v, run, glob, i), glob);
  }

  // ---------- Where rules come from ----------

  /** Every rule that is cached, under way or stored satisfies `ok`. */
  ghost predicate AllRules(inst: Instance, ok: Rule -> bool) {
    && (forall write :: write in inst.writes && write.SetDoc? ==> ok(write.rule))
    && (forall c :: c in inst.feed && c.Upsert? ==> ok(DocToRule(c.doc)))
    && (forall id :: id in inst.cache ==> inst.cache[id].rule.ruleId == id && ok(inst.cache[id].rule))
  }

  ghost predicate AllRulesIn(w: World, ok: Rule -> bool) {
    && (forall x :: x in w.docs ==> w.docs[x].ruleId == x && ok(DocToRule(w.docs[x])))
    && (forall inst :: inst in w.instances ==> AllRules(inst, ok))
  }

  /** Every rule that is set satisfies `ok`, with the expiry it is given then. */
  ghost predicate Sets(w: World, run: seq<Event>, glob: Glob, ok: Rule -> bool)
    requires R.Possible(w, run, glob)
    decreases |run|
  {
    run == [] ||
    (&& (run[0].SetRule? ==> ok(WithExpiry(run[0].rule, w.instances[run[0].i].now)))
     && Sets(R.Step(w, run[0], glob), run[1..], glob, ok))
  }

  /** A document gives back the rule it was written for, and bears the time of the write. */
  lemma DocRoundTrip(rule: Rule, now: int)
    ensures DocToRule(RuleToDoc(rule, now)) == rule
    ensures RuleToDoc(rule, now).createdAt == RuleToDoc(rule, now).updatedAt == now
  {
  }

  lemma PublishKeepsRules(w: World, docs: map<string, RuleDoc>, c: Change, ok: Rule -> bool)
    requires AllRulesIn(w, ok)
    requires forall x :: x in docs ==> docs[x].ruleId == x && ok(DocToRule(docs[x]))
    requires c.Upsert? ==> ok(DocToRule(c.doc))
    ensures AllRulesIn(Publish(w, docs, c), ok)
  {
    var p := Publish(w, docs, c);
    forall inst | inst in p.instances ensures AllRules(inst, ok) {
      var k :| 0 <= k < |p.instances| && p.instances[k] == inst;
      assert w.instances[k] in w.instances;
    }
  }

  lemma AtKeepsRules(w: World, i: nat, inst: Instance, ok: Rule -> bool)
    requires AllRulesIn(w, ok) && i < |w.instances| && AllRules(inst, ok)
    ensures AllRulesIn(At(w, i, inst), ok)
  {
  }

  lemma CommitKeepsRules(w: World, i: nat, write: Write, ok: Rule -> bool)
    requires AllRulesIn(w, ok) && i < |w.instances| && write in w.instances[i].writes
    ensures AllRulesIn(Apply(w, i, write), ok)
  {
    var inst := w.instances[i];
    assert AllRules(inst, ok);
    var left := inst.(writes := inst.writes - multiset{write});
    AtKeepsRules(w, i, left, ok);
    match write
    case SetDoc(rule) =>
      var doc := RuleToDoc(rule, inst.now);
      DocRoundTrip(rule, inst.now);
      PublishKeepsRules(At(w, i, left), w.docs[rule.ruleId := doc], Upsert(doc), ok);
    case DeleteDoc(x) =>
      if x in w.docs { PublishKeepsRules(At(w, i, left), w.docs - {x}, Removed(x), ok); }
    case DeleteAllDocs =>
      AtKeepsRules(w, i, Apply(w, i, write).instances[i], ok);
  }

  lemma LocalKeepsRules(inst: Instance, op: Op, ok: Rule -> bool)
    requires AllRules(inst, ok) && Applies(inst.cache, op) && (op.Put? ==> ok(op.rule))
    ensures AllRules(Cached(inst, op), ok)
  {
  }

  lemma StepKeepsRules(w: World, e: Event, glob: Glob, ok: Rule -> bool)
    requires R.Enabled(w, e, glob) && AllRulesIn(w, ok)
    requires e.SetRule? ==> ok(WithExpiry(e.rule, w.instances[e.i].now))
    ensures AllRulesIn(R.Step(w, e, glob), ok)
    ensures forall i, op :: op in OpsAt(w, e, i) && op.Put? ==> ok(op.rule)
  {
    match e
    case Commit(i, write) => CommitKeepsRules(w, i, write, ok);
    case Join(now) =>
      var joined := Instance(now, Load(w.docs, now), multiset{}, [], true);
      forall inst | inst in R.Step(w, e, glob).instances ensures AllRules(inst, ok) {
        assert inst == joined || inst in w.instances;
      }
    case Tick(i, now) =>
      assert AllRules(w.instances[i], ok);
      AtKeepsRules(w, i, w.instances[i].(now := now), ok);
    case Stop(i) =>
      assert AllRules(w.instances[i], ok);
      AtKeepsRules(w, i, Stopped(w.instances[i]), ok);
    case Deliver(i) =>
      var inst := w.instances[i];
      assert AllRules(inst, ok) && inst.feed[0] in inst.feed;
      LocalKeepsRules(inst, ChangeOp(inst.feed[0]), ok);
      AtKeepsRules(w, i, Receive(inst), ok);
    case Local(i, op) =>
      LocalKeepsRules(w.instances[i], op, ok);
      AtKeepsRules(w, i, Cached(w.instances[i], op), ok);
    case SetRule(i, rule) =>
      LocalKeepsRules(w.instances[i], Put(WithExpiry(rule, w.instances[i].now)), ok);
      AtKeepsRules(w, i, Administer(w.instances[i], e), ok);
    case RemoveRule(i, id) =>
      LocalKeepsRules(w.instances[i], Drop(id), ok);
      AtKeepsRules(w, i, Administer(w.instances[i], e), ok);
    case RemoveAll(i) =>
      LocalKeepsRules(w.instances[i], Clear, ok);
      AtKeepsRules(w, i, Administer(w.instances[i], e), ok);
  }

  /** No rule comes from nowhere, and none is changed on its way through the documents: whatever can be
      said of all rules that are set, as they are set, can be said of every rule anywhere, at any time. */
  lemma {:induction false} NothingInvented(w: World, run: seq<Event>, glob: Glob, ok: Rule -> bool, i: nat)
    requires R.Possible(w, run, glob) && AllRulesIn(w, ok) && Sets(w, run, glob, ok)
    ensures AllRulesIn(R.Final(w, run, glob), ok)
    ensures forall op :: op in OpsOf(w, run, glob, i) && op.Put? ==> ok(op.rule)
    decreases |run|
  {
    if run != [] {
      StepKeepsRules(w, run[0], glob, ok);
      NothingInvented(R.Step(w, run[0], glob), run[1..], glob, ok, i);
    }
  }

  // ---------- Throttle budgets across replication ----------

  /** While rule `id` is only set to limits up to `cap`, it lets at most n * cap requests through at each
      instance over n starts of its counter there, besides what was left at the beginning. */
  lemma ReplicatedThrottleBudget(w: World, run: seq<Event>, glob: Glob, i: nat, id: string, cap: nat)
    requires R.Possible(w, run, glob) && i < |w.instances| && |run| <= MAX_INT64
    requires var capped := (rule: Rule) => Capped(rule, id, cap); AllRulesIn(w, capped) && Sets(w, run, glob, capped)
    requires var cache := w.instances[i].cache;
             id in cache ==> 0 <= cache[id].count && cache[id].count + |run| <= MAX_INT64
    ensures T.Possible(w.instances[i].cache, OpsOf(w, run, glob, i), glob)
    ensures Admitted(w.instances[i].cache, OpsOf(w, run, glob, i), glob, id)
         <= Starts(OpsOf(w, run, glob, i), id) * cap + Remaining(w.instances[i].cache, id, cap)
  {
    var capped := (rule: Rule) => Capped(rule, id, cap);
    InstanceRun(w, run, glob, i);
    NothingInvented(w, run, glob, capped, i);
    var cache, ops := w.instances[i].cache, OpsOf(w, run, glob, i);
    assert AllRules(w.instances[i], capped);
    ThrottleBudget(cache, ops, glob, id, cap);
  }

  predicate StartsHere(e: Event, i: nat, id: string) {
    || (e.SetRule? && e.i == i && e.rule.ruleId == id && id != "")
    || (e.Local? && e.i == i && e.op.ResetAll?)
  }

  /** The calls that set rule `id` at instance `i`, and the resets there. */
  function Calls(run: seq<Event>, i: nat, id: string): nat {
    if run == [] then 0 else (if StartsHere(run[0], i, id) then 1 else 0) + Calls(run[1..], i, id)
  }

  predicate Echoes(w: World, e: Event, i: nat, id: string) {
    e.Deliver? && e.i == i && i < |w.instances|
    && var feed := w.instances[i].feed; feed != [] && feed[0].Upsert? && feed[0].doc.ruleId == id
  }

  /** The deliveries of rule `id` to instance `i`, whoever wrote it. */
  ghost function Deliveries(w: World, run: seq<Event>, glob: Glob, i: nat, id: string): nat
    requires R.Possible(w, run, glob)
    decreases |run|
  {
    if run == [] then 0
    else (if Echoes(w, run[0], i, id) then 1 else 0) + Deliveries(R.Step(w, run[0], glob), run[1..], glob, i, id)
  }

  lemma StartsAt(w: World, e: Event, glob: Glob, i: nat, id: string)
    requires R.Enabled(w, e, glob) && i < |w.instances|
    ensures Starts(OpsAt(w, e, i), id)
            == (if StartsHere(e, i, id) then 1 else 0) + (if Echoes(w, e, i, id) then 1 else 0)
  {
    if OpsAt(w, e, i) != [] { assert OpsAt(w, e, i)[1..] == []; }
  }

  lemma {:induction false} StartsAdd(a: seq<Op>, b: seq<Op>, id: string)
    ensures Starts(a + b, id) == Starts(a, id) + Starts(b, id)
  {
    if a == [] {
      assert a + b == b;
    } else {
      assert (a + b)[1..] == a[1..] + b;
      StartsAdd(a[1..], b, id);
    }
  }

  /** A counter starts with own calls, with resets, and with every delivery. */
  lemma {:induction false} StartsAreCallsAndDeliveries(w: World, run: seq<Event>, glob: Glob, i: nat, id: string)
    requires R.Possible(w, run, glob) && i < |w.instances|
    ensures Starts(OpsOf(w, run, glob, i), id) == Calls(run, i, id) + Deliveries(w, run, glob, i, id)
    decreases |run|
  {
    if run != [] {
      StepIsLocal(w, run[0], glob, i);
      StartsAt(w, run[0], glob, i, id);
      StartsAreCallsAndDeliveries(R.Step(w, run[0], glob), run[1..], glob, i, id);
      StartsAdd(OpsAt(w, run[0], i), OpsOf(R.Step(w, run[0], glob), run[1..], glob, i), id);
    }
  }

  /** So where no version of the rule is delivered, only own calls and resets count. */
  lemma BudgetWithoutDeliveries(w: World, run: seq<Event>, glob: Glob, i: nat, id: string, cap: nat)
    requires R.Possible(w, run, glob) && i < |w.instances| && |run| <= MAX_INT64
    requires var capped := (rule: Rule) => Capped(rule, id, cap); AllRulesIn(w, capped) && Sets(w, run, glob, capped)
    requires var cache := w.instances[i].cache;
             id in cache ==> 0 <= cache[id].count && cache[id].count + |run| <= MAX_INT64
    requires Deliveries(w, run, glob, i, id) == 0
    ensures T.Possible(w.instances[i].cache, OpsOf(w, run, glob, i), glob)
    ensures Admitted(w.instances[i].cache, OpsOf(w, run, glob, i), glob, id)
         <= Calls(run, i, id) * cap + Remaining(w.instances[i].cache, id, cap)
  {
    ReplicatedThrottleBudget(w, run, glob, i, id, cap);
    StartsAreCallsAndDeliveries(w, run, glob, i, id);
  }

  // ---------- The budget is reached, half of it by echoes ----------

  lemma {:induction false} CallsAdd(run: seq<Event>, more: seq<Event>, i: nat, id: string)
    ensures Calls(run + more, i, id) == Calls(run, i, id) + Calls(more, i, id)
  {
    if run == [] {
      assert run + more == more;
    } else {
      assert (run + more)[1..] == run[1..] + more;
      CallsAdd(run[1..], more, i, id);
    }
  }

  lemma {:induction false} OpsAdd(w: World, run: seq<Event>, more: seq<Event>, glob: Glob, i: nat)
    requires R.Possible(w, run, glob) && R.Possible(R.Final(w, run, glob), more, glob)
             && R.Possible(w, run + more, glob)
    ensures OpsOf(w, run + more, glob, i) == OpsOf(w, run, glob, i) + OpsOf(R.Final(w, run, glob), more, glob, i)
    decreases |run|
  {
    if run == [] {
      assert run + more == more;
    } else {
      assert (run + more)[1..] == run[1..] + more;
      var next := R.Step(w, run[0], glob);
      assert OpsOf(w, run + more, glob, i) == OpsAt(w, run[0], i) + OpsOf(next, run[1..] + more, glob, i);
      OpsAdd(next, run[1..], more, glob, i);
    }
  }

  lemma RunsAdd(w: World, run: seq<Event>, more: seq<Event>, glob: Glob, i: nat, id: string)
    requires R.Possible(w, run, glob) && R.Possible(R.Final(w, run, glob), more, glob)
    ensures R.Possible(w, run + more, glob)
    ensures R.Final(w, run + more, glob) == R.Final(R.Final(w, run, glob), more, glob)
    ensures OpsOf(w, run + more, glob, i) == OpsOf(w, run, glob, i) + OpsOf(R.Final(w, run, glob), more, glob, i)
    ensures Calls(run + more, i, id) == Calls(run, i, id) + Calls(more, i, id)
  {
    R.RunsCompose(w, run, more, glob);
    OpsAdd(w, run, more, glob, i);
    CallsAdd(run, more, i, id);
  }

  lemma OneStep(w: World, e: Event, glob: Glob, i: nat)
    requires R.Enabled(w, e, glob)
    ensures R.Possible(w, [e], glob) && R.Final(w, [e], glob) == R.Step(w, e, glob)
    ensures OpsOf(w, [e], glob, i) == OpsAt(w, e, i)
    ensures forall id :: Calls([e], i, id) == if StartsHere(e, i, id) then 1 else 0
  {
    assert [e][1..] == [];
  }

  /** One instance, listening, whose clock reads 0. */
  predicate Alone(w: World, writes: multiset<Write>, feed: seq<Change>) {
    |w.instances| == 1 && w.instances[0] == Instance(0, w.instances[0].cache, writes, feed, true)
  }

  predicate Caches(w: World, cap: nat) {
    |w.instances| == 1 && "r" in w.instances[0].cache && w.instances[0].cache["r"].rule == Throttle(cap)
  }

  function Requests(n: nat): seq<Event> {
    if n == 0 then [] else [Local(0, CHECK)] + Requests(n - 1)
  }

  lemma {:induction false} RequestsServed(w: World, n: nat, cap: nat, writes: multiset<Write>, feed: seq<Change>,
      glob: Glob)
    requires Alone(w, writes, feed) && Caches(w, cap)
    ensures R.Possible(w, Requests(n), glob) && Alone(R.Final(w, Requests(n), glob), writes, feed)
    ensures Caches(R.Final(w, Requests(n), glob), cap)
    ensures OpsOf(w, Requests(n), glob, 0) == Checks(n) && Calls(Requests(n), 0, "r") == 0
    decreases n
  {
    if n > 0 {
      assert Requests(n)[1..] == Requests(n - 1);
      RequestsServed(R.Step(w, Local(0, CHECK), glob), n - 1, cap, writes, feed, glob);
    }
  }

  /** The rule is set, and used up. */
  function FirstHalf(cap: nat): seq<Event> {
    [SetRule(0, Throttle(cap))] + Requests(cap)
  }

  /** Its write is committed and comes back, and the rule is used up again. */
  function SecondHalf(cap: nat): seq<Event> {
    [Commit(0, SetDoc(Throttle(cap)))] + ([Deliver(0)] + Requests(cap))
  }

  lemma FirstHalfRuns(w: World, cap: nat, writes: multiset<Write>, glob: Glob)
    requires Alone(w, writes, [])
    ensures R.Possible(w, FirstHalf(cap), glob)
    ensures Alone(R.Final(w, FirstHalf(cap), glob), writes + multiset{SetDoc(Throttle(cap))}, [])
    ensures OpsOf(w, FirstHalf(cap), glob, 0) == Stretch(cap) && Calls(FirstHalf(cap), 0, "r") == 1
  {
    var e := SetRule(0, Throttle(cap));
    var v := R.Step(w, e, glob);
    assert v.instances[0].writes == writes + multiset{SetDoc(Throttle(cap))};
    OneStep(w, e, glob, 0);
    RequestsServed(v, cap, cap, writes + multiset{SetDoc(Throttle(cap))}, [], glob);
    RunsAdd(w, [e], Requests(cap), glob, 0, "r");
  }

  lemma SecondHalfRuns(w: World, cap: nat, glob: Glob)
    requires Alone(w, multiset{SetDoc(Throttle(cap))}, [])
    ensures R.Possible(w, SecondHalf(cap), glob)
    ensures Alone(R.Final(w, SecondHalf(cap), glob), multiset{}, [])
    ensures OpsOf(w, SecondHalf(cap), glob, 0) == Stretch(cap) && Calls(SecondHalf(cap), 0, "r") == 0
  {
    var doc := RuleToDoc(Throttle(cap), 0);
    var write := Commit(0, SetDoc(Throttle(cap)));
    var committed := R.Step(w, write, glob);
    assert Alone(committed, multiset{}, [Upsert(doc)]);
    var delivered := R.Step(committed, Deliver(0), glob);
    assert Alone(delivered, multiset{}, []) && Caches(delivered, cap);
    OneStep(committed, Deliver(0), glob, 0);
    RequestsServed(delivered, cap, cap, multiset{}, [], glob);
    RunsAdd(committed, [Deliver(0)], Requests(cap), glob, 0, "r");
    OneStep(w, write, glob, 0);
    RunsAdd(w, [write], [Deliver(0)] + Requests(cap), glob, 0, "r");
  }

  function Round(cap: nat): seq<Event> {
    FirstHalf(cap) + SecondHalf(cap)
  }

  lemma RoundRuns(w: World, cap: nat, glob: Glob)
    requires Alone(w, multiset{}, [])
    ensures R.Possible(w, Round(cap), glob) && Alone(R.Final(w, Round(cap), glob), multiset{}, [])
    ensures OpsOf(w, Round(cap), glob, 0) == Stretch(cap) + Stretch(cap) && Calls(Round(cap), 0, "r") == 1
  {
    var none: multiset<Write> := multiset{};
    assert none + multiset{SetDoc(Throttle(cap))} == multiset{SetDoc(Throttle(cap))};
    FirstHalfRuns(w, cap, none, glob);
    SecondHalfRuns(R.Final(w, FirstHalf(cap), glob), cap, glob);
    RunsAdd(w, FirstHalf(cap), SecondHalf(cap), glob, 0, "r");
  }

  /** `n` halves: every second start is an echo. */
  function Rounds(n: nat, cap: nat): seq<Event> {
    if n == 0 then []
    else if n == 1 then FirstHalf(cap)
    else Round(cap) + Rounds(n - 2, cap)
  }

  lemma FewStretches(n: nat, cap: nat)
    ensures Stretches(1, cap) == Stretch(cap)
    ensures n >= 2 ==> Stretches(n, cap) == Stretch(cap) + Stretch(cap) + Stretches(n - 2, cap)
  {
    assert Stretches(1, cap) == Stretch(cap) + Stretches(0, cap);
    if n >= 2 { assert Stretches(n, cap) == Stretch(cap) + (Stretch(cap) + Stretches(n - 2, cap)); }
  }

  lemma RoundAndThen(w: World, rest: seq<Event>, cap: nat, glob: Glob)
    requires Alone(w, multiset{}, []) && R.Possible(w, Round(cap), glob)
    requires R.Possible(R.Final(w, Round(cap), glob), rest, glob)
    ensures R.Possible(w, Round(cap) + rest, glob) && Calls(Round(cap) + rest, 0, "r") == 1 + Calls(rest, 0, "r")
    ensures OpsOf(w, Round(cap) + rest, glob, 0)
         == Stretch(cap) + Stretch(cap) + OpsOf(R.Final(w, Round(cap), glob), rest, glob, 0)
  {
    RoundRuns(w, cap, glob);
    RunsAdd(w, Round(cap), rest, glob, 0, "r");
  }

  lemma {:induction false} RoundsRun(w: World, n: nat, cap: nat, glob: Glob)
    requires Alone(w, multiset{}, [])
    ensures R.Possible(w, Rounds(n, cap), glob) && OpsOf(w, Rounds(n, cap), glob, 0) == Stretches(n, cap)
    ensures Calls(Rounds(n, cap), 0, "r") == (n + 1) / 2
    decreases n
  {
    FewStretches(n, cap);
    if n == 1 {
      FirstHalfRuns(w, cap, multiset{}, glob);
    } else if n >= 2 {
      RoundRuns(w, cap, glob);
      RoundsRun(R.Final(w, Round(cap), glob), n - 2, cap, glob);
      RoundAndThen(w, Rounds(n - 2, cap), cap, glob);
    }
  }

  /** `n` calls whose writes are never committed. */
  function CallsOnly(n: nat, cap: nat): seq<Event> {
    if n == 0 then [] else FirstHalf(cap) + CallsOnly(n - 1, cap)
  }

  lemma {:induction false} CallsOnlyRun(w: World, n: nat, cap: nat, writes: multiset<Write>, glob: Glob)
    requires Alone(w, writes, [])
    ensures R.Possible(w, CallsOnly(n, cap), glob) && OpsOf(w, CallsOnly(n, cap), glob, 0) == Stretches(n, cap)
    ensures Calls(CallsOnly(n, cap), 0, "r") == n
    decreases n
  {
    if n > 0 {
      FirstHalfRuns(w, cap, writes, glob);
      var v := R.Final(w, FirstHalf(cap), glob);
      CallsOnlyRun(v, n - 1, cap, writes + multiset{SetDoc(Throttle(cap))}, glob);
      RunsAdd(w, FirstHalf(cap), CallsOnly(n - 1, cap), glob, 0, "r");
    }
  }

  /** The instance holds no rule "r", or that one. */
  predicate Prepared(w: World, cap: nat) {
    && Alone(w, multiset{}, [])
    && ("r" in w.instances[0].cache ==>
          w.instances[0].cache["r"].rule == Throttle(cap) && 0 <= w.instances[0].cache["r"].count)
  }

  function Left(w: World, cap: nat): nat
    requires w.instances != []
  {
    Remaining(w.instances[0].cache, "r", cap)
  }

  /** Requests that use up what is left, and then a run that makes so many stretches. */
  lemma LeftAndThen(w: World, rest: seq<Event>, n: nat, cap: nat, glob: Glob)
    requires Prepared(w, cap) && cap <= MAX_INT64
    requires forall v :: Alone(v, multiset{}, []) ==>
               R.Possible(v, rest, glob) && OpsOf(v, rest, glob, 0) == Stretches(n, cap)
    ensures var run := Requests(Left(w, cap)) + rest;
            && R.Possible(w, run, glob) && Calls(run, 0, "r") == Calls(rest, 0, "r")
            && var ops := OpsOf(w, run, glob, 0);
            && T.Possible(w.instances[0].cache, ops, glob) && Starts(ops, "r") == n
            && Admitted(w.instances[0].cache, ops, glob, "r") == n * cap + Left(w, cap)
  {
    var first := Requests(Left(w, cap));
    if Left(w, cap) > 0 { RequestsServed(w, Left(w, cap), cap, multiset{}, [], glob); }
    assert R.Possible(w, first, glob) && OpsOf(w, first, glob, 0) == Checks(Left(w, cap));
    assert Alone(R.Final(w, first, glob), multiset{}, []);
    RunsAdd(w, first, rest, glob, 0, "r");
    WholeBudgetIsReached(w.instances[0].cache, n, cap, glob);
  }

  /** For every limit and every number n of starts some run of an instance admits n * cap requests, and what
      was left at the beginning. Only every second start is a call; the others are the echoes of the
      instance's own writes. */
  lemma ReplicatedBudgetIsReached(w: World, n: nat, cap: nat, glob: Glob)
    requires Prepared(w, cap) && cap <= MAX_INT64
    ensures var run := Requests(Left(w, cap)) + Rounds(n, cap);
            && R.Possible(w, run, glob) && Calls(run, 0, "r") == (n + 1) / 2
            && var ops := OpsOf(w, run, glob, 0);
            && T.Possible(w.instances[0].cache, ops, glob) && Starts(ops, "r") == n
            && Admitted(w.instances[0].cache, ops, glob, "r") == n * cap + Left(w, cap)
  {
    forall v | Alone(v, multiset{}, [])
      ensures R.Possible(v, Rounds(n, cap), glob) && OpsOf(v, Rounds(n, cap), glob, 0) == Stretches(n, cap)
    {
      RoundsRun(v, n, cap, glob);
    }
    RoundsRun(w, n, cap, glob);
    LeftAndThen(w, Rounds(n, cap), n, cap, glob);
  }

  /** Without deliveries the bound is reached as well, by n calls. */
  lemma BudgetOfCallsIsReached(w: World, n: nat, cap: nat, glob: Glob)
    requires Prepared(w, cap) && cap <= MAX_INT64
    ensures var run := Requests(Left(w, cap)) + CallsOnly(n, cap);
            && R.Possible(w, run, glob) && Calls(run, 0, "r") == n && Deliveries(w, run, glob, 0, "r") == 0
            && var ops := OpsOf(w, run, glob, 0);
            && T.Possible(w.instances[0].cache, ops, glob)
            && Admitted(w.instances[0].cache, ops, glob, "r") == n * cap + Left(w, cap)
  {
    forall v | Alone(v, multiset{}, [])
      ensures R.Possible(v, CallsOnly(n, cap), glob) && OpsOf(v, CallsOnly(n, cap), glob, 0) == Stretches(n, cap)
    {
      CallsOnlyRun(v, n, cap, multiset{}, glob);
    }
    CallsOnlyRun(w, n, cap, multiset{}, glob);
    LeftAndThen(w, CallsOnly(n, cap), n, cap, glob);
    StartsAreCallsAndDeliveries(w, Requests(Left(w, cap)) + CallsOnly(n, cap), glob, 0, "r");
  }

  /** With one call a limit is used up twice: the echo of the instance's own write starts the counter again. */
  lemma EchoRestartsCounter(cap: nat, glob: Glob)
    requires cap <= MAX_INT64
    ensures var w, run := Solo(map[], multiset{}), Round(cap);
            && R.Possible(w, run, glob) && Calls(run, 0, "r") == 1
            && var ops := OpsOf(w, run, glob, 0);
            && T.Possible(map[], ops, glob) && Admitted(map[], ops, glob, "r") == 2 * cap
  {
    assert Rounds(2, cap) == Round(cap) + Rounds(0, cap) == Round(cap);
    RoundsRun(Solo(map[], multiset{}), 2, cap, glob);
    ThrottleBudgetIsReached(map[], 2, cap, glob);
  }
}
