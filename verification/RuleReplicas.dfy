/**
 Rules replicated through Firestore: internal/plugins/storage/firestore/rule_store.go.

 Any number of instances each keep a rule table, change it first, write to the shared documents from
 goroutines that may commit in any order, and apply the change feed until they stop listening. It is
 assumed that writes do not fail, and that each commit that writes a document, also one that was there
 like that before, or deletes an existing one reaches every listening instance as one change, in commit
 order.
 */
module RuleReplicas {
  import opened Wrappers
  import opened RuleTable

  datatype RuleDoc = RuleDoc(ruleId: string, targetHost: string, action: string, maxRPM: int,
                             pathPattern: Option<string>, rateByKey: bool, limiter: string,
                             throttleDelayMs: int, maxDelaySlots: int, durationSeconds: int, expiresAt: int,
                             createdAt: int, updatedAt: int)

  function RuleToDoc(r: Rule, now: int): RuleDoc {
    RuleDoc(r.ruleId, r.targetHost, r.action, r.maxRPM, r.pathPattern, r.rateByKey, r.limiter,
            r.throttleDelayMs, r.maxDelaySlots, r.durationSeconds, r.expiresAt, now, now)
  }

  function DocToRule(d: RuleDoc): Rule {
    Rule(d.ruleId, d.targetHost, d.action, d.maxRPM, d.pathPattern, d.rateByKey, d.limiter,
         d.throttleDelayMs, d.maxDelaySlots, d.durationSeconds, d.expiresAt)
  }

  /** A write in flight. `DeleteAllDocs` still has to query which documents there are. */
  datatype Write = SetDoc(rule: Rule) | DeleteDoc(id: string) | DeleteAllDocs

  datatype Change = Upsert(doc: RuleDoc) | Removed(removed: string) {
    function Id(): string {
      if Upsert? then doc.ruleId else removed
    }
  }

  /** `now` is the instance's own clock; the clocks of two instances need not agree. An instance that has
      stopped listening gets no more changes, but its writes in flight are still committed. */
  datatype Instance = Instance(now: int, cache: Table, writes: multiset<Write>, feed: seq<Change>, listening: bool)

  /** `log` lists the changes ever committed; no step reads it. */
  datatype World = World(instances: seq<Instance>, docs: map<string, RuleDoc>, log: seq<Change>)

  datatype Event =
    | SetRule(i: nat, rule: Rule)
    | RemoveRule(i: nat, id: string)
    | RemoveAll(i: nat)
    | Local(i: nat, op: Op)
    | Commit(i: nat, write: Write)
    | Deliver(i: nat)
    | Join(now: int)
    | Tick(i: nat, now: int)
    | Stop(i: nat)

  const EMPTY := World([], map[], [])

  // ---------- Steps ----------

  /** The effect of one delivered change on a table. */
  function ChangeOp(c: Change): Op {
    match c
    case Upsert(doc) => Put(DocToRule(doc))
    case Removed(id) => Drop(id)
  }

  /** What an event does to the table of instance `i`. */
  function OpsAt(w: World, e: Event, i: nat): seq<Op> {
    match e
    case SetRule(j, rule) =>
      if j == i && j < |w.instances| && rule.ruleId != "" then [Put(WithExpiry(rule, w.instances[j].now))] else []
    case RemoveRule(j, id) => if j == i && j < |w.instances| && id in w.instances[j].cache then [Drop(id)] else []
    case RemoveAll(j) => if j == i then [Clear] else []
    case Local(j, op) => if j == i then [op] else []
    case Deliver(j) =>
      if j == i && j < |w.instances| && w.instances[j].feed != [] then [ChangeOp(w.instances[j].feed[0])] else []
    case _ => []
  }

  predicate Enabled(w: World, e: Event, glob: Glob) {
    match e
    case SetRule(i, _) => i < |w.instances|
    case RemoveRule(i, _) => i < |w.instances|
    case RemoveAll(i) => i < |w.instances|
    case Local(i, op) =>
      && i < |w.instances| && !op.Put? && !op.Drop? && !op.Clear?
      && Clock(op, w.instances[i].now) == w.instances[i].now
      && RuleTable.Enabled(w.instances[i].cache, op, glob)
    case Commit(i, write) => i < |w.instances| && write in w.instances[i].writes
    case Deliver(i) => i < |w.instances| && w.instances[i].feed != []
    case Join(_) => true
    case Tick(i, now) => i < |w.instances| && w.instances[i].now <= now
    case Stop(i) => i < |w.instances|
  }

  /** At every instance calls may come, its clock may go on, it may stop, and instances may join, at any time;
      every write in flight may be the next to be committed. */
  lemma NothingWaits(w: World, i: nat, rule: Rule, id: string, now: int, glob: Glob)
    requires i < |w.instances|
    ensures Enabled(w, SetRule(i, rule), glob) && Enabled(w, RemoveRule(i, id), glob) && Enabled(w, RemoveAll(i), glob)
    ensures Enabled(w, Join(now), glob) && Enabled(w, Stop(i), glob)
    ensures now >= w.instances[i].now ==> Enabled(w, Tick(i, now), glob)
    ensures forall write :: write in w.instances[i].writes ==> Enabled(w, Commit(i, write), glob)
    ensures w.instances[i].feed != [] ==> Enabled(w, Deliver(i), glob)
  {
  }

  function Cached(inst: Instance, op: Op): Instance
    requires Applies(inst.cache, op)
  {
    inst.(cache := RuleTable.Step(inst.cache, op))
  }

  function Launch(inst: Instance, write: Write): Instance {
    inst.(writes := inst.writes + multiset{write})
  }

  /** An administrator's call at one instance: change the table first, then launch the write. */
  function Administer(inst: Instance, e: Event): Instance
    requires e.SetRule? || e.RemoveRule? || e.RemoveAll?
  {
    match e
    case SetRule(_, rule) =>
      var dated := WithExpiry(rule, inst.now);
      if rule.ruleId == "" then inst else Launch(Cached(inst, Put(dated)), SetDoc(dated))
    case RemoveRule(_, id) =>
      if id in inst.cache then Launch(Cached(inst, Drop(id)), DeleteDoc(id)) else inst
    case RemoveAll(_) => Launch(Cached(inst, Clear), DeleteAllDocs)
  }

  /** The listener applies one change. */
  function Receive(inst: Instance): Instance
    requires inst.feed != []
  {
    Cached(inst, ChangeOp(inst.feed[0])).(feed := inst.feed[1..])
  }

  function ReceiveAll(inst: Instance): Instance
    decreases |inst.feed|
  {
    if inst.feed == [] then inst else ReceiveAll(Receive(inst))
  }

  function At(w: World, i: nat, inst: Instance): World
    requires i < |w.instances|
  {
    w.(instances := w.instances[i := inst])
  }

  function Stopped(inst: Instance): Instance {
    inst.(feed := [], listening := false)
  }

  function Notified(inst: Instance, c: Change): Instance {
    if inst.listening then inst.(feed := inst.feed + [c]) else inst
  }

  /** A written or deleted document goes to the log and to the feed of every listening instance. */
  function Publish(w: World, docs: map<string, RuleDoc>, c: Change): World {
    w.(docs := docs, log := w.log + [c],
       instances := seq(|w.instances|, k requires 0 <= k < |w.instances| => Notified(w.instances[k], c)))
  }

  function Apply(w: World, i: nat, write: Write): World
    requires i < |w.instances|
  {
    var inst := w.instances[i];
    var rest := At(w, i, inst.(writes := inst.writes - multiset{write}));
    match write
    case SetDoc(rule) =>
      var doc := RuleToDoc(rule, inst.now);
      Publish(rest, w.docs[rule.ruleId := doc], Upsert(doc))
    case DeleteDoc(id) =>
      if id in w.docs then Publish(rest, w.docs - {id}, Removed(id)) else rest
    case DeleteAllDocs =>
      At(w, i, inst.(writes := inst.writes - multiset{write} + multiset(set id | id in w.docs :: DeleteDoc(id))))
  }

  /** The table of an instance that starts now. */
  function Load(docs: map<string, RuleDoc>, now: int): Table {
    map id | id in docs && docs[id].expiresAt > now :: Live(DocToRule(docs[id]), 0)
  }

  function Step(w: World, e: Event, glob: Glob): World
    requires Enabled(w, e, glob)
  {
    match e
    case SetRule(i, _) => At(w, i, Administer(w.instances[i], e))
    case RemoveRule(i, _) => At(w, i, Administer(w.instances[i], e))
    case RemoveAll(i) => At(w, i, Administer(w.instances[i], e))
    case Local(i, op) => At(w, i, Cached(w.instances[i], op))
    case Commit(i, write) => Apply(w, i, write)
    case Deliver(i) => At(w, i, Receive(w.instances[i]))
    case Join(now) => w.(instances := w.instances + [Instance(now, Load(w.docs, now), multiset{}, [], true)])
    case Tick(i, now) => At(w, i, w.instances[i].(now := now))
    case Stop(i) => At(w, i, Stopped(w.instances[i]))
  }

  ghost predicate Possible(w: World, run: seq<Event>, glob: Glob)
    decreases |run|
  {
    run == [] || (Enabled(w, run[0], glob) && Possible(Step(w, run[0], glob), run[1..], glob))
  }

  ghost function Final(w: World, run: seq<Event>, glob: Glob): World
    requires Possible(w, run, glob)
    decreases |run|
  {
    if run == [] then w else Final(Step(w, run[0], glob), run[1..], glob)
  }

  /** A call takes effect at its own instance at once, before anything is committed or delivered: a rule
      that is set is cached as it was dated, with a fresh counter, a removed one is not cached any more,
      nor is any after `RemoveAll`, and no other rule is touched. */
  lemma OwnCallIsShown(w: World, e: Event, glob: Glob, id: string)
    requires Enabled(w, e, glob) && (e.SetRule? || e.RemoveRule? || e.RemoveAll?)
    ensures var before, after := w.instances[e.i], Step(w, e, glob).instances[e.i];
            Lookup(after.cache, id)
            == match e
               case SetRule(_, rule) =>
                 if rule.ruleId == id && id != "" then Some(Live(WithExpiry(rule, before.now), 0))
                 else Lookup(before.cache, id)
               case RemoveRule(_, x) => if x == id then None else Lookup(before.cache, id)
               case _ => None
  {
  }

  // ---------- Convergence ----------

  /** The last change about `id` in a list of changes. */
  function Last(changes: seq<Change>, id: string): Option<Change> {
    if changes == [] then None
    else
      var n := |changes| - 1;
      if changes[n].Id() == id then Some(changes[n]) else Last(changes[..n], id)
  }

  predicate Matches(c: Change, docs: map<string, RuleDoc>, id: string) {
    match c
    case Upsert(doc) => id in docs && docs[id] == doc
    case Removed(_) => id !in docs
  }

  /** The rule in force under `id` according to a table, or according to the documents. */
  function Shown(cache: Table, id: string, now: int): Option<Rule> {
    if id in cache && Unexpired(cache[id].rule, now) then Some(cache[id].rule) else None
  }

  function Stored(docs: map<string, RuleDoc>, id: string, now: int): Option<Rule> {
    if id in docs && docs[id].expiresAt > now then Some(DocToRule(docs[id])) else None
  }

  /** The instance still has to write `id`, or to delete it. */
  ghost predicate Owes(inst: Instance, id: string) {
    || (exists write :: write in inst.writes && write.SetDoc? && write.rule.ruleId == id)
    || (id !in inst.cache && (DeleteDoc(id) in inst.writes || DeleteAllDocs in inst.writes))
  }

  /** The last pending change about `id` leads to what is stored; with none pending the instance shows
      what is stored, or owes a write. */
  ghost predicate Covered(inst: Instance, docs: map<string, RuleDoc>, id: string) {
    match Last(inst.feed, id)
    case Some(c) => Matches(c, docs, id)
    case None => Shown(inst.cache, id, inst.now) == Stored(docs, id, inst.now) || Owes(inst, id)
  }

  ghost predicate Sound(w: World) {
    && (forall id :: id in w.docs ==> w.docs[id].ruleId == id)
    && (forall id :: match Last(w.log, id) case Some(c) => Matches(c, w.docs, id) case None => id !in w.docs)
    && (forall i, id :: 0 <= i < |w.instances| && w.instances[i].listening ==> Covered(w.instances[i], w.docs, id))
  }

  lemma LastAppended(changes: seq<Change>, c: Change, id: string)
    ensures Last(changes + [c], id) == if c.Id() == id then Some(c) else Last(changes, id)
  {
    assert (changes + [c])[..|changes|] == changes;
  }

  lemma {:induction false} LastDelivered(changes: seq<Change>, id: string)
    requires changes != []
    ensures Last(changes, id) == match Last(changes[1..], id)
                                 case Some(c) => Some(c)
                                 case None => if changes[0].Id() == id then Some(changes[0]) else None
    decreases |changes|
  {
    var n := |changes| - 1;
    if n == 0 {
      assert changes[..0] == [] && changes[1..] == [];
    } else {
      assert changes[1..][..n - 1] == changes[..n][1..];
      LastDelivered(changes[..n], id);
    }
  }

  lemma PublishKeepsSound(w: World, v: World, docs: map<string, RuleDoc>, c: Change)
    requires Sound(w)
    requires v.docs == w.docs && v.log == w.log && |v.instances| == |w.instances|
    requires forall i :: 0 <= i < |w.instances| ==>
               v.instances[i].feed == w.instances[i].feed && v.instances[i].cache == w.instances[i].cache
               && v.instances[i].now == w.instances[i].now && v.instances[i].listening == w.instances[i].listening
    requires forall i, id :: 0 <= i < |w.instances| && id != c.Id() && Owes(w.instances[i], id) ==>
             Owes(v.instances[i], id)
    requires docs - {c.Id()} == w.docs - {c.Id()} && Matches(c, docs, c.Id())
    ensures Sound(Publish(v, docs, c))
  {
    var p := Publish(v, docs, c);
    forall id ensures id != c.Id() ==> (id in docs <==> id in w.docs) && (id in docs ==> docs[id] == w.docs[id]) {
      assert id != c.Id() ==> (id in docs - {c.Id()} <==> id in w.docs - {c.Id()});
      assert id != c.Id() && id in docs ==> (docs - {c.Id()})[id] == (w.docs - {c.Id()})[id];
    }
    forall id ensures match Last(p.log, id) case Some(d) => Matches(d, docs, id) case None => id !in docs {
      LastAppended(w.log, c, id);
    }
    forall i, id | 0 <= i < |p.instances| && p.instances[i].listening ensures Covered(p.instances[i], docs, id) {
      LastAppended(w.instances[i].feed, c, id);
      assert Covered(w.instances[i], w.docs, id);
      if id != c.Id() && Owes(w.instances[i], id) { assert Owes(v.instances[i], id); }
    }
  }

  /** A commit that changes no document settles what its own instance owed, or hands it on. */
  lemma SilentCommitCovered(inst: Instance, write: Write, docs: map<string, RuleDoc>, id: string)
    requires write in inst.writes && Covered(inst, docs, id)
    requires write.DeleteAllDocs? || (write.DeleteDoc? && write.id !in docs)
    ensures var left := inst.writes - multiset{write};
            var queried := if write.DeleteAllDocs? then left + multiset(set x | x in docs :: DeleteDoc(x)) else left;
            Covered(inst.(writes := queried), docs, id)
  {
    if write.DeleteAllDocs? && id in docs {
      assert DeleteDoc(id) in (set x | x in docs :: DeleteDoc(x));
    }
  }

  lemma OthersStillOwed(inst: Instance, write: Write, id: string)
    requires Owes(inst, id)
    requires write.DeleteDoc? ==> write.id != id
    requires write.SetDoc? ==> write.rule.ruleId != id
    requires !write.DeleteAllDocs?
    ensures Owes(inst.(writes := inst.writes - multiset{write}), id)
  {
  }

  lemma CommitKeepsSound(w: World, i: nat, write: Write)
    requires Sound(w) && i < |w.instances| && write in w.instances[i].writes
    ensures Sound(Apply(w, i, write))
  {
    var inst := w.instances[i];
    if write.DeleteAllDocs? || (write.DeleteDoc? && write.id !in w.docs) {
      forall id | inst.listening ensures Covered(Apply(w, i, write).instances[i], w.docs, id) {
        assert Covered(inst, w.docs, id);
        SilentCommitCovered(inst, write, w.docs, id);
      }
    } else {
      var c := if write.SetDoc? then Upsert(RuleToDoc(write.rule, inst.now)) else Removed(write.id);
      var rest := At(w, i, inst.(writes := inst.writes - multiset{write}));
      forall k, id | 0 <= k < |w.instances| && id != c.Id() && Owes(w.instances[k], id)
        ensures Owes(rest.instances[k], id)
      {
        if k == i { OthersStillOwed(inst, write, id); }
      }
      PublishKeepsSound(w, rest, Apply(w, i, write).docs, c);
    }
  }

  lemma AdministerCovered(inst: Instance, e: Event, docs: map<string, RuleDoc>, id: string)
    requires e.SetRule? || e.RemoveRule? || e.RemoveAll?
    requires Covered(inst, docs, id)
    ensures Covered(Administer(inst, e), docs, id)
  {
    var after := Administer(inst, e);
    if e.SetRule? && e.rule.ruleId == id && id != "" {
      assert SetDoc(WithExpiry(e.rule, inst.now)) in after.writes;
    }
  }

  /** Checks and housekeeping show the same rules as before. */
  lemma LocalCovered(inst: Instance, op: Op, docs: map<string, RuleDoc>, id: string)
    requires !op.Put? && !op.Drop? && !op.Clear? && Applies(inst.cache, op) && Clock(op, inst.now) == inst.now
    requires Covered(inst, docs, id)
    ensures Covered(Cached(inst, op), docs, id)
  {
  }

  /** Administration and housekeeping at one instance touch no feed and no document. */
  lemma LocalKeepsSound(w: World, e: Event, glob: Glob)
    requires Sound(w) && Enabled(w, e, glob)
    requires e.SetRule? || e.RemoveRule? || e.RemoveAll? || e.Local?
    ensures Sound(Step(w, e, glob))
  {
    var before, after := w.instances[e.i], Step(w, e, glob).instances[e.i];
    forall id | before.listening ensures Covered(after, w.docs, id) {
      assert Covered(before, w.docs, id);
      if e.Local? { LocalCovered(before, e.op, w.docs, id); } else { AdministerCovered(before, e, w.docs, id); }
    }
  }

  lemma DeliverKeepsSound(w: World, i: nat, glob: Glob)
    requires Sound(w) && Enabled(w, Deliver(i), glob)
    ensures Sound(Step(w, Deliver(i), glob))
  {
    var before, after := w.instances[i], Step(w, Deliver(i), glob).instances[i];
    forall id | before.listening ensures Covered(after, w.docs, id) {
      assert Covered(before, w.docs, id);
      LastDelivered(before.feed, id);
    }
  }

  lemma StepKeepsSound(w: World, e: Event, glob: Glob)
    requires Sound(w) && Enabled(w, e, glob)
    ensures Sound(Step(w, e, glob))
  {
    match e
    case Commit(i, write) => CommitKeepsSound(w, i, write);
    case Deliver(i) => DeliverKeepsSound(w, i, glob);
    case Join(_) =>
    case Tick(i, now) =>
      forall id | w.instances[i].listening ensures Covered(w.instances[i].(now := now), w.docs, id) {
        assert Covered(w.instances[i], w.docs, id);
      }
    case Stop(_) =>
    case _ => LocalKeepsSound(w, e, glob);
  }

  lemma {:induction false} RunKeepsSound(w: World, run: seq<Event>, glob: Glob)
    requires Sound(w) && Possible(w, run, glob)
    ensures Sound(Final(w, run, glob))
    decreases |run|
  {
    if run != [] {
      StepKeepsSound(w, run[0], glob);
      RunKeepsSound(Step(w, run[0], glob), run[1..], glob);
    }
  }

  /** Nothing is in flight and nothing is left to deliver. */
  predicate Quiet(w: World) {
    forall inst :: inst in w.instances ==> inst.writes == multiset{} && inst.feed == []
  }

  lemma QuietShows(w: World, inst: Instance, id: string)
    requires Sound(w) && Quiet(w) && inst in w.instances && inst.listening
    ensures Shown(inst.cache, id, inst.now) == Stored(w.docs, id, inst.now)
  {
    var i :| 0 <= i < |w.instances| && w.instances[i] == inst;
    assert Covered(w.instances[i], w.docs, id);
  }

  /** Whatever was done in whatever order, once things are quiet every listening instance shows exactly the rules
      that are stored and unexpired, and what is stored under an id is what was committed last. */
  lemma Convergence(run: seq<Event>, glob: Glob)
    requires Possible(EMPTY, run, glob) && Quiet(Final(EMPTY, run, glob))
    ensures var w := Final(EMPTY, run, glob);
            forall inst, id :: inst in w.instances && inst.listening ==>
              Shown(inst.cache, id, inst.now) == Stored(w.docs, id, inst.now)
    ensures var w := Final(EMPTY, run, glob);
            forall id :: match Last(w.log, id) case Some(c) => Matches(c, w.docs, id) case None => id !in w.docs
  {
    RunKeepsSound(EMPTY, run, glob);
    var w := Final(EMPTY, run, glob);
    forall inst, id | inst in w.instances && inst.listening
      ensures Shown(inst.cache, id, inst.now) == Stored(w.docs, id, inst.now)
    {
      QuietShows(w, inst, id);
    }
  }

  // ---------- Quiet is always reached ----------

  function Sum(instances: seq<Instance>, f: Instance -> nat): nat {
    if instances == [] then 0 else f(instances[0]) + Sum(instances[1..], f)
  }

  lemma {:induction false} SumChanged(a: seq<Instance>, i: nat, inst: Instance, f: Instance -> nat)
    requires i < |a|
    ensures Sum(a[i := inst], f) + f(a[i]) == Sum(a, f) + f(inst)
  {
    if i > 0 {
      assert a[i := inst][1..] == a[1..][i - 1 := inst];
      SumChanged(a[1..], i - 1, inst, f);
    } else {
      assert a[i := inst][1..] == a[1..];
    }
  }

  lemma {:induction false} SumUnchanged(a: seq<Instance>, b: seq<Instance>, f: Instance -> nat)
    requires |a| == |b| && forall k :: 0 <= k < |a| ==> f(a[k]) == f(b[k])
    ensures Sum(a, f) == Sum(b, f)
  {
    if a != [] { SumUnchanged(a[1..], b[1..], f); }
  }

  function Queries(w: World): nat { Sum(w.instances, (inst: Instance) => inst.writes[DeleteAllDocs]) }

  function InFlight(w: World): nat { Sum(w.instances, (inst: Instance) => |inst.writes|) }

  function Undelivered(w: World): nat { Sum(w.instances, (inst: Instance) => |inst.feed|) }

  /** Committing a write or delivering a change, as opposed to asking for something new. */
  predicate Settling(e: Event) {
    e.Commit? || e.Deliver?
  }

  predicate Closer(v: World, w: World) {
    || Queries(v) < Queries(w)
    || (Queries(v) == Queries(w) && InFlight(v) < InFlight(w))
    || (Queries(v) == Queries(w) && InFlight(v) == InFlight(w) && Undelivered(v) < Undelivered(w))
  }

  lemma QueryIsCloser(w: World, i: nat)
    requires i < |w.instances| && DeleteAllDocs in w.instances[i].writes
    ensures Queries(Apply(w, i, DeleteAllDocs)) < Queries(w)
  {
    SumChanged(w.instances, i, Apply(w, i, DeleteAllDocs).instances[i], (inst: Instance) => inst.writes[DeleteAllDocs]);
  }

  lemma CommitIsCloser(w: World, i: nat, write: Write)
    requires i < |w.instances| && write in w.instances[i].writes
    ensures var v := Apply(w, i, write);
            Queries(v) < Queries(w) || (Queries(v) == Queries(w) && InFlight(v) < InFlight(w))
  {
    if write.DeleteAllDocs? {
      QueryIsCloser(w, i);
    } else {
      var queries := (inst: Instance) => inst.writes[DeleteAllDocs];
      var flying := (inst: Instance) => |inst.writes|;
      var v := Apply(w, i, write);
      var left := w.instances[i].(writes := w.instances[i].writes - multiset{write});
      SumChanged(w.instances, i, left, queries);
      SumChanged(w.instances, i, left, flying);
      SumUnchanged(w.instances[i := left], v.instances, queries);
      SumUnchanged(w.instances[i := left], v.instances, flying);
    }
  }

  lemma DeliverIsCloser(w: World, i: nat, glob: Glob)
    requires Enabled(w, Deliver(i), glob)
    ensures Closer(Step(w, Deliver(i), glob), w)
  {
    var v := Step(w, Deliver(i), glob);
    SumChanged(w.instances, i, v.instances[i], (inst: Instance) => |inst.feed|);
    SumUnchanged(w.instances, v.instances, (inst: Instance) => inst.writes[DeleteAllDocs]);
    SumUnchanged(w.instances, v.instances, (inst: Instance) => |inst.writes|);
  }

  lemma SettlingIsCloser(w: World, e: Event, glob: Glob)
    requires Settling(e) && Enabled(w, e, glob)
    ensures Closer(Step(w, e, glob), w)
  {
    if e.Commit? { CommitIsCloser(w, e.i, e.write); } else { DeliverIsCloser(w, e.i, glob); }
  }

  lemma NothingToSettle(w: World, glob: Glob)
    ensures Quiet(w) <==> forall e :: Settling(e) ==> !Enabled(w, e, glob)
  {
    if !Quiet(w) {
      var inst :| inst in w.instances && (inst.writes != multiset{} || inst.feed != []);
      var i :| 0 <= i < |w.instances| && w.instances[i] == inst;
      if inst.writes != multiset{} {
        var write :| write in inst.writes;
        assert Enabled(w, Commit(i, write), glob);
      } else {
        assert Enabled(w, Deliver(i), glob);
      }
    }
  }

  /** Commits and deliveries cannot go on forever, in whatever order they come, and whenever none of
      them is possible the world is quiet. */
  lemma SettlingEnds(w: World, glob: Glob)
    ensures forall e :: Settling(e) && Enabled(w, e, glob) ==> Closer(Step(w, e, glob), w)
    ensures Quiet(w) <==> forall e :: Settling(e) ==> !Enabled(w, e, glob)
  {
    forall e | Settling(e) && Enabled(w, e, glob) ensures Closer(Step(w, e, glob), w) {
      SettlingIsCloser(w, e, glob);
    }
    NothingToSettle(w, glob);
  }

  /** So from any world there is a run of commits and deliveries alone that makes it quiet, and it then
      converges. */
  lemma {:induction false} Settle(w: World, glob: Glob) returns (run: seq<Event>)
    ensures forall e :: e in run ==> Settling(e)
    ensures Possible(w, run, glob) && Quiet(Final(w, run, glob))
    decreases Queries(w), InFlight(w), Undelivered(w)
  {
    SettlingEnds(w, glob);
    if Quiet(w) {
      run := [];
    } else {
      var e :| Settling(e) && Enabled(w, e, glob);
      var rest := Settle(Step(w, e, glob), glob);
      run := [e] + rest;
      assert run[1..] == rest;
    }
  }

  // ---------- When the last admin call wins ----------

  lemma {:induction false} RunsCompose(w: World, run: seq<Event>, more: seq<Event>, glob: Glob)
    requires Possible(w, run, glob) && Possible(Final(w, run, glob), more, glob)
    ensures Possible(w, run + more, glob) && Final(w, run + more, glob) == Final(Final(w, run, glob), more, glob)
    decreases |run|
  {
    if run == [] {
      assert run + more == more;
    } else {
      assert (run + more)[1..] == run[1..] + more;
      RunsCompose(Step(w, run[0], glob), run[1..], more, glob);
    }
  }

  /** The rule that is stored under `id`, expired or not. */
  function Held(docs: map<string, RuleDoc>, id: string): Option<Rule> {
    if id in docs then Some(DocToRule(docs[id])) else None
  }

  /** The write may change what is stored under `id`. */
  predicate About(write: Write, id: string) {
    match write
    case SetDoc(rule) => rule.ruleId == id
    case DeleteDoc(x) => x == id
    case DeleteAllDocs => true
  }

  /** What a write leaves under an id it is about, once it and the deletions it launches are committed. */
  function Wants(write: Write): Option<Rule> {
    if write.SetDoc? then Some(write.rule) else None
  }

  /** An administrator's call that is about `id` and is not refused. */
  predicate Concerns(e: Event, id: string) {
    match e
    case SetRule(_, rule) => rule.ruleId == id && id != ""
    case RemoveRule(_, x) => x == id
    case RemoveAll(_) => true
    case _ => false
  }

  /** What is to be stored under `id` according to such a call at time `now`. */
  function Asked(e: Event, now: int): Option<Rule> {
    if e.SetRule? then Some(WithExpiry(e.rule, now)) else None
  }

  ghost predicate Unopposed(w: World, id: string, want: Option<Rule>) {
    forall i, write :: 0 <= i < |w.instances| && write in w.instances[i].writes && About(write, id) ==>
        Wants(write) == want
  }

  ghost predicate UnderWay(w: World, id: string) {
    exists i, write :: 0 <= i < |w.instances| && write in w.instances[i].writes && About(write, id)
  }

  /** Everything in flight about `id` leads to `want`, which is stored unless something is in flight. */
  ghost predicate Heading(w: World, id: string, want: Option<Rule>) {
    Unopposed(w, id, want) && (Held(w.docs, id) == want || UnderWay(w, id))
  }

  /** Once a write about `id` is committed, what it wants is stored or only a deletion away. */
  lemma AboutCommitted(w: World, i: nat, write: Write, id: string)
    requires i < |w.instances| && write in w.instances[i].writes && About(write, id)
    ensures var v := Apply(w, i, write);
            |v.instances| == |w.instances| && (Held(v.docs, id) == Wants(write) || UnderWay(v, id))
  {
    var v := Apply(w, i, write);
    if write.DeleteAllDocs? && id in w.docs {
      assert DeleteDoc(id) in (set x | x in w.docs :: DeleteDoc(x));
      assert DeleteDoc(id) in v.instances[i].writes && About(DeleteDoc(id), id);
      assert UnderWay(v, id);
    } else if write.SetDoc? {
      assert v.docs[id] == RuleToDoc(write.rule, w.instances[i].now);
    }
  }

  /** A commit launches nothing but deletions, and these only where it queries the documents. */
  lemma CommittedWrites(w: World, i: nat, write: Write, k: nat, other: Write)
    requires i < |w.instances| && write in w.instances[i].writes
    ensures |Apply(w, i, write).instances| == |w.instances|
    ensures k < |w.instances| && other in Apply(w, i, write).instances[k].writes ==>
              other in w.instances[k].writes || (write.DeleteAllDocs? && other.DeleteDoc?)
    ensures k < |w.instances| && other in w.instances[k].writes ==>
            other == write || other in Apply(w, i, write).instances[k].writes
  {
  }

  lemma CommitKeepsHeading(w: World, i: nat, write: Write, id: string, want: Option<Rule>)
    requires Heading(w, id, want) && i < |w.instances| && write in w.instances[i].writes
    ensures Heading(Apply(w, i, write), id, want)
  {
    var v := Apply(w, i, write);
    assert About(write, id) ==> Wants(write) == want;
    forall k, other | 0 <= k < |v.instances| && other in v.instances[k].writes && About(other, id)
      ensures Wants(other) == want
    {
      CommittedWrites(w, i, write, k, other);
    }
    if About(write, id) {
      AboutCommitted(w, i, write, id);
    } else if Held(w.docs, id) != want {
      var k, other :| 0 <= k < |w.instances| && other in w.instances[k].writes && About(other, id);
      CommittedWrites(w, i, write, k, other);
    }
  }

  lemma CallsElsewhere(inst: Instance, e: Event, id: string)
    requires (e.SetRule? || e.RemoveRule? || e.RemoveAll?) && !Concerns(e, id)
    ensures forall write :: write in inst.writes ==> write in Administer(inst, e).writes
    ensures forall write :: write in Administer(inst, e).writes && About(write, id) ==> write in inst.writes
  {
  }

  /** Only commits and calls about `id` change what is in flight about `id`. */
  lemma LeavesAlone(w: World, e: Event, id: string, glob: Glob)
    requires Enabled(w, e, glob) && !Concerns(e, id) && !e.Commit?
    ensures var v := Step(w, e, glob);
            && v.docs == w.docs && |v.instances| >= |w.instances|
            && (forall k, write :: 0 <= k < |w.instances| && write in w.instances[k].writes ==>
                  write in v.instances[k].writes)
            && (forall k, write :: 0 <= k < |v.instances| && write in v.instances[k].writes && About(write, id) ==>
                  k < |w.instances| && write in w.instances[k].writes)
  {
    if e.SetRule? || e.RemoveRule? || e.RemoveAll? { CallsElsewhere(w.instances[e.i], e, id); }
  }

  lemma StepKeepsHeading(w: World, e: Event, id: string, want: Option<Rule>, glob: Glob)
    requires Heading(w, id, want) && Enabled(w, e, glob) && !Concerns(e, id)
    ensures Heading(Step(w, e, glob), id, want)
  {
    if e.Commit? {
      CommitKeepsHeading(w, e.i, e.write, id, want);
    } else {
      LeavesAlone(w, e, id, glob);
      if Held(w.docs, id) != want {
        var k, write :| 0 <= k < |w.instances| && write in w.instances[k].writes && About(write, id);
        assert write in Step(w, e, glob).instances[k].writes;
      }
    }
  }

  predicate Undisturbed(run: seq<Event>, id: string) {
    forall e :: e in run ==> !Concerns(e, id)
  }

  lemma {:induction false} RunKeepsHeading(w: World, run: seq<Event>, id: string, want: Option<Rule>, glob: Glob)
    requires Heading(w, id, want) && Possible(w, run, glob) && Undisturbed(run, id)
    ensures Heading(Final(w, run, glob), id, want)
    ensures Quiet(Final(w, run, glob)) ==> Held(Final(w, run, glob).docs, id) == want
    decreases |run|
  {
    if run == [] {
      if Quiet(w) { assert forall i :: 0 <= i < |w.instances| ==> w.instances[i] in w.instances; }
    } else {
      assert run[0] in run;
      StepKeepsHeading(w, run[0], id, want, glob);
      RunKeepsHeading(Step(w, run[0], glob), run[1..], id, want, glob);
    }
  }

  /** `held` is the only write in flight. */
  ghost predicate OnlyInFlight(w: World, i: nat, held: Write) {
    && i < |w.instances| && w.instances[i].writes[held] == 1
    && forall k, write :: 0 <= k < |w.instances| && write in w.instances[k].writes ==> k == i && write == held
  }

  lemma AnotherWrite(w: World, i: nat, held: Write) returns (k: nat, write: Write)
    requires i < |w.instances| && held in w.instances[i].writes && !OnlyInFlight(w, i, held)
    ensures k < |w.instances| && write in w.instances[k].writes
    ensures k == i && write == held ==> w.instances[i].writes[held] > 1
  {
    if w.instances[i].writes[held] > 1 {
      k, write := i, held;
    } else {
      k, write :| 0 <= k < |w.instances| && write in w.instances[k].writes && (k != i || write != held);
    }
  }

  lemma StaysBehind(w: World, i: nat, held: Write, k: nat, write: Write)
    requires i < |w.instances| && held in w.instances[i].writes
    requires k < |w.instances| && write in w.instances[k].writes
    requires k == i && write == held ==> w.instances[i].writes[held] > 1
    ensures i < |Apply(w, k, write).instances| && held in Apply(w, k, write).instances[i].writes
  {
  }

  /** Everything can settle before one write that stays behind. */
  lemma {:induction false} SettleBefore(w: World, i: nat, held: Write, glob: Glob) returns (run: seq<Event>)
    requires i < |w.instances| && held in w.instances[i].writes
    ensures forall e :: e in run ==> Settling(e)
    ensures Possible(w, run, glob) && OnlyInFlight(Final(w, run, glob), i, held)
    decreases Queries(w), InFlight(w)
  {
    if OnlyInFlight(w, i, held) {
      run := [];
    } else {
      var k, write := AnotherWrite(w, i, held);
      var e := Commit(k, write);
      CommitIsCloser(w, k, write);
      StaysBehind(w, i, held, k, write);
      var rest := SettleBefore(Step(w, e, glob), i, held, glob);
      run := [e] + rest;
      assert run[1..] == rest;
    }
  }

  lemma LastCommitDecides(w: World, i: nat, held: Write, id: string)
    requires OnlyInFlight(w, i, held) && About(held, id)
    ensures Heading(Apply(w, i, held), id, Wants(held))
  {
    var v := Apply(w, i, held);
    AboutCommitted(w, i, held, id);
    forall k, write | 0 <= k < |v.instances| && write in v.instances[k].writes ensures Wants(write) == Wants(held) {
      CommittedWrites(w, i, held, k, write);
    }
  }

  /** Otherwise commits and deliveries alone can end with something else stored. */
  lemma OpposedMayLose(w: World, id: string, want: Option<Rule>, glob: Glob) returns (run: seq<Event>)
    requires !Heading(w, id, want)
    ensures forall e :: e in run ==> Settling(e)
    ensures Possible(w, run, glob) && Quiet(Final(w, run, glob)) && Held(Final(w, run, glob).docs, id) != want
  {
    if Unopposed(w, id, want) {
      run := Settle(w, glob);
      RunKeepsHeading(w, run, id, Held(w.docs, id), glob);
    } else {
      var i, held :| 0 <= i < |w.instances| && held in w.instances[i].writes && About(held, id) && Wants(held) != want;
      var before := SettleBefore(w, i, held, glob);
      var v := Final(w, before, glob);
      LastCommitDecides(v, i, held, id);
      var after := Settle(Apply(v, i, held), glob);
      RunKeepsHeading(Apply(v, i, held), after, id, Wants(held), glob);
      var e := Commit(i, held);
      assert ([e] + after)[1..] == after;
      RunsCompose(w, before, [e] + after, glob);
      run := before + ([e] + after);
    }
  }

  /** However a run goes on without another accepted call about `id`, once it is quiet `want` is stored. */
  ghost predicate Prevails(w: World, id: string, want: Option<Rule>, glob: Glob) {
    forall run :: Possible(w, run, glob) && Undisturbed(run, id) && Quiet(Final(w, run, glob)) ==>
      Held(Final(w, run, glob).docs, id) == want
  }

  lemma PrevailsExactly(w: World, id: string, want: Option<Rule>, glob: Glob)
    ensures Prevails(w, id, want, glob) <==> Heading(w, id, want)
  {
    if Heading(w, id, want) {
      forall run | Possible(w, run, glob) && Undisturbed(run, id) && Quiet(Final(w, run, glob))
        ensures Held(Final(w, run, glob).docs, id) == want
      {
        RunKeepsHeading(w, run, id, want, glob);
      }
    } else {
      var run := OpposedMayLose(w, id, want, glob);
      assert Undisturbed(run, id);
    }
  }

  /** Only the removal of a rule that the instance does not hold launches no write. */
  predicate Launches(w: World, e: Event)
    requires e.RemoveRule? ==> e.i < |w.instances|
  {
    e.RemoveRule? ==> e.id in w.instances[e.i].cache
  }

  /** The condition, read off the world before the call: no write in flight at any instance, if there is
      one about `id`, leads elsewhere; and a call that launches no write asks for what is stored, or for
      what some write in flight leads to. */
  ghost predicate Wins(w: World, e: Event, id: string)
    requires Concerns(e, id) && e.i < |w.instances|
  {
    var want := Asked(e, w.instances[e.i].now);
    Unopposed(w, id, want) && (Launches(w, e) || Held(w.docs, id) == want || UnderWay(w, id))
  }

  /** The write that a call about `id` launches. */
  function OwnWrite(e: Event, id: string, now: int): Write {
    match e
    case SetRule(_, rule) => SetDoc(WithExpiry(rule, now))
    case RemoveRule(_, _) => DeleteDoc(id)
    case _ => DeleteAllDocs
  }

  /** It is about `id` and leads to what is asked for. */
  lemma OwnWriteLaunched(inst: Instance, e: Event, id: string)
    requires Concerns(e, id) && (e.RemoveRule? ==> id in inst.cache)
    ensures Administer(inst, e).writes == inst.writes + multiset{OwnWrite(e, id, inst.now)}
    ensures About(OwnWrite(e, id, inst.now), id) && Wants(OwnWrite(e, id, inst.now)) == Asked(e, inst.now)
  {
  }

  /** No other write in flight is touched. */
  lemma LaunchedWrite(w: World, e: Event, id: string, glob: Glob)
    requires Enabled(w, e, glob) && Concerns(e, id) && Launches(w, e)
    ensures var v := Step(w, e, glob);
            && UnderWay(v, id)
            && forall want :: Unopposed(v, id, want) <==>
                Unopposed(w, id, want) && want == Asked(e, w.instances[e.i].now)
  {
    var v, own := Step(w, e, glob), OwnWrite(e, id, w.instances[e.i].now);
    OwnWriteLaunched(w.instances[e.i], e, id);
    assert v.instances[e.i] == Administer(w.instances[e.i], e);
    assert own in v.instances[e.i].writes;
    forall k, write | 0 <= k < |w.instances|
      ensures write in v.instances[k].writes <==> write in w.instances[k].writes || (k == e.i && write == own)
    {
    }
  }

  /** An administrator's call decides what is stored in the end, however the run goes on without another
      call about the id, if and only if it wins. */
  lemma LastAdminCall(w: World, e: Event, id: string, glob: Glob)
    requires Enabled(w, e, glob) && Concerns(e, id)
    ensures Prevails(Step(w, e, glob), id, Asked(e, w.instances[e.i].now), glob) <==> Wins(w, e, id)
  {
    var v, want := Step(w, e, glob), Asked(e, w.instances[e.i].now);
    PrevailsExactly(v, id, want, glob);
    if Launches(w, e) {
      LaunchedWrite(w, e, id, glob);
    } else {
      assert v.instances == w.instances;
    }
  }

  /** And then every listening instance shows exactly that, while it has not expired there. */
  lemma WinnerIsShown(before: seq<Event>, e: Event, after: seq<Event>, id: string, glob: Glob)
    requires Possible(EMPTY, before, glob)
    requires var w := Final(EMPTY, before, glob);
             Enabled(w, e, glob) && Concerns(e, id) && Wins(w, e, id) && Possible(Step(w, e, glob), after, glob)
    requires Undisturbed(after, id) && Quiet(Final(Step(Final(EMPTY, before, glob), e, glob), after, glob))
    ensures var w := Final(EMPTY, before, glob);
            var asked := Asked(e, w.instances[e.i].now);
            forall inst :: inst in Final(Step(w, e, glob), after, glob).instances && inst.listening ==>
              Shown(inst.cache, id, inst.now) == if asked.Some? && Unexpired(asked.value, inst.now) then asked else None
  {
    var w := Final(EMPTY, before, glob);
    LastAdminCall(w, e, id, glob);
    RunKeepsSound(EMPTY, before, glob);
    StepKeepsSound(w, e, glob);
    RunKeepsSound(Step(w, e, glob), after, glob);
    var v := Final(Step(w, e, glob), after, glob);
    forall inst | inst in v.instances && inst.listening
      ensures Shown(inst.cache, id, inst.now) == Stored(v.docs, id, inst.now)
    {
      QuietShows(v, inst, id);
    }
  }

  // ---------- An instance that stopped listening ----------

  predicate Deaf(w: World, i: nat) {
    i < |w.instances| && !w.instances[i].listening && w.instances[i].feed == []
  }

  lemma {:induction false} StaysDeaf(w: World, run: seq<Event>, glob: Glob, i: nat)
    requires Deaf(w, i) && Possible(w, run, glob)
    ensures Deaf(Final(w, run, glob), i) && Deliver(i) !in run
    decreases |run|
  {
    if run != [] {
      StepStaysDeaf(w, run[0], glob, i);
      StaysDeaf(Step(w, run[0], glob), run[1..], glob, i);
    }
  }

  lemma StepStaysDeaf(w: World, e: Event, glob: Glob, i: nat)
    requires Deaf(w, i) && Enabled(w, e, glob)
    ensures Deaf(Step(w, e, glob), i) && e != Deliver(i)
  {
  }

  /** After an instance stopped, no change is ever delivered to it; its table stays as it is then, and its
      writes in flight stay in flight. */
  lemma StoppedHearsNothing(w: World, i: nat, run: seq<Event>, glob: Glob)
    requires i < |w.instances| && Possible(Step(w, Stop(i), glob), run, glob)
    ensures var v := Step(w, Stop(i), glob);
            && v.instances[i].cache == w.instances[i].cache && v.instances[i].writes == w.instances[i].writes
            && Deliver(i) !in run && Final(v, run, glob).instances != [] && Deaf(Final(v, run, glob), i)
  {
    StaysDeaf(Step(w, Stop(i), glob), run, glob, i);
  }

  // ---------- A run in which the last admin call loses ----------

  lemma Next(w: World, e: Event, v: World, run: seq<Event>, glob: Glob)
    requires Enabled(w, e, glob) && Step(w, e, glob) == v
    requires Possible(v, run, glob)
    ensures Possible(w, [e] + run, glob) && Final(w, [e] + run, glob) == Final(v, run, glob)
  {
    assert ([e] + run)[1..] == run;
  }

  const SAMPLE := Throttle(1)
  const SAMPLE_DOC := RuleToDoc(SAMPLE, 0)

  /** A table with the sample rule, after `n` requests. */
  function Cache(n: nat): Table {
    map["r" := Live(SAMPLE, n)]
  }

  /** One instance, and no documents. */
  function Solo(cache: Table, writes: multiset<Write>): World {
    World([Instance(0, cache, writes, [], true)], map[], [])
  }

  /** One instance, the sample rule committed, its change not delivered yet. */
  function Echoing(cache: Table): World {
    World([Instance(0, cache, multiset{}, [Upsert(SAMPLE_DOC)], true)], map["r" := SAMPLE_DOC], [Upsert(SAMPLE_DOC)])
  }

  function Settled(cache: Table): World {
    World([Instance(0, cache, multiset{}, [], true)], map["r" := SAMPLE_DOC], [Upsert(SAMPLE_DOC)])
  }

  lemma SampleSet(glob: Glob)
    ensures var e := SetRule(0, SAMPLE);
            && Enabled(Solo(map[], multiset{}), e, glob)
            && Step(Solo(map[], multiset{}), e, glob) == Solo(Cache(0), multiset{SetDoc(SAMPLE)})
  {
    assert map[]["r" := Live(SAMPLE, 0)] == Cache(0);
    var none: multiset<Write> := multiset{};
    assert none + multiset{SetDoc(SAMPLE)} == multiset{SetDoc(SAMPLE)};
    assert Step(Solo(map[], multiset{}), SetRule(0, SAMPLE), glob).instances
        == Solo(Cache(0), multiset{SetDoc(SAMPLE)}).instances;
  }

  lemma SampleCommitted(cache: Table, glob: Glob)
    ensures Enabled(Solo(cache, multiset{SetDoc(SAMPLE)}), Commit(0, SetDoc(SAMPLE)), glob)
    ensures Step(Solo(cache, multiset{SetDoc(SAMPLE)}), Commit(0, SetDoc(SAMPLE)), glob) == Echoing(cache)
  {
    var w := Step(Solo(cache, multiset{SetDoc(SAMPLE)}), Commit(0, SetDoc(SAMPLE)), glob);
    assert multiset{SetDoc(SAMPLE)} - multiset{SetDoc(SAMPLE)} == multiset{};
    assert map[]["r" := SAMPLE_DOC] == map["r" := SAMPLE_DOC];
    assert w.instances[0].feed == [Upsert(SAMPLE_DOC)];
    assert w.instances[0] == Echoing(cache).instances[0];
    assert w.instances == Echoing(cache).instances;
  }

  lemma SampleDelivered(glob: Glob)
    ensures Enabled(Echoing(map[]), Deliver(0), glob)
    ensures Step(Echoing(map[]), Deliver(0), glob) == Settled(Cache(0))
  {
    assert map[]["r" := Live(SAMPLE, 0)] == Cache(0);
    assert DocToRule(SAMPLE_DOC) == SAMPLE && [Upsert(SAMPLE_DOC)][1..] == [];
    assert Step(Echoing(map[]), Deliver(0), glob).instances == Settled(Cache(0)).instances;
  }

  lemma SampleRemoved(glob: Glob)
    ensures var w, e := Solo(Cache(0), multiset{SetDoc(SAMPLE)}), RemoveRule(0, "r");
            && Enabled(w, e, glob)
            && Step(w, e, glob) == Solo(map[], multiset{SetDoc(SAMPLE), DeleteDoc("r")})
  {
    var w := Solo(Cache(0), multiset{SetDoc(SAMPLE)});
    assert Cache(0) - {"r"} == map[];
    assert multiset{SetDoc(SAMPLE)} + multiset{DeleteDoc("r")} == multiset{SetDoc(SAMPLE), DeleteDoc("r")};
    assert Step(w, RemoveRule(0, "r"), glob).instances
        == Solo(map[], multiset{SetDoc(SAMPLE), DeleteDoc("r")}).instances;
  }

  lemma SampleDeletedTooEarly(glob: Glob)
    ensures var w, e := Solo(map[], multiset{SetDoc(SAMPLE), DeleteDoc("r")}), Commit(0, DeleteDoc("r"));
            && Enabled(w, e, glob)
            && Step(w, e, glob) == Solo(map[], multiset{SetDoc(SAMPLE)})
  {
    var w := Solo(map[], multiset{SetDoc(SAMPLE), DeleteDoc("r")});
    assert multiset{SetDoc(SAMPLE), DeleteDoc("r")} - multiset{DeleteDoc("r")} == multiset{SetDoc(SAMPLE)};
    assert Step(w, Commit(0, DeleteDoc("r")), glob).instances == Solo(map[], multiset{SetDoc(SAMPLE)}).instances;
  }

  /** A rule whose last admin call was its removal can end up in force: the removal committed first. */
  lemma LastAdminCallMayLose(glob: Glob)
    ensures var run := [SetRule(0, SAMPLE), RemoveRule(0, "r"), Commit(0, DeleteDoc("r")), Commit(0, SetDoc(SAMPLE)),
            Deliver(0)];
            && Possible(Solo(map[], multiset{}), run, glob)
            && Final(Solo(map[], multiset{}), run, glob) == Settled(Cache(0))
  {
    var del, put := Commit(0, DeleteDoc("r")), Commit(0, SetDoc(SAMPLE));
    var w3 := Solo(map[], multiset{SetDoc(SAMPLE), DeleteDoc("r")});
    var w4 := Solo(map[], multiset{SetDoc(SAMPLE)});
    assert map[]["r" := Live(SAMPLE, 0)] == Cache(0);
    SampleDelivered(glob);
    Next(Echoing(map[]), Deliver(0), Settled(Cache(0)), [], glob);
    SampleCommitted(map[], glob);
    Next(w4, put, Echoing(map[]), [Deliver(0)], glob);
    SampleDeletedTooEarly(glob);
    Next(w3, del, w4, [put, Deliver(0)], glob);
    SampleRemoved(glob);
    Next(Solo(Cache(0), multiset{SetDoc(SAMPLE)}), RemoveRule(0, "r"), w3, [del, put, Deliver(0)], glob);
    SampleSet(glob);
    Next(Solo(map[], multiset{}), SetRule(0, SAMPLE), Solo(Cache(0), multiset{SetDoc(SAMPLE)}),
         [RemoveRule(0, "r"), del, put, Deliver(0)], glob);
  }
}
