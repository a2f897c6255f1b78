/**
 Any number of requests in the pipeline at once. A step is one request's next charge, the arrival of a
 request, or an administrator's change; so the layers of different requests interleave in any way, and
 only a single charge, which the source makes under one lock, is atomic. Bounds on what the limiters let
 through to the handler are proved over all such runs.
 */
module PipelineRuns {
  import opened Wrappers
  import opened Pipeline
  import Limiter
  import LimiterRuns
  import RuleTable

  /** A request on its way: `passed` of its charges are made and were not refused. */
  datatype Progress = Progress(request: Request, passed: nat, refused: Option<Response>)

  datatype State = State(world: World, requests: seq<Progress>)

  datatype Event =
    | Arrive(request: Request)
    | Proceed(i: nat)
    | Adjust(name: string, setting: Limiter.Event)
    | Govern(op: RuleTable.Op)

  /** The charges that a request has to pass do not depend on the state of anything. */
  function Charges(env: Env, layers: seq<Layer>, r: Request): seq<Charge> {
    Demands(env, layers, r, false)
  }

  predicate Enabled(env: Env, layers: seq<Layer>, s: State, e: Event) {
    match e
    case Arrive(_) => true
    case Proceed(i) =>
      && i < |s.requests| && s.requests[i].refused.None?
      && s.requests[i].passed < |Charges(env, layers, s.requests[i].request)|
    case Adjust(name, setting) => name in s.world.limiters && !setting.Request?
    case Govern(op) => !op.Check?
  }

  function Step(env: Env, layers: seq<Layer>, s: State, e: Event): State
    requires Enabled(env, layers, s, e)
  {
    match e
    case Arrive(r) => s.(requests := s.requests + [Progress(r, 0, None)])
    case Proceed(i) =>
      var p := s.requests[i];
      var (after, no) := Pay(env, s.world, Charges(env, layers, p.request)[p.passed], p.request);
      State(after, s.requests[i := if no.Some? then p.(refused := no) else p.(passed := p.passed + 1)])
    case Adjust(name, setting) =>
      var l := s.world.limiters[name];
      s.(world := s.world.(limiters := s.world.limiters[name := Limiter.Step(l, setting)]))
    case Govern(op) => s.(world := s.world.(rules := RuleTable.Step(s.world.rules, op)))
  }

  /** In every state requests may arrive, settings and rules may be changed, and exactly those requests go on
      that were not refused and have charges left. */
  lemma NothingWaits(env: Env, layers: seq<Layer>, s: State, r: Request, name: string, i: nat)
    ensures Enabled(env, layers, s, Arrive(r))
    ensures name in s.world.limiters ==>
              forall e: Limiter.Event :: !e.Request? ==> Enabled(env, layers, s, Adjust(name, e))
    ensures forall op: RuleTable.Op :: !op.Check? ==> Enabled(env, layers, s, Govern(op))
    ensures i < |s.requests| ==>
              (Enabled(env, layers, s, Proceed(i)) <==>
               s.requests[i].refused == None && s.requests[i].passed < |Charges(env, layers, s.requests[i].request)|)
  {
  }

  ghost predicate Possible(env: Env, layers: seq<Layer>, s: State, run: seq<Event>)
    decreases |run|
  {
    run == [] || (Enabled(env, layers, s, run[0]) && Possible(env, layers, Step(env, layers, s, run[0]), run[1..]))
  }

  ghost function Final(env: Env, layers: seq<Layer>, s: State, run: seq<Event>): State
    requires Possible(env, layers, s, run)
    decreases |run|
  {
    if run == [] then s else Final(env, layers, Step(env, layers, s, run[0]), run[1..])
  }

  /** What a step is to the limiter `name`. */
  function OwnAt(env: Env, layers: seq<Layer>, s: State, e: Event, name: string): seq<Limiter.Event>
    requires Enabled(env, layers, s, e)
  {
    match e
    case Arrive(_) => []
    case Proceed(i) =>
      var p := s.requests[i];
      var charge := Charges(env, layers, p.request)[p.passed];
      if charge.Limit? && charge.limiter == name then [Limiter.Request(charge.key, p.request.now(name))] else []
    case Adjust(n, setting) => if n == name then [setting] else []
    case Govern(_) => []
  }

  /** The limiter's own run: the charges made to it and the changes of its settings, in their order. */
  ghost function Own(env: Env, layers: seq<Layer>, s: State, run: seq<Event>, name: string): seq<Limiter.Event>
    requires Possible(env, layers, s, run)
    decreases |run|
  {
    if run == [] then []
    else OwnAt(env, layers, s, run[0], name) + Own(env, layers, Step(env, layers, s, run[0]), run[1..], name)
  }

  lemma StepIsOwn(env: Env, layers: seq<Layer>, s: State, e: Event, name: string)
    requires Enabled(env, layers, s, e) && name in s.world.limiters
    ensures Lookup(Step(env, layers, s, e).world.limiters, name)
         == Some(Limiter.Final(s.world.limiters[name], OwnAt(env, layers, s, e, name)))
  {
    var own := OwnAt(env, layers, s, e, name);
    if own != [] { assert own[1..] == []; }
  }

  /** However the requests interleave, a limiter goes through its own run. */
  lemma {:induction false} LimiterRun(env: Env, layers: seq<Layer>, s: State, run: seq<Event>, name: string)
    requires Possible(env, layers, s, run) && name in s.world.limiters
    ensures Lookup(Final(env, layers, s, run).world.limiters, name)
         == Some(Limiter.Final(s.world.limiters[name], Own(env, layers, s, run, name)))
    decreases |run|
  {
    if run != [] {
      var next := Step(env, layers, s, run[0]);
      StepIsOwn(env, layers, s, run[0], name);
      LimiterRun(env, layers, next, run[1..], name);
      Limiter.RunsCompose(s.world.limiters[name], OwnAt(env, layers, s, run[0], name),
          Own(env, layers, next, run[1..], name), true);
    }
  }

  // ---------- Counting requests ----------

  function Count(requests: seq<Progress>, p: Progress -> bool): nat {
    if requests == [] then 0 else (if p(requests[0]) then 1 else 0) + Count(requests[1..], p)
  }

  lemma {:induction false} CountChanged(a: seq<Progress>, i: nat, q: Progress, p: Progress -> bool)
    requires i < |a|
    ensures Count(a[i := q], p) + (if p(a[i]) then 1 else 0) == Count(a, p) + (if p(q) then 1 else 0)
  {
    if i > 0 {
      assert a[i := q][1..] == a[1..][i - 1 := q];
      CountChanged(a[1..], i - 1, q, p);
    } else {
      assert a[i := q][1..] == a[1..];
    }
  }

  lemma {:induction false} CountAppended(a: seq<Progress>, q: Progress, p: Progress -> bool)
    ensures Count(a + [q], p) == Count(a, p) + (if p(q) then 1 else 0)
  {
    if a == [] {
      assert a + [q] == [q] && [q][1..] == [];
    } else {
      assert (a + [q])[1..] == a[1..] + [q];
      CountAppended(a[1..], q, p);
    }
  }

  lemma {:induction false} CountAtMost(a: seq<Progress>, p: Progress -> bool, q: Progress -> bool)
    requires forall x :: x in a && p(x) ==> q(x)
    ensures Count(a, p) <= Count(a, q)
  {
    if a != [] {
      assert a[0] in a;
      CountAtMost(a[1..], p, q);
    }
  }

  lemma {:induction false} CountAll(a: seq<Progress>, p: Progress -> bool)
    requires forall x :: x in a ==> p(x)
    ensures Count(a, p) == |a|
  {
    if a != [] {
      assert a[0] in a;
      CountAll(a[1..], p);
    }
  }

  // ---------- What a limiter lets through to the handler ----------

  /** All charges of the request are made and none was refused, so that the handler runs. */
  predicate Reached(env: Env, layers: seq<Layer>, p: Progress) {
    p.refused.None? && p.passed == |Charges(env, layers, p.request)|
  }

  /** During [a, a + WINDOW), by its own reading, the request was let through by limiter `name` under `key`. */
  predicate Paid(env: Env, layers: seq<Layer>, p: Progress, name: string, key: string, a: int) {
    var charges := Charges(env, layers, p.request);
    p.passed <= |charges| && Limit(name, key) in charges[..p.passed] && LimiterRuns.Within(p.request.now(name), a)
  }

  lemma AllowedIsAdmitted(l: Limiter.State, key: string, now: int, a: int)
    requires Limiter.Allow(l, key, now).1.allowed && LimiterRuns.Within(now, a)
    ensures LimiterRuns.Admitted(Limiter.Replies(l, [Limiter.Request(key, now)]), key, a) == 1
  {
    var e := Limiter.Request(key, now);
    assert [e][1..] == [] && Limiter.Emit(l, e)[1..] == [];
    assert Limiter.Replies(l, [e]) == Limiter.Emit(l, e);
  }

  /** A request that is newly let through was admitted by the limiter in this very step. */
  lemma NewlyPaid(env: Env, layers: seq<Layer>, s: State, i: nat, name: string, key: string, a: int)
    requires Enabled(env, layers, s, Proceed(i)) && name in s.world.limiters
    ensures var (p, q) := (s.requests[i], Step(env, layers, s, Proceed(i)).requests[i]);
            Paid(env, layers, q, name, key, a) && !Paid(env, layers, p, name, key, a) ==>
              var own := OwnAt(env, layers, s, Proceed(i), name);
              LimiterRuns.Admitted(Limiter.Replies(s.world.limiters[name], own), key, a) == 1
  {
    var p, q := s.requests[i], Step(env, layers, s, Proceed(i)).requests[i];
    if Paid(env, layers, q, name, key, a) && !Paid(env, layers, p, name, key, a) {
      var charges := Charges(env, layers, p.request);
      assert charges[..p.passed + 1] == charges[..p.passed] + [charges[p.passed]];
      AllowedIsAdmitted(s.world.limiters[name], key, p.request.now(name), a);
    }
  }

  lemma StepPays(env: Env, layers: seq<Layer>, s: State, e: Event, name: string, key: string, a: int)
    requires Enabled(env, layers, s, e) && name in s.world.limiters
    ensures var paid := (p: Progress) => Paid(env, layers, p, name, key, a);
            Count(Step(env, layers, s, e).requests, paid)
            <= Count(s.requests, paid)
               + LimiterRuns.Admitted(Limiter.Replies(s.world.limiters[name], OwnAt(env, layers, s, e, name)), key, a)
  {
    var paid := (p: Progress) => Paid(env, layers, p, name, key, a);
    match e
    case Arrive(r) => CountAppended(s.requests, Progress(r, 0, None), paid);
    case Proceed(i) =>
      CountChanged(s.requests, i, Step(env, layers, s, e).requests[i], paid);
      NewlyPaid(env, layers, s, i, name, key, a);
    case _ =>
  }

  lemma {:induction false} RunPays(env: Env, layers: seq<Layer>, s: State, run: seq<Event>, name: string, key: string,
      a: int)
    requires Possible(env, layers, s, run) && name in s.world.limiters
    ensures var paid := (p: Progress) => Paid(env, layers, p, name, key, a);
            Count(Final(env, layers, s, run).requests, paid)
            <= Count(s.requests, paid)
               + LimiterRuns.Admitted(Limiter.Replies(s.world.limiters[name], Own(env, layers, s, run, name)), key, a)
    decreases |run|
  {
    if run != [] {
      var l, next := s.world.limiters[name], Step(env, layers, s, run[0]);
      var first, later := OwnAt(env, layers, s, run[0], name), Own(env, layers, next, run[1..], name);
      StepPays(env, layers, s, run[0], name, key, a);
      StepIsOwn(env, layers, s, run[0], name);
      RunPays(env, layers, next, run[1..], name, key, a);
      Limiter.RunsCompose(l, first, later, true);
      LimiterRuns.AdmittedSplits(Limiter.Replies(l, first), Limiter.Replies(Limiter.Final(l, first), later), key, a);
    }
  }

  /** The limiter's clock does not go back, and it is on, with a limit from 1 to `cap`, whenever it is asked
      for `key` during [a, a + WINDOW). */
  ghost predicate Regular(env: Env, layers: seq<Layer>, w: World, run: seq<Event>, name: string, key: string,
                          a: int, cap: int, t: int)
    requires Possible(env, layers, State(w, []), run) && name in w.limiters
  {
    var own := Own(env, layers, State(w, []), run, name);
    && Limiter.Valid(w.limiters[name], t) && Limiter.Ordered(own, t)
    && LimiterRuns.LimitedTo(w.limiters[name], own, key, a, cap)
  }

  predicate Through(env: Env, layers: seq<Layer>, p: Progress, name: string, key: string, a: int) {
    && Reached(env, layers, p) && Limit(name, key) in Charges(env, layers, p.request)
    && LimiterRuns.Within(p.request.now(name), a)
  }

  /** In any pipeline, for any limiter and any key: at most 2 * cap - 1 of the requests that the limiter
      counts under the key reach the handler in any half-open interval of one window length. */
  lemma KeyBound(env: Env, layers: seq<Layer>, w: World, run: seq<Event>, name: string, key: string, a: int, cap: int,
      t: int)
    requires Possible(env, layers, State(w, []), run) && name in w.limiters && cap >= 1
    requires Regular(env, layers, w, run, name, key, a, cap, t)
    ensures Count(Final(env, layers, State(w, []), run).requests,
                  (p: Progress) => Through(env, layers, p, name, key, a))
         <= 2 * cap - 1
  {
    var paid := (p: Progress) => Paid(env, layers, p, name, key, a);
    var through := (p: Progress) => Through(env, layers, p, name, key, a);
    var requests := Final(env, layers, State(w, []), run).requests;
    forall p | p in requests && through(p) ensures paid(p) {
      var charges := Charges(env, layers, p.request);
      assert charges[..p.passed] == charges;
    }
    CountAtMost(requests, through, paid);
    RunPays(env, layers, State(w, []), run, name, key, a);
    LimiterRuns.IntervalBound(w.limiters[name], Own(env, layers, State(w, []), run, name), key, a, cap, t);
  }

  // ---------- The three limiters of the proxy ----------

  /** The charges of the limiter layers are among those of the assembled pipeline. */
  lemma AssembledCharges(env: Env, r: Request, s: Settings)
    ensures var key := ApiKeyLimit(Some("apikey"), s.matcher, s.keyHeader, s.keyIP);
            var jwt := JwtLimit(Some("jwt"), s.jwtIP);
            var others := Made(Demand(env, key, r, false)) + Made(Demand(env, jwt, r, false));
            && (forall c :: c in others ==> c in Charges(env, Assembled(s), r))
            && (!(s.skip && BearerSub(env, r) != "") ==> Limit("ip", ClientIP(env, r)) in Charges(env, Assembled(s), r))
  {
    var key, jwt := ApiKeyLimit(Some("apikey"), s.matcher, s.keyHeader, s.keyIP), JwtLimit(Some("jwt"), s.jwtIP);
    var first := [Passive, BodyLimit(s.maxBody), Passive, Passive, RuleCheck(s.admin)];
    var limiters := [key, jwt, IpLimit(Some("ip"), s.skip)];
    assert Assembled(s) == first + limiters;
    BeforeTheLimiters(env, first, limiters, r);
    LimiterDemands(env, r, key, jwt, s.skip);
  }

  predicate FromAddress(env: Env, s: Settings, p: Progress, ip: string, a: int) {
    Reached(env, Assembled(s), p) && ClientIP(env, p.request) == ip && LimiterRuns.Within(p.request.now("ip"), a)
  }

  predicate Skipped(env: Env, s: Settings, r: Request) {
    s.skip && BearerSub(env, r) != ""
  }

  /** At most 2 * cap - 1 requests from one address reach the handler in any half-open interval of one window
      length, not counting identified callers where they are skipped. */
  lemma AddressBound(env: Env, s: Settings, w: World, run: seq<Event>, ip: string, a: int, cap: int, t: int)
    requires Possible(env, Assembled(s), State(w, []), run) && "ip" in w.limiters && cap >= 1
    requires Regular(env, Assembled(s), w, run, "ip", ip, a, cap, t)
    ensures Count(Final(env, Assembled(s), State(w, []), run).requests,
                  (p: Progress) => FromAddress(env, s, p, ip, a) && !Skipped(env, s, p.request))
         <= 2 * cap - 1
  {
    var counted := (p: Progress) => FromAddress(env, s, p, ip, a) && !Skipped(env, s, p.request);
    var through := (p: Progress) => Through(env, Assembled(s), p, "ip", ip, a);
    forall p | counted(p) ensures through(p) { AssembledCharges(env, p.request, s); }
    CountAtMost(Final(env, Assembled(s), State(w, []), run).requests, counted, through);
    KeyBound(env, Assembled(s), w, run, "ip", ip, a, cap, t);
  }

  function SubjectKey(env: Env, s: Settings, r: Request): string {
    WithIP(env, r, s.jwtIP, "s:" + BearerSub(env, r))
  }

  predicate OfSubject(env: Env, s: Settings, p: Progress, key: string, a: int) {
    && Reached(env, Assembled(s), p) && LimiterRuns.Within(p.request.now("jwt"), a)
    && BearerSub(env, p.request) != "" && SubjectKey(env, s, p.request) == key
  }

  /** The same for the requests of one subject and the token limiter, whether or not identified callers
      are skipped by the other one. */
  lemma SubjectBound(env: Env, s: Settings, w: World, run: seq<Event>, key: string, a: int, cap: int, t: int)
    requires Possible(env, Assembled(s), State(w, []), run) && "jwt" in w.limiters && cap >= 1
    requires Regular(env, Assembled(s), w, run, "jwt", key, a, cap, t)
    ensures Count(Final(env, Assembled(s), State(w, []), run).requests, (p: Progress) => OfSubject(env, s, p, key, a))
         <= 2 * cap - 1
  {
    var counted := (p: Progress) => OfSubject(env, s, p, key, a);
    var through := (p: Progress) => Through(env, Assembled(s), p, "jwt", key, a);
    forall p | counted(p) ensures through(p) { AssembledCharges(env, p.request, s); }
    CountAtMost(Final(env, Assembled(s), State(w, []), run).requests, counted, through);
    KeyBound(env, Assembled(s), w, run, "jwt", key, a, cap, t);
  }

  predicate OfApiKey(env: Env, s: Settings, p: Progress, key: string, a: int) {
    && Reached(env, Assembled(s), p) && LimiterRuns.Within(p.request.now("apikey"), a)
    && s.matcher && env.matches(p.request)
    && WithIP(env, p.request, s.keyIP, ApiKeyBucket(env, p.request, s.keyHeader)) == key
  }

  /** The same for the matching requests of one API key. */
  lemma ApiKeyBound(env: Env, s: Settings, w: World, run: seq<Event>, key: string, a: int, cap: int, t: int)
    requires Possible(env, Assembled(s), State(w, []), run) && "apikey" in w.limiters && cap >= 1
    requires Regular(env, Assembled(s), w, run, "apikey", key, a, cap, t)
    ensures Count(Final(env, Assembled(s), State(w, []), run).requests, (p: Progress) => OfApiKey(env, s, p, key, a))
         <= 2 * cap - 1
  {
    var counted := (p: Progress) => OfApiKey(env, s, p, key, a);
    var through := (p: Progress) => Through(env, Assembled(s), p, "apikey", key, a);
    forall p | counted(p) ensures through(p) { AssembledCharges(env, p.request, s); }
    CountAtMost(Final(env, Assembled(s), State(w, []), run).requests, counted, through);
    KeyBound(env, Assembled(s), w, run, "apikey", key, a, cap, t);
  }

  // ---------- A request on its own is served as the composed handler serves it ----------

  lemma {:induction false} RunsFollow(env: Env, layers: seq<Layer>, s: State, run: seq<Event>, more: seq<Event>)
    requires Possible(env, layers, s, run) && Possible(env, layers, Final(env, layers, s, run), more)
    ensures Possible(env, layers, s, run + more)
    ensures Final(env, layers, s, run + more) == Final(env, layers, Final(env, layers, s, run), more)
    decreases |run|
  {
    if run == [] {
      assert run + more == more;
    } else {
      assert (run + more)[1..] == run[1..] + more;
      RunsFollow(env, layers, Step(env, layers, s, run[0]), run[1..], more);
    }
  }

  lemma {:induction false} OwnFollows(env: Env, layers: seq<Layer>, s: State, run: seq<Event>, more: seq<Event>,
      name: string)
    requires Possible(env, layers, s, run) && Possible(env, layers, Final(env, layers, s, run), more)
    requires Possible(env, layers, s, run + more)
    ensures Own(env, layers, s, run + more, name)
         == Own(env, layers, s, run, name) + Own(env, layers, Final(env, layers, s, run), more, name)
    decreases |run|
  {
    if run == [] {
      assert run + more == more;
    } else {
      assert (run + more)[1..] == run[1..] + more;
      OwnFollows(env, layers, Step(env, layers, s, run[0]), run[1..], more, name);
    }
  }

  lemma RunsCompose(env: Env, layers: seq<Layer>, s: State, run: seq<Event>, more: seq<Event>, name: string)
    requires Possible(env, layers, s, run) && Possible(env, layers, Final(env, layers, s, run), more)
    ensures Possible(env, layers, s, run + more)
    ensures Final(env, layers, s, run + more) == Final(env, layers, Final(env, layers, s, run), more)
    ensures Own(env, layers, s, run + more, name)
         == Own(env, layers, s, run, name) + Own(env, layers, Final(env, layers, s, run), more, name)
  {
    RunsFollow(env, layers, s, run, more);
    OwnFollows(env, layers, s, run, more, name);
  }

  lemma {:induction false} PayOneMore(env: Env, w: World, charges: seq<Charge>, k: nat, r: Request)
    requires k < |charges|
    ensures PayAll(env, w, charges[..k + 1], r) == Pay(env, PayAll(env, w, charges[..k], r), charges[k], r).0
    decreases k
  {
    if k == 0 {
      assert charges[..1][1..] == [] && charges[..0] == [];
    } else {
      var rest := charges[1..];
      assert charges[..k + 1][1..] == rest[..k] && charges[..k][1..] == rest[..k - 1];
      PayOneMore(env, Pay(env, w, charges[0], r).0, rest, k - 1, r);
    }
  }

  function Proceeds(i: nat, n: nat): seq<Event> {
    if n == 0 then [] else [Proceed(i)] + Proceeds(i, n - 1)
  }

  predicate Uncharged(env: Env, layers: seq<Layer>, r: Request, name: string) {
    forall c :: c in Charges(env, layers, r) ==> !(c.Limit? && c.limiter == name)
  }

  /** One request makes its next `n` charges, all of which pass. */
  lemma {:induction false} PaysInTurn(env: Env, layers: seq<Layer>, s: State, i: nat, n: nat, name: string)
    requires i < |s.requests| && s.requests[i].refused.None?
    requires s.requests[i].passed + n <= |Charges(env, layers, s.requests[i].request)|
    requires var (p, charges) := (s.requests[i], Charges(env, layers, s.requests[i].request));
             AllPass(env, s.world, charges[p.passed..p.passed + n], p.request)
    ensures Possible(env, layers, s, Proceeds(i, n))
    ensures var (p, charges) := (s.requests[i], Charges(env, layers, s.requests[i].request));
            Final(env, layers, s, Proceeds(i, n))
            == State(PayAll(env, s.world, charges[p.passed..p.passed + n], p.request),
                     s.requests[i := p.(passed := p.passed + n)])
    ensures Uncharged(env, layers, s.requests[i].request, name) ==> Own(env, layers, s, Proceeds(i, n), name) == []
    decreases n
  {
    var p := s.requests[i];
    var charges := Charges(env, layers, p.request);
    if n == 0 {
      assert charges[p.passed..p.passed] == [];
    } else {
      var due := charges[p.passed..p.passed + n];
      assert due[0] == charges[p.passed] && due[1..] == charges[p.passed + 1..p.passed + n];
      var next := Step(env, layers, s, Proceed(i));
      assert Proceeds(i, n)[1..] == Proceeds(i, n - 1);
      assert charges[p.passed] in charges;
      PaysInTurn(env, layers, next, i, n - 1, name);
      assert next.requests[i := p.(passed := p.passed + n)] == s.requests[i := p.(passed := p.passed + n)];
    }
  }

  /** No charge is refused. */
  predicate Reaches(env: Env, layers: seq<Layer>, w: World, r: Request) {
    AllPass(env, w, Charges(env, layers, r), r)
  }

  lemma {:induction false} EachPasses(env: Env, w: World, charges: seq<Charge>, r: Request, k: nat)
    requires AllPass(env, w, charges, r) && k < |charges|
    ensures Pay(env, PayAll(env, w, charges[..k], r), charges[k], r).1.None?
    decreases k
  {
    if k == 0 {
      assert charges[..0] == [];
    } else {
      assert charges[..k][1..] == charges[1..][..k - 1];
      EachPasses(env, Pay(env, w, charges[0], r).0, charges[1..], r, k - 1);
    }
  }

  /** A request gets the handler's response if and only if no charge is refused. */
  lemma ReachesTheHandler(env: Env, layers: seq<Layer>, handler: Handler, w: World, r: Request)
    returns (n: nat, refused: Option<Response>)
    ensures var charges := Charges(env, layers, r);
            && StopsAfter(env, w, charges, r, n, refused)
            && (Reaches(env, layers, w, r) <==> refused.None?)
            && var paid := PayAll(env, w, charges[..n], r);
            && Wrapped(env, layers, handler)(w, r, false)
               == match refused
                  case None => handler(paid, r, Identified(env, layers, r, false))
                  case Some(response) => (paid, response)
  {
    n, refused := ChargesAPrefix(env, layers, handler, w, r, false);
    if refused.Some? && Reaches(env, layers, w, r) {
      EachPasses(env, w, Charges(env, layers, r), r, n - 1);
    }
  }

  lemma OneStep(env: Env, layers: seq<Layer>, s: State, e: Event, name: string)
    requires Enabled(env, layers, s, e)
    ensures Possible(env, layers, s, [e]) && Final(env, layers, s, [e]) == Step(env, layers, s, e)
    ensures Own(env, layers, s, [e], name) == OwnAt(env, layers, s, e, name)
  {
    assert [e][1..] == [];
  }

  /** A request that arrives and makes its first `n` charges, all of which pass. */
  lemma ArrivesAndPasses(env: Env, layers: seq<Layer>, s: State, r: Request, n: nat, name: string)
    returns (run: seq<Event>)
    requires n <= |Charges(env, layers, r)| && AllPass(env, s.world, Charges(env, layers, r)[..n], r)
    ensures Possible(env, layers, s, run)
    ensures Final(env, layers, s, run)
         == State(PayAll(env, s.world, Charges(env, layers, r)[..n], r), s.requests + [Progress(r, n, None)])
    ensures Uncharged(env, layers, r, name) ==> Own(env, layers, s, run, name) == []
  {
    var i, arrived := |s.requests|, Step(env, layers, s, Arrive(r));
    assert arrived.requests[i] == Progress(r, 0, None);
    assert Charges(env, layers, r)[0..0 + n] == Charges(env, layers, r)[..n];
    PaysInTurn(env, layers, arrived, i, n, name);
    assert arrived.requests[i := Progress(r, n, None)] == s.requests + [Progress(r, n, None)];
    OneStep(env, layers, s, Arrive(r), name);
    RunsCompose(env, layers, s, [Arrive(r)], Proceeds(i, n), name);
    run := [Arrive(r)] + Proceeds(i, n);
  }

  /** And then is refused. */
  lemma IsRefused(env: Env, layers: seq<Layer>, s: State, r: Request, n: nat, refused: Option<Response>, name: string)
    returns (run: seq<Event>)
    requires refused.Some? && StopsAfter(env, s.world, Charges(env, layers, r), r, n, refused)
    ensures Possible(env, layers, s, run)
    ensures Final(env, layers, s, run)
         == State(PayAll(env, s.world, Charges(env, layers, r)[..n], r), s.requests + [Progress(r, n - 1, refused)])
    ensures Uncharged(env, layers, r, name) ==> Own(env, layers, s, run, name) == []
  {
    var charges, e := Charges(env, layers, r), Proceed(|s.requests|);
    var before := ArrivesAndPasses(env, layers, s, r, n - 1, name);
    var paid := Final(env, layers, s, before);
    PayOneMore(env, s.world, charges, n - 1, r);
    OneStep(env, layers, paid, e, name);
    assert charges[n - 1] in charges;
    assert Step(env, layers, paid, e).requests == s.requests + [Progress(r, n - 1, refused)];
    RunsCompose(env, layers, s, before, [e], name);
    run := before + [e];
  }

  /** A request that is not interleaved with others: the steps of this model do to the world what the
      composed handler does to it before the innermost handler runs, and refuse when it refuses. */
  lemma ServedAlone(env: Env, layers: seq<Layer>, handler: Handler, s: State, r: Request, name: string)
    returns (run: seq<Event>, done: Progress)
    ensures Possible(env, layers, s, run) && done.request == r
    ensures Final(env, layers, s, run).requests == s.requests + [done]
    ensures var after := Final(env, layers, s, run).world;
            Wrapped(env, layers, handler)(s.world, r, false)
            == match done.refused
               case None => handler(after, r, Identified(env, layers, r, false))
               case Some(response) => (after, response)
    ensures Reaches(env, layers, s.world, r) <==> Reached(env, layers, done)
    ensures Uncharged(env, layers, r, name) ==> Own(env, layers, s, run, name) == []
  {
    var n, refused := ReachesTheHandler(env, layers, handler, s.world, r);
    if refused.None? {
      assert Charges(env, layers, r)[..n] == Charges(env, layers, r);
      run := ArrivesAndPasses(env, layers, s, r, n, name);
      done := Progress(r, n, None);
    } else {
      run := IsRefused(env, layers, s, r, n, refused, name);
      done := Progress(r, n - 1, refused);
    }
  }

  // ---------- The rules and the requests ----------

  /** What a step is to the table of rules. */
  function RuleOpsAt(env: Env, layers: seq<Layer>, s: State, e: Event): seq<RuleTable.Op>
    requires Enabled(env, layers, s, e)
  {
    match e
    case Proceed(i) =>
      var r := s.requests[i].request;
      if Charges(env, layers, r)[s.requests[i].passed].Rules?
      then [RuleTable.Check(r.host, r.path, r.now(""), Stop(env, s.world, r))] else []
    case Govern(op) => [op]
    case _ => []
  }

  /** The rule at which the check of a request stops. */
  function Stop(env: Env, w: World, r: Request): Option<string> {
    RuleTable.FirstIn(w.rules, r.order, r.host, r.path, r.now(""), env.glob)
  }

  ghost function RuleOps(env: Env, layers: seq<Layer>, s: State, run: seq<Event>): seq<RuleTable.Op>
    requires Possible(env, layers, s, run)
    decreases |run|
  {
    if run == [] then []
    else RuleOpsAt(env, layers, s, run[0]) + RuleOps(env, layers, Step(env, layers, s, run[0]), run[1..])
  }

  /** The step checks the rules for a request. */
  predicate Checks(env: Env, layers: seq<Layer>, s: State, e: Event)
    requires Enabled(env, layers, s, e)
  {
    e.Proceed? && Charges(env, layers, s.requests[e.i].request)[s.requests[e.i].passed].Rules?
  }

  /** Each check visits every rule of the table once. */
  ghost predicate Orderly(env: Env, layers: seq<Layer>, s: State, run: seq<Event>)
    requires Possible(env, layers, s, run)
    decreases |run|
  {
    run == [] ||
    (&& (Checks(env, layers, s, run[0]) ==>
           RuleTable.IterationOrder(s.world.rules, s.requests[run[0].i].request.order))
     && Orderly(env, layers, Step(env, layers, s, run[0]), run[1..]))
  }

  /** However the requests interleave, the table goes through the run of its own operations. */
  lemma {:induction false} TableRun(env: Env, layers: seq<Layer>, s: State, run: seq<Event>)
    requires Possible(env, layers, s, run) && Orderly(env, layers, s, run)
    ensures RuleTable.Possible(s.world.rules, RuleOps(env, layers, s, run), env.glob)
    ensures Final(env, layers, s, run).world.rules
         == RuleTable.Final(s.world.rules, RuleOps(env, layers, s, run), env.glob)
    ensures |RuleOps(env, layers, s, run)| <= |run|
    decreases |run|
  {
    if run != [] {
      var e, next := run[0], Step(env, layers, s, run[0]);
      TableStep(env, layers, s, e);
      TableRun(env, layers, next, run[1..]);
      var first, ops := RuleOpsAt(env, layers, s, e), RuleOps(env, layers, s, run);
      if first == [] {
        assert ops == RuleOps(env, layers, next, run[1..]);
      } else {
        assert ops[0] == first[0] && ops[1..] == RuleOps(env, layers, next, run[1..]);
      }
    }
  }

  lemma TableStep(env: Env, layers: seq<Layer>, s: State, e: Event)
    requires Enabled(env, layers, s, e)
    requires Checks(env, layers, s, e) ==> RuleTable.IterationOrder(s.world.rules, s.requests[e.i].request.order)
    ensures var ops, after := RuleOpsAt(env, layers, s, e), Step(env, layers, s, e).world.rules;
            && |ops| <= 1
            && if ops == [] then after == s.world.rules
               else RuleTable.Enabled(s.world.rules, ops[0], env.glob) && after == RuleTable.Step(s.world.rules, ops[0])
  {
    if Checks(env, layers, s, e) {
      var r := s.requests[e.i].request;
      RuleTable.EveryOrderIsAChoice(s.world.rules, r.order, r.host, r.path, r.now(""), env.glob);
    }
  }

  /** What the rules say decides whether a request goes on: barred, it is refused and told to come back in 60
      seconds; where the check stops at an allow rule or at none, it goes on. */
  lemma RuleDecides(env: Env, layers: seq<Layer>, s: State, e: Event)
    requires Enabled(env, layers, s, e) && Checks(env, layers, s, e)
    requires RuleTable.IterationOrder(s.world.rules, s.requests[e.i].request.order)
    ensures var (p, q) := (s.requests[e.i], Step(env, layers, s, e).requests[e.i]);
            var (rules, r, pick) := (s.world.rules, p.request, Stop(env, s.world, p.request));
            && (RuleTable.Barred(rules, r.host, r.path, r.now(""), env.glob) ==>
                  q == p.(refused := Some(RateLimited(60))))
            && (pick.Some? && rules[pick.value].rule.action == "block" ==> q == p.(refused := Some(RateLimited(60))))
            && (pick.None? || rules[pick.value].rule.action == "allow" ==> q == p.(passed := p.passed + 1))
            && ((forall id :: id in rules && rules[id].rule.targetHost == r.host ==>
                   rules[id].rule.expiresAt <= r.now("")) ==> q == p.(passed := p.passed + 1))
  {
    var r := s.requests[e.i].request;
    RuleTable.BarredAndFree(s.world.rules, r.order, r.host, r.path, r.now(""), env.glob);
  }

  /** A refused request stays refused. */
  lemma {:induction false} RefusedStays(env: Env, layers: seq<Layer>, s: State, run: seq<Event>, i: nat)
    requires Possible(env, layers, s, run) && i < |s.requests| && s.requests[i].refused.Some?
    ensures i < |Final(env, layers, s, run).requests| && Final(env, layers, s, run).requests[i] == s.requests[i]
    decreases |run|
  {
    if run != [] { RefusedStays(env, layers, Step(env, layers, s, run[0]), run[1..], i); }
  }

  /** Whenever the rules are checked for one of these requests, it is barred. */
  ghost predicate BarredThroughout(env: Env, layers: seq<Layer>, s: State, run: seq<Event>, who: Request -> bool)
    requires Possible(env, layers, s, run)
    decreases |run|
  {
    run == [] ||
    (&& (Checks(env, layers, s, run[0]) && who(s.requests[run[0].i].request) ==>
           var r := s.requests[run[0].i].request;
           RuleTable.Barred(s.world.rules, r.host, r.path, r.now(""), env.glob))
     && BarredThroughout(env, layers, Step(env, layers, s, run[0]), run[1..], who))
  }

  /** The request has not passed the rules. */
  predicate Unchecked(env: Env, layers: seq<Layer>, p: Progress) {
    p.passed <= |Charges(env, layers, p.request)| && Rules !in Charges(env, layers, p.request)[..p.passed]
  }

  lemma StepStaysUnchecked(env: Env, layers: seq<Layer>, s: State, e: Event, who: Request -> bool)
    requires Enabled(env, layers, s, e)
    requires Checks(env, layers, s, e) ==> RuleTable.IterationOrder(s.world.rules, s.requests[e.i].request.order)
    requires Checks(env, layers, s, e) && who(s.requests[e.i].request) ==>
               var r := s.requests[e.i].request;
               RuleTable.Barred(s.world.rules, r.host, r.path, r.now(""), env.glob)
    requires forall p :: p in s.requests && who(p.request) ==> Unchecked(env, layers, p)
    ensures forall p :: p in Step(env, layers, s, e).requests && who(p.request) ==> Unchecked(env, layers, p)
  {
    var next := Step(env, layers, s, e);
    if e.Proceed? {
      var p, q := s.requests[e.i], next.requests[e.i];
      var charges := Charges(env, layers, p.request);
      assert p in s.requests;
      if Checks(env, layers, s, e) { RuleDecides(env, layers, s, e); }
      assert charges[..p.passed + 1] == charges[..p.passed] + [charges[p.passed]];
      assert who(q.request) ==> Unchecked(env, layers, q);
      assert forall x :: x in next.requests ==> x in s.requests || x == q;
    }
  }

  lemma {:induction false} RunStaysUnchecked(env: Env, layers: seq<Layer>, s: State, run: seq<Event>,
      who: Request -> bool)
    requires Possible(env, layers, s, run) && Orderly(env, layers, s, run)
    requires BarredThroughout(env, layers, s, run, who)
    requires forall p :: p in s.requests && who(p.request) ==> Unchecked(env, layers, p)
    ensures forall p :: p in Final(env, layers, s, run).requests && who(p.request) ==> Unchecked(env, layers, p)
    decreases |run|
  {
    if run != [] {
      StepStaysUnchecked(env, layers, s, run[0], who);
      RunStaysUnchecked(env, layers, Step(env, layers, s, run[0]), run[1..], who);
    }
  }

  lemma FrontDemands(env: Env, r: Request, maxBody: int, admin: bool)
    ensures Demands(env, [Passive, BodyLimit(maxBody), Passive, Passive, RuleCheck(admin)], r, false)
         == (if maxBody > 0 then [Body(maxBody)] else []) + (if admin then [Rules] else [])
  {
    var last := [Passive, Passive, RuleCheck(admin)];
    assert last[1..] == [Passive, RuleCheck(admin)] && last[1..][1..] == [RuleCheck(admin)];
    assert [RuleCheck(admin)][1..] == [];
    assert Demands(env, [RuleCheck(admin)], r, false) == if admin then [Rules] else [];
    assert Demands(env, last[1..], r, false) == if admin then [Rules] else [];
    assert Demands(env, last, r, false) == if admin then [Rules] else [];
    var front := [Passive, BodyLimit(maxBody)] + last;
    assert front[1..] == [BodyLimit(maxBody)] + last && front[1..][1..] == last;
  }

  /** The rules are checked after the size and before every limiter. */
  lemma RulesComeFirst(env: Env, r: Request, s: Settings) returns (limits: seq<Charge>)
    ensures Charges(env, Assembled(s), r)
         == (if s.maxBody > 0 then [Body(s.maxBody)] else []) + (if s.admin then [Rules] else []) + limits
    ensures forall c :: c in limits ==> c.Limit?
  {
    var key, jwt := ApiKeyLimit(Some("apikey"), s.matcher, s.keyHeader, s.keyIP), JwtLimit(Some("jwt"), s.jwtIP);
    var first := [Passive, BodyLimit(s.maxBody), Passive, Passive, RuleCheck(s.admin)];
    var limiters := [key, jwt, IpLimit(Some("ip"), s.skip)];
    assert Assembled(s) == first + limiters;
    BeforeTheLimiters(env, first, limiters, r);
    LimiterDemands(env, r, key, jwt, s.skip);
    FrontDemands(env, r, s.maxBody, s.admin);
    limits := Demands(env, limiters, r, false);
  }

  /** With the administration on, no request that is barred whenever the rules are checked for it ever
      reaches the handler. */
  lemma BarredNeverReached(env: Env, s: Settings, w: World, run: seq<Event>, who: Request -> bool)
    requires s.admin && Possible(env, Assembled(s), State(w, []), run)
    requires Orderly(env, Assembled(s), State(w, []), run)
    requires BarredThroughout(env, Assembled(s), State(w, []), run, who)
    ensures forall p :: p in Final(env, Assembled(s), State(w, []), run).requests && who(p.request) ==>
              !Reached(env, Assembled(s), p)
  {
    RunStaysUnchecked(env, Assembled(s), State(w, []), run, who);
    forall p | p in Final(env, Assembled(s), State(w, []), run).requests && who(p.request)
      ensures !Reached(env, Assembled(s), p)
    {
      var limits := RulesComeFirst(env, p.request, s);
      var charges := Charges(env, Assembled(s), p.request);
      assert charges[..|charges|] == charges;
    }
  }

  /** The requests whose check stopped at throttle rule `id` and that reach the handler. */
  ghost function Throttled(env: Env, layers: seq<Layer>, s: State, run: seq<Event>, id: string): nat
    requires Possible(env, layers, s, run)
    decreases |run|
  {
    if run == [] then 0
    else
      var e, last := run[0], Final(env, layers, s, run).requests;
      var counts := && Checks(env, layers, s, e) && Stop(env, s.world, s.requests[e.i].request) == Some(id)
                    && s.world.rules[id].rule.action == "throttle"
                    && e.i < |last| && Reached(env, layers, last[e.i]);
      (if counts then 1 else 0) + Throttled(env, layers, Step(env, layers, s, e), run[1..], id)
  }

  lemma {:induction false} ThrottledAreAdmitted(env: Env, layers: seq<Layer>, s: State, run: seq<Event>, id: string)
    requires Possible(env, layers, s, run) && Orderly(env, layers, s, run)
    ensures RuleTable.Possible(s.world.rules, RuleOps(env, layers, s, run), env.glob)
    ensures Throttled(env, layers, s, run, id)
         <= RuleTable.Admitted(s.world.rules, RuleOps(env, layers, s, run), env.glob, id)
    decreases |run|
  {
    TableRun(env, layers, s, run);
    if run != [] {
      var e, next, rest := run[0], Step(env, layers, s, run[0]), run[1..];
      var first, ops := RuleOpsAt(env, layers, s, e), RuleOps(env, layers, s, run);
      TableStep(env, layers, s, e);
      ThrottledAreAdmitted(env, layers, next, rest, id);
      if first == [] {
        assert ops == RuleOps(env, layers, next, rest);
      } else {
        assert ops[0] == first[0] && ops[1..] == RuleOps(env, layers, next, rest);
        if e.Proceed? && next.requests[e.i].refused.Some? { RefusedStays(env, layers, next, rest, e.i); }
      }
    }
  }

  /** While rule `id` is only set to limits up to `cap`, of the requests whose check stops at it as a throttle
      rule at most n * cap reach the handler over n starts of its counter, and what was left of its limit. */
  lemma RuleBudget(env: Env, layers: seq<Layer>, w: World, run: seq<Event>, id: string, cap: nat)
    requires Possible(env, layers, State(w, []), run) && Orderly(env, layers, State(w, []), run)
    requires |run| <= RuleTable.MAX_INT64
    requires id in w.rules ==>
               && w.rules[id].rule.maxRPM <= cap
               && 0 <= w.rules[id].count && w.rules[id].count + |run| <= RuleTable.MAX_INT64
    requires forall e :: e in run && e.Govern? && e.op.Put? ==> RuleTable.Capped(e.op.rule, id, cap)
    ensures var ops := RuleOps(env, layers, State(w, []), run);
            Throttled(env, layers, State(w, []), run, id)
            <= RuleTable.Starts(ops, id) * cap + RuleTable.Remaining(w.rules, id, cap)
  {
    TableRun(env, layers, State(w, []), run);
    OnlyGovernedPuts(env, layers, State(w, []), run, id, cap);
    ThrottledAreAdmitted(env, layers, State(w, []), run, id);
    RuleTable.ThrottleBudget(w.rules, RuleOps(env, layers, State(w, []), run), env.glob, id, cap);
  }

  lemma {:induction false} OnlyGovernedPuts(env: Env, layers: seq<Layer>, s: State, run: seq<Event>, id: string,
      cap: nat)
    requires Possible(env, layers, s, run)
    requires forall e :: e in run && e.Govern? && e.op.Put? ==> RuleTable.Capped(e.op.rule, id, cap)
    ensures forall op :: op in RuleOps(env, layers, s, run) && op.Put? ==> RuleTable.Capped(op.rule, id, cap)
    decreases |run|
  {
    if run != [] {
      assert run[0] in run;
      OnlyGovernedPuts(env, layers, Step(env, layers, s, run[0]), run[1..], id, cap);
    }
  }

  lemma LastCharge(env: Env, w: World, c: Charge, r: Request)
    ensures AllPass(env, w, [c], r) <==> Pay(env, w, c, r).1.None?
    ensures PayAll(env, w, [c], r) == Pay(env, w, c, r).0
  {
    assert [c][1..] == [];
  }

  lemma FirstTwoPass(env: Env, w: World, charges: seq<Charge>, some: seq<Charge>, r: Request)
    requires some <= charges
    ensures AllPass(env, w, some, r) && |some| >= 1 ==> Pay(env, w, charges[0], r).1.None?
    ensures AllPass(env, w, some, r) && |some| >= 2 ==>
              Pay(env, Pay(env, w, charges[0], r).0, charges[1], r).1.None?
  {
    if some != [] {
      var after, rest := Pay(env, w, some[0], r).0, some[1..];
      assert some[0] == charges[0];
      assert AllPass(env, w, some, r) ==> AllPass(env, after, rest, r);
      if rest != [] {
        assert rest[0] == charges[1];
        assert AllPass(env, after, rest, r) ==> Pay(env, after, rest[0], r).1.None?;
      }
    }
  }

  lemma FirstRefuses(env: Env, w: World, charges: seq<Charge>, r: Request, n: nat, refused: Option<Response>)
    requires StopsAfter(env, w, charges, r, n, refused)
    requires charges != [] && Pay(env, w, charges[0], r).1.Some?
    ensures n == 1 && refused == Pay(env, w, charges[0], r).1
    ensures PayAll(env, w, charges[..n], r) == Pay(env, w, charges[0], r).0
  {
    FirstTwoPass(env, w, charges, charges, r);
    FirstTwoPass(env, w, charges, charges[..if n > 0 then n - 1 else 0], r);
    assert charges[..0] == [] && charges[..1] == [charges[0]] && [charges[0]][1..] == [];
  }

  lemma SecondRefuses(env: Env, w: World, charges: seq<Charge>, r: Request, n: nat, refused: Option<Response>)
    requires StopsAfter(env, w, charges, r, n, refused) && |charges| >= 2
    requires Pay(env, w, charges[0], r) == (w, None) && Pay(env, w, charges[1], r).1.Some?
    ensures n == 2 && refused == Pay(env, w, charges[1], r).1
    ensures PayAll(env, w, charges[..n], r) == Pay(env, w, charges[1], r).0
  {
    FirstTwoPass(env, w, charges, charges, r);
    FirstTwoPass(env, w, charges, charges[..if n > 0 then n - 1 else 0], r);
    LastCharge(env, w, charges[0], r);
    LastCharge(env, w, charges[1], r);
    assert charges[..0] == [] && charges[..1] == [charges[0]];
    var both := charges[..2];
    assert both[0] == charges[0] && both[1..] == [charges[1]];
    assert PayAll(env, w, both, r) == PayAll(env, w, [charges[1]], r);
    assert PayAll(env, w, charges[..0], r) == w == PayAll(env, w, charges[..1], r);
  }

  lemma TooLargeRefused(env: Env, s: Settings, handler: Handler, w: World, r: Request)
    requires s.maxBody > 0 && r.bodyLength > s.maxBody
    ensures Wrapped(env, Assembled(s), handler)(w, r, false) == (w, TooLarge)
  {
    var limits := RulesComeFirst(env, r, s);
    var n, refused := ReachesTheHandler(env, Assembled(s), handler, w, r);
    assert Charges(env, Assembled(s), r)[0] == Body(s.maxBody);
    FirstRefuses(env, w, Charges(env, Assembled(s), r), r, n, refused);
  }

  lemma BarredPays(env: Env, w: World, r: Request)
    requires RuleTable.IterationOrder(w.rules, r.order)
    requires RuleTable.Barred(w.rules, r.host, r.path, r.now(""), env.glob)
    ensures Pay(env, w, Rules, r) == (w, Some(RateLimited(60)))
  {
    RuleTable.BarredAndFree(w.rules, r.order, r.host, r.path, r.now(""), env.glob);
  }

  lemma BarredRefused(env: Env, s: Settings, handler: Handler, w: World, r: Request)
    requires s.admin && (s.maxBody > 0 ==> r.bodyLength <= s.maxBody)
    requires RuleTable.IterationOrder(w.rules, r.order)
    requires RuleTable.Barred(w.rules, r.host, r.path, r.now(""), env.glob)
    ensures Wrapped(env, Assembled(s), handler)(w, r, false) == (w, RateLimited(60))
  {
    var limits := RulesComeFirst(env, r, s);
    var charges := Charges(env, Assembled(s), r);
    var n, refused := ReachesTheHandler(env, Assembled(s), handler, w, r);
    BarredPays(env, w, r);
    if s.maxBody > 0 {
      assert charges[0] == Body(s.maxBody) && charges[1] == Rules;
      SecondRefuses(env, w, charges, r, n, refused);
    } else {
      assert charges[0] == Rules;
      FirstRefuses(env, w, charges, r, n, refused);
    }
  }

  /** A request that is too large is refused before anything is counted, and a barred one before any limiter
      counts it. */
  lemma RefusedEarly(env: Env, s: Settings, handler: Handler, w: World, r: Request)
    ensures s.maxBody > 0 && r.bodyLength > s.maxBody ==>
              Wrapped(env, Assembled(s), handler)(w, r, false) == (w, TooLarge)
    ensures !(s.maxBody > 0 && r.bodyLength > s.maxBody) && s.admin && RuleTable.IterationOrder(w.rules, r.order)
            && RuleTable.Barred(w.rules, r.host, r.path, r.now(""), env.glob) ==>
              Wrapped(env, Assembled(s), handler)(w, r, false) == (w, RateLimited(60))
  {
    if s.maxBody > 0 && r.bodyLength > s.maxBody {
      TooLargeRefused(env, s, handler, w, r);
    } else if s.admin && RuleTable.IterationOrder(w.rules, r.order) {
      if RuleTable.Barred(w.rules, r.host, r.path, r.now(""), env.glob) { BarredRefused(env, s, handler, w, r); }
    }
  }

  /** A limiter's refusal names the seconds after which the ban is over, rounded up. */
  lemma RefusalSaysWhen(env: Env, w: World, r: Request, name: string, key: string, t: int)
    requires name in w.limiters && Limiter.Valid(w.limiters[name], t) && t <= r.now(name)
    requires w.limiters[name].ban > -SECOND
    ensures var (after, refused) := Pay(env, w, Limit(name, key), r);
            && (refused.None? <==> Limiter.Allow(w.limiters[name], key, r.now(name)).1.allowed)
            && (refused.Some? ==>
                  && refused.value.RateLimited? && name in after.limiters && key in after.limiters[name].entries
                  && var end := after.limiters[name].entries[key].bannedUntil;
                     end <= r.now(name) + refused.value.retryAfter * SECOND < end + SECOND)
  {
    var (_, answer) := Limiter.Allow(w.limiters[name], key, r.now(name));
    if !answer.allowed { LimiterRuns.RetryHint(w.limiters[name], key, r.now(name), t); }
  }

  // ---------- Requests one after another that all reach the handler ----------

  predicate AllReach(env: Env, layers: seq<Layer>, w: World, rs: seq<Request>)
    decreases |rs|
  {
    rs == [] ||
    (&& Reaches(env, layers, w, rs[0])
     && AllReach(env, layers, PayAll(env, w, Charges(env, layers, rs[0]), rs[0]), rs[1..]))
  }

  function Done(env: Env, layers: seq<Layer>, rs: seq<Request>): seq<Progress> {
    if rs == [] then [] else [Progress(rs[0], |Charges(env, layers, rs[0])|, None)] + Done(env, layers, rs[1..])
  }

  lemma MoreDone(env: Env, layers: seq<Layer>, before: seq<Progress>, rs: seq<Request>)
    requires rs != []
    ensures before + Done(env, layers, rs) == before + Done(env, layers, [rs[0]]) + Done(env, layers, rs[1..])
  {
    assert [rs[0]][1..] == [];
  }

  lemma ServeOne(env: Env, layers: seq<Layer>, s: State, r: Request, name: string) returns (run: seq<Event>)
    requires Reaches(env, layers, s.world, r) && Uncharged(env, layers, r, name)
    ensures Possible(env, layers, s, run) && Own(env, layers, s, run, name) == []
    ensures Final(env, layers, s, run)
         == State(PayAll(env, s.world, Charges(env, layers, r), r), s.requests + Done(env, layers, [r]))
  {
    var charges := Charges(env, layers, r);
    assert charges[..|charges|] == charges;
    assert Done(env, layers, [r]) == [Progress(r, |charges|, None)] by { assert [r][1..] == []; }
    run := ArrivesAndPasses(env, layers, s, r, |charges|, name);
  }

  lemma {:induction false} ServeAll(env: Env, layers: seq<Layer>, s: State, rs: seq<Request>, name: string)
    returns (run: seq<Event>)
    requires AllReach(env, layers, s.world, rs)
    requires forall r :: r in rs ==> Uncharged(env, layers, r, name)
    ensures Possible(env, layers, s, run) && Own(env, layers, s, run, name) == []
    ensures Final(env, layers, s, run).requests == s.requests + Done(env, layers, rs)
    decreases |rs|
  {
    if rs == [] {
      run := [];
      assert s.requests + [] == s.requests;
    } else {
      assert rs[0] in rs;
      var first := ServeOne(env, layers, s, rs[0], name);
      var next := Final(env, layers, s, first);
      var rest := ServeAll(env, layers, next, rs[1..], name);
      RunsCompose(env, layers, s, first, rest, name);
      run := first + rest;
      MoreDone(env, layers, s.requests, rs);
    }
  }

  lemma {:induction false} AllCounted(env: Env, s: Settings, rs: seq<Request>, ip: string, a: int)
    requires forall r :: r in rs ==> ClientIP(env, r) == ip && LimiterRuns.Within(r.now("ip"), a)
    ensures |Done(env, Assembled(s), rs)| == |rs|
    ensures forall p :: p in Done(env, Assembled(s), rs) ==> FromAddress(env, s, p, ip, a)
  {
    if rs != [] {
      assert rs[0] in rs;
      AllCounted(env, s, rs[1..], ip, a);
    }
  }

  // ---------- Identified callers are not bounded by their address ----------

  /** Requests from one address in one window, each with a subject and a body that is not too large, where
      identified callers are skipped and neither rules nor API keys are limited. */
  ghost predicate Identifiable(env: Env, s: Settings, rs: seq<Request>, ip: string, a: int) {
    && !s.admin && !s.matcher
    && forall r :: r in rs ==>
         && ClientIP(env, r) == ip && LimiterRuns.Within(r.now("ip"), a) && BearerSub(env, r) != ""
         && (s.maxBody > 0 ==> r.bodyLength <= s.maxBody)
  }

  lemma LimiterCharges(env: Env, r: Request, s: Settings)
    requires s.skip && BearerSub(env, r) != "" && !s.matcher
    ensures var key := ApiKeyLimit(Some("apikey"), s.matcher, s.keyHeader, s.keyIP);
            Demands(env, [key, JwtLimit(Some("jwt"), s.jwtIP), IpLimit(Some("ip"), s.skip)], r, false)
            == [Limit("jwt", SubjectKey(env, s, r))]
  {
    var key, jwt := ApiKeyLimit(Some("apikey"), s.matcher, s.keyHeader, s.keyIP), JwtLimit(Some("jwt"), s.jwtIP);
    LimiterDemands(env, r, key, jwt, s.skip);
    assert Made(Demand(env, key, r, false)) == [];
    assert Made(Demand(env, jwt, r, false)) == [Limit("jwt", SubjectKey(env, s, r))];
  }

  /** All that such a request is charged is its size and its subject. */
  lemma SkippedCharges(env: Env, r: Request, s: Settings)
    requires s.skip && BearerSub(env, r) != "" && !s.admin && !s.matcher
    ensures Charges(env, Assembled(s), r)
         == Made(Demand(env, BodyLimit(s.maxBody), r, false)) + [Limit("jwt", SubjectKey(env, s, r))]
  {
    var key := ApiKeyLimit(Some("apikey"), s.matcher, s.keyHeader, s.keyIP);
    var first := [Passive, BodyLimit(s.maxBody), Passive, Passive, RuleCheck(s.admin)];
    var limiters := [key, JwtLimit(Some("jwt"), s.jwtIP), IpLimit(Some("ip"), s.skip)];
    assert Assembled(s) == first + limiters;
    BeforeTheLimiters(env, first, limiters, r);
    FrontDemands(env, r, s.maxBody, s.admin);
    LimiterCharges(env, r, s);
  }

  /** It reaches the handler if and only if the token limiter lets it through, and changes nothing else. */
  lemma SkippedReaches(env: Env, w: World, r: Request, s: Settings)
    requires s.skip && BearerSub(env, r) != "" && !s.admin && !s.matcher
             && (s.maxBody > 0 ==> r.bodyLength <= s.maxBody)
    ensures var charge := Limit("jwt", SubjectKey(env, s, r));
            && (Reaches(env, Assembled(s), w, r) <==> Pay(env, w, charge, r).1.None?)
            && PayAll(env, w, Charges(env, Assembled(s), r), r) == Pay(env, w, charge, r).0
  {
    var charge, charges := Limit("jwt", SubjectKey(env, s, r)), Charges(env, Assembled(s), r);
    SkippedCharges(env, r, s);
    LastCharge(env, w, charge, r);
    if s.maxBody > 0 {
      assert charges[0] == Body(s.maxBody) && charges[1..] == [charge];
      assert Pay(env, w, charges[0], r) == (w, None);
    } else {
      assert charges == [charge];
    }
  }

  /** The subjects are all different under the token limiter, and new to it. */
  ghost predicate Fresh(env: Env, s: Settings, w: World, rs: seq<Request>) {
    && (forall i, j :: 0 <= i < j < |rs| ==> SubjectKey(env, s, rs[i]) != SubjectKey(env, s, rs[j]))
    && (forall r :: r in rs ==>
          && r.now("jwt") >= Limiter.ZERO_TIME
          && ("jwt" in w.limiters ==> SubjectKey(env, s, r) !in w.limiters["jwt"].entries))
  }

  lemma NewKeyAllowed(l: Limiter.State, key: string, now: int)
    requires key !in l.entries && now >= Limiter.ZERO_TIME
    ensures Limiter.Allow(l, key, now).1.allowed
    ensures forall k :: k in Limiter.Allow(l, key, now).0.entries ==> k == key || k in l.entries
  {
  }

  lemma {:induction false} FreshAllReach(env: Env, s: Settings, w: World, rs: seq<Request>, ip: string, a: int)
    requires s.skip && Identifiable(env, s, rs, ip, a) && Fresh(env, s, w, rs)
    ensures AllReach(env, Assembled(s), w, rs)
    decreases |rs|
  {
    if rs != [] {
      var r, rest := rs[0], rs[1..];
      assert r in rs;
      SkippedReaches(env, w, r, s);
      if "jwt" in w.limiters { NewKeyAllowed(w.limiters["jwt"], SubjectKey(env, s, r), r.now("jwt")); }
      var next := PayAll(env, w, Charges(env, Assembled(s), r), r);
      forall q | q in rest
        ensures "jwt" in next.limiters ==> SubjectKey(env, s, q) !in next.limiters["jwt"].entries
      {
        var k :| 0 <= k < |rest| && rest[k] == q;
        assert rs[k + 1] == q && q in rs;
      }
      FreshAllReach(env, s, next, rest, ip, a);
    }
  }

  lemma {:induction false} OffAllReach(env: Env, s: Settings, w: World, rs: seq<Request>, ip: string, a: int)
    requires s.skip && Identifiable(env, s, rs, ip, a)
    requires "jwt" in w.limiters ==> !Limiter.Active(w.limiters["jwt"])
    ensures AllReach(env, Assembled(s), w, rs)
    decreases |rs|
  {
    if rs != [] {
      assert rs[0] in rs;
      SkippedReaches(env, w, rs[0], s);
      OffAllReach(env, s, PayAll(env, w, Charges(env, Assembled(s), rs[0]), rs[0]), rs[1..], ip, a);
    }
  }

  /** Where identified callers are skipped, any number of requests from one address reach the handler in one
      window, without a charge to the IP limiter, if their subjects are new to the token limiter, whatever
      its settings, or if the token limiter is off, whatever their subjects. */
  lemma IdentifiedAreUnbounded(env: Env, s: Settings, w: World, rs: seq<Request>, ip: string, a: int)
    returns (run: seq<Event>)
    requires s.skip && Identifiable(env, s, rs, ip, a)
    requires Fresh(env, s, w, rs) || ("jwt" in w.limiters ==> !Limiter.Active(w.limiters["jwt"]))
    ensures Possible(env, Assembled(s), State(w, []), run)
    ensures Own(env, Assembled(s), State(w, []), run, "ip") == []
    ensures Count(Final(env, Assembled(s), State(w, []), run).requests, (p: Progress) => FromAddress(env, s, p, ip, a))
         == |rs|
  {
    if Fresh(env, s, w, rs) { FreshAllReach(env, s, w, rs, ip, a); } else { OffAllReach(env, s, w, rs, ip, a); }
    forall r | r in rs ensures Uncharged(env, Assembled(s), r, "ip") { SkippedCharges(env, r, s); }
    run := ServeAll(env, Assembled(s), State(w, []), rs, "ip");
    var done := Done(env, Assembled(s), rs);
    assert [] + done == done;
    AllCounted(env, s, rs, ip, a);
    CountAll(done, (p: Progress) => FromAddress(env, s, p, ip, a));
  }

  /** The bound of `AddressBound` holds of all requests of the address, identified or not. */
  ghost predicate AllBounded(env: Env, s: Settings, w: World, ip: string, a: int, cap: int, t: int)
    requires "ip" in w.limiters
  {
    forall run ::
      Possible(env, Assembled(s), State(w, []), run) && Regular(env, Assembled(s), w, run, "ip", ip, a, cap, t) ==>
        Count(Final(env, Assembled(s), State(w, []), run).requests, (p: Progress) => FromAddress(env, s, p, ip, a))
        <= 2 * cap - 1
  }

  /** Where neither rules nor API keys are limited and enough new subjects exist, this is so if and only if
      identified callers are not skipped. */
  lemma BoundedExactly(env: Env, s: Settings, w: World, rs: seq<Request>, ip: string, a: int, cap: int, t: int)
    requires "ip" in w.limiters && Limiter.Valid(w.limiters["ip"], t) && cap >= 1
    requires Identifiable(env, s, rs, ip, a) && Fresh(env, s, w, rs) && |rs| >= 2 * cap
    ensures AllBounded(env, s, w, ip, a, cap, t) <==> !s.skip
  {
    var all := (p: Progress) => FromAddress(env, s, p, ip, a);
    if s.skip {
      var run := IdentifiedAreUnbounded(env, s, w, rs, ip, a);
      assert Regular(env, Assembled(s), w, run, "ip", ip, a, cap, t);
    } else {
      forall run | Possible(env, Assembled(s), State(w, []), run)
                   && Regular(env, Assembled(s), w, run, "ip", ip, a, cap, t)
        ensures Count(Final(env, Assembled(s), State(w, []), run).requests, all) <= 2 * cap - 1
      {
        var requests := Final(env, Assembled(s), State(w, []), run).requests;
        AddressBound(env, s, w, run, ip, a, cap, t);
        CountAtMost(requests, all, (p: Progress) => FromAddress(env, s, p, ip, a) && !Skipped(env, s, p.request));
      }
    }
  }
}
