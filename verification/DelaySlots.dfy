/**
 The delay-slot protocol of a limiter: refused requests take a token of the semaphore they saw, sleep,
 and give the token back to that semaphore, while the administrator changes the delay and replaces the
 semaphore. A step is one critical section or one channel operation, so a request may pick up a
 semaphore, be overtaken by a setter, and only then try to send.
 */
module DelaySlots {
  import opened Wrappers

  const DEFAULT_SLOTS: nat := 100

  datatype Semaphore = Semaphore(capacity: nat, tokens: nat)

  /** Semaphores are named by their index among those ever created. */
  datatype Phase = Chosen(sem: nat) | Holding(sem: nat) | Finished

  datatype State = State(delay: int, slots: int, current: Option<nat>, sems: seq<Semaphore>, requests: map<nat, Phase>)

  datatype Event =
    | Choose(r: nat)
    | Send(r: nat)
    | Release(r: nat)
    | SetDelay(delay: int)
    | SetSlots(slots: int)

  function New(delay: int, slots: int): State {
    var n := if slots <= 0 then DEFAULT_SLOTS else slots;
    if delay > 0 then State(delay, n, Some(0), [Semaphore(n, 0)], map[]) else State(delay, n, None, [], map[])
  }

  /** Whether the step can be taken. Only a receive has to wait, for a token. */
  predicate Enabled(s: State, e: Event) {
    match e
    case Choose(r) => r !in s.requests
    case Send(r) => r in s.requests && s.requests[r].Chosen? && s.requests[r].sem < |s.sems|
    case Release(r) => r in s.requests && s.requests[r].Holding? && s.requests[r].sem < |s.sems|
                       && s.sems[s.requests[r].sem].tokens > 0
    case SetDelay(_) => true
    case SetSlots(_) => true
  }

  function WithTokens(s: State, sem: nat, tokens: nat, r: nat, phase: Phase): State
    requires sem < |s.sems|
  {
    s.(sems := s.sems[sem := s.sems[sem].(tokens := tokens)], requests := s.requests[r := phase])
  }

  function Renewed(s: State, capacity: nat): State {
    s.(current := Some(|s.sems|), sems := s.sems + [Semaphore(capacity, 0)])
  }

  function Step(s: State, e: Event): State
    requires Enabled(s, e)
  {
    match e
    case Choose(r) =>
      s.(requests := s.requests[r := if s.current.None? then Finished else Chosen(s.current.value)])
    case Send(r) =>
      var sem := s.requests[r].sem;
      if s.sems[sem].tokens < s.sems[sem].capacity then
        WithTokens(s, sem, s.sems[sem].tokens + 1, r, Holding(sem))
      else
        s.(requests := s.requests[r := Finished])
    case Release(r) =>
      var sem := s.requests[r].sem;
      WithTokens(s, sem, s.sems[sem].tokens - 1, r, Finished)
    case SetDelay(delay) =>
      var t := s.(delay := delay);
      if delay > 0 && s.current.None? then Renewed(t, if s.slots <= 0 then DEFAULT_SLOTS else s.slots)
      else if delay == 0 then t.(current := None)
      else t
    case SetSlots(slots) =>
      var n := if slots <= 0 then DEFAULT_SLOTS else slots;
      var t := s.(slots := n);
      if s.current.Some? then Renewed(t, n) else t
  }

  /** Setters never wait, nor does a new request; a new number of slots comes with a fresh semaphore of that
      size if there was one, and a new delay with a fresh one if there was none, or with none if it is 0. */
  lemma SettersTakeEffect(s: State, delay: int, slots: int, r: nat)
    ensures Enabled(s, SetDelay(delay)) && Enabled(s, SetSlots(slots)) && (r !in s.requests ==> Enabled(s, Choose(r)))
    ensures var (t, n) := (Step(s, SetSlots(slots)), if slots > 0 then slots else 100);
            && t.delay == s.delay && t.slots == n && t.requests == s.requests
            && (if s.current.Some? then t.current == Some(|s.sems|) && t.sems == s.sems + [Semaphore(n, 0)]
                else t.current == None && t.sems == s.sems)
    ensures s.slots > 0 ==>
              var t := Step(s, SetDelay(delay));
              && t.delay == delay && t.slots == s.slots && t.requests == s.requests
              && (if delay > 0 && s.current == None
                  then t.current == Some(|s.sems|) && t.sems == s.sems + [Semaphore(s.slots, 0)]
                  else t.current == (if delay == 0 then None else s.current) && t.sems == s.sems)
  {
  }

  ghost predicate Possible(s: State, run: seq<Event>)
    decreases |run|
  {
    run == [] || (Enabled(s, run[0]) && Possible(Step(s, run[0]), run[1..]))
  }

  ghost function Final(s: State, run: seq<Event>): State
    requires Possible(s, run)
    decreases |run|
  {
    if run == [] then s else Final(Step(s, run[0]), run[1..])
  }

  function Holders(s: State, sem: nat): set<nat> {
    set r | r in s.requests && s.requests[r] == Holding(sem)
  }

  /** Every semaphore ever created holds as many tokens as there are requests holding it, within its
      capacity; the current one has the configured capacity. */
  ghost predicate Balanced(s: State) {
    && s.slots > 0
    && (forall sem :: 0 <= sem < |s.sems| ==> |Holders(s, sem)| == s.sems[sem].tokens <= s.sems[sem].capacity)
    && (forall r :: r in s.requests && !s.requests[r].Finished? ==> s.requests[r].sem < |s.sems|)
    && (s.current.Some? ==> s.current.value < |s.sems| && s.sems[s.current.value].capacity == s.slots)
  }

  /** Slots exist exactly while there is a delay. */
  predicate Consistent(s: State) {
    s.current.Some? <==> s.delay > 0
  }

  lemma HoldersOf(s: State, t: State, r: nat, sem: nat)
    requires t.requests.Keys == s.requests.Keys + {r}
    requires forall q :: q in s.requests && q != r ==> t.requests[q] == s.requests[q]
    ensures |Holders(t, sem)| == |Holders(s, sem)| + (if t.requests[r] == Holding(sem) then 1 else 0)
                               - (if r in s.requests && s.requests[r] == Holding(sem) then 1 else 0)
  {
    var others := Holders(s, sem) - {r};
    assert Holders(s, sem) == if r in Holders(s, sem) then others + {r} else others;
    assert Holders(t, sem) == if r in Holders(t, sem) then others + {r} else others;
  }

  lemma RequestKeepsBalance(s: State, e: Event)
    requires Balanced(s) && Enabled(s, e) && (e.Choose? || e.Send? || e.Release?)
    ensures Balanced(Step(s, e))
  {
    var t := Step(s, e);
    forall sem | 0 <= sem < |t.sems|
      ensures |Holders(t, sem)| == t.sems[sem].tokens <= t.sems[sem].capacity
    {
      HoldersOf(s, t, e.r, sem);
      assert |Holders(s, sem)| == s.sems[sem].tokens <= s.sems[sem].capacity;
    }
  }

  lemma StepKeepsBalance(s: State, e: Event)
    requires Balanced(s) && Enabled(s, e)
    ensures Balanced(Step(s, e))
  {
    if e.SetDelay? || e.SetSlots? {
      var t := Step(s, e);
      forall sem | 0 <= sem < |t.sems|
        ensures |Holders(t, sem)| == t.sems[sem].tokens <= t.sems[sem].capacity
      {
        assert Holders(t, sem) == Holders(s, sem);
        if sem == |s.sems| { assert Holders(s, sem) == {}; }
      }
    } else {
      RequestKeepsBalance(s, e);
    }
  }

  lemma {:induction false} RunKeepsBalance(s: State, run: seq<Event>)
    requires Balanced(s) && Possible(s, run)
    ensures Balanced(Final(s, run))
    decreases |run|
  {
    if run != [] {
      StepKeepsBalance(s, run[0]);
      RunKeepsBalance(Step(s, run[0]), run[1..]);
    }
  }

  lemma NewIsBalanced(delay: int, slots: int)
    ensures Balanced(New(delay, slots)) && Consistent(New(delay, slots))
  {
    forall sem | 0 <= sem < |New(delay, slots).sems| ensures Holders(New(delay, slots), sem) == {} {}
  }

  /** Tokens and holders agree in every interleaving, whatever the settings are changed to. */
  lemma SlotsAreAccounted(delay: int, slots: int, run: seq<Event>)
    requires Possible(New(delay, slots), run)
    ensures Balanced(Final(New(delay, slots), run))
  {
    NewIsBalanced(delay, slots);
    RunKeepsBalance(New(delay, slots), run);
  }

  /** No request is ever stuck: a holder always finds a token to take back, and a request that picked
      up a semaphore can always go on. */
  lemma ReleaseNeverWaits(delay: int, slots: int, run: seq<Event>, r: nat)
    requires Possible(New(delay, slots), run)
    requires r in Final(New(delay, slots), run).requests
    ensures var s := Final(New(delay, slots), run);
            match s.requests[r]
            case Holding(_) => Enabled(s, Release(r))
            case Chosen(_) => Enabled(s, Send(r))
            case Finished => true
  {
    SlotsAreAccounted(delay, slots, run);
    var s := Final(New(delay, slots), run);
    if s.requests[r].Holding? {
      assert r in Holders(s, s.requests[r].sem);
    }
  }

  /** Nothing leaks: when all requests are done, every semaphore, current or replaced, is empty. */
  lemma SlotsAllReturned(delay: int, slots: int, run: seq<Event>)
    requires Possible(New(delay, slots), run)
    requires forall r :: r in Final(New(delay, slots), run).requests ==>
             Final(New(delay, slots), run).requests[r].Finished?
    ensures forall sem :: 0 <= sem < |Final(New(delay, slots), run).sems| ==>
            Final(New(delay, slots), run).sems[sem].tokens == 0
  {
    SlotsAreAccounted(delay, slots, run);
    var s := Final(New(delay, slots), run);
    forall sem | 0 <= sem < |s.sems| ensures s.sems[sem].tokens == 0 {
      assert Holders(s, sem) == {};
    }
  }

  /** A step breaks "slots exist exactly while there is a delay" only by setting a negative delay
      while slots exist. */
  lemma ConsistentStep(s: State, e: Event)
    requires Enabled(s, e) && Consistent(s)
    ensures Consistent(Step(s, e)) <==> (e.SetDelay? && e.delay < 0 ==> s.current.None?)
  {
  }

  lemma {:induction false} DelayMeansSlots(s: State, run: seq<Event>)
    requires Possible(s, run) && Consistent(s)
    requires forall e :: e in run && e.SetDelay? ==> e.delay >= 0
    ensures Consistent(Final(s, run))
    decreases |run|
  {
    if run != [] {
      assert run[0] in run;
      ConsistentStep(s, run[0]);
      DelayMeansSlots(Step(s, run[0]), run[1..]);
    }
  }

  /** Two semaphores in use at once: a holder of the replaced one gives its token back to that one. */
  lemma ReplacedWhileHeld()
    ensures var run := [Choose(0), Send(0), SetSlots(2), Choose(1), Send(1), Release(0)];
            && Possible(New(5, 1), run)
            && Final(New(5, 1), run).sems == [Semaphore(1, 0), Semaphore(2, 1)]
  {
    var s0 := New(5, 1);
    var s1 := Step(s0, Choose(0));
    var s2 := Step(s1, Send(0));
    var s3 := Step(s2, SetSlots(2));
    var s4 := Step(s3, Choose(1));
    var s5 := Step(s4, Send(1));
    var s6 := Step(s5, Release(0));
    var run := [Choose(0), Send(0), SetSlots(2), Choose(1), Send(1), Release(0)];
    assert run[1..][1..][1..] == [Choose(1), Send(1), Release(0)];
    assert run[1..][1..][1..][1..][1..] == [Release(0)];
    assert Possible(s5, [Release(0)]) && Final(s5, [Release(0)]) == s6;
    assert s6.sems == [Semaphore(1, 0), Semaphore(2, 1)];
  }
}
