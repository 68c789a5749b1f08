/** `embed_stream` as a step system: the main thread spawns workers and marks empty ones done; workers compute
    without the lock, then publish under it, and whoever holds the lock drains the ready prefix in order.
    Setting done[w] is one atomic step; the original's main thread writes its vector<bool> without the lock. */
module EmbedStream {
  import opened Sequences
  import opened EmbeddingPool
  import opened Status

  /** Where a worker thread is. `Ready` holds the subset it computed; `Checking` and `Draining` hold the lock:
      about to test the drain guard, or j callbacks into partial[next]. */
  datatype Pc = Unborn | Computing | Ready(subset: seq<Vec>) | Checking | Draining(j: nat) | Finished

  datatype State = State(
    main: nat,              // next worker the main loop looks at; workers + 1 once all threads are joined
    done: seq<bool>,
    partials: seq<seq<Vec>>,
    next: nat,              // next_to_yield
    pcs: seq<Pc>,
    holder: Option<nat>,    // who holds the mutex
    delivered: seq<Vec>)    // the callbacks made so far

  datatype Action = Main | Join | Compute(w: nat) | Acquire(w: nat) | Guard(w: nat) | Deliver(w: nat)

  function Init(c: Config): State {
    State(0, seq(c.workers, _ => false), seq(c.workers, _ => []), 0, seq(c.workers, _ => Unborn), None, [])
  }

  ghost predicate Sized(c: Config, s: State) {
    |s.done| == |s.partials| == |s.pcs| == c.workers
  }

  predicate IsOver(pc: Pc) { pc.Unborn? || pc.Finished? }

  ghost predicate Enabled(c: Config, s: State, a: Action)
    requires Valid(c) && Sized(c, s)
  {
    match a
    case Main => s.main < c.workers
    case Join => s.main == c.workers && forall w :: 0 <= w < c.workers ==> IsOver(s.pcs[w])
    case Compute(w) => w < c.workers && s.pcs[w].Computing?
    case Acquire(w) => w < c.workers && s.pcs[w].Ready? && s.holder.None?
    case Guard(w) => w < c.workers && s.pcs[w].Checking?
    case Deliver(w) => w < c.workers && s.pcs[w].Draining? && s.next < c.workers
  }

  function Step(c: Config, s: State, a: Action): State
    requires Valid(c) && Sized(c, s) && Enabled(c, s, a)
  {
    match a
    case Main =>
      if IsEmpty(c, s.main) then s.(done := s.done[s.main := true], main := s.main + 1)
      else s.(pcs := s.pcs[s.main := Computing], main := s.main + 1)
    case Join => s.(main := s.main + 1)
    case Compute(w) => s.(pcs := s.pcs[w := Ready(Subset(c, w))])
    case Acquire(w) =>
      s.(partials := s.partials[w := s.pcs[w].subset], done := s.done[w := true],
         pcs := s.pcs[w := Checking], holder := Some(w))
    case Guard(w) =>
      if s.next < c.workers && s.done[s.next] then s.(pcs := s.pcs[w := Draining(0)])
      else s.(pcs := s.pcs[w := Finished], holder := None)
    case Deliver(w) =>
      var j := s.pcs[w].j;
      if j < |s.partials[s.next]|
      then s.(delivered := s.delivered + [s.partials[s.next][j]], pcs := s.pcs[w := Draining(j + 1)])
      else s.(next := s.next + 1, pcs := s.pcs[w := Checking])
  }

  // ----- the invariant -----

  predicate HoldsLock(pc: Pc) { pc.Checking? || pc.Draining? }

  ghost predicate WorkerInv(c: Config, s: State, w: nat)
    requires Valid(c) && Sized(c, s) && w < c.workers
  {
    && (w >= s.main ==> s.pcs[w].Unborn? && !s.done[w])
    && (w < s.main && IsEmpty(c, w) ==> s.pcs[w].Unborn? && s.done[w])
    && (w < s.main && !IsEmpty(c, w) ==>
         !s.pcs[w].Unborn? && (s.done[w] <==> HoldsLock(s.pcs[w]) || s.pcs[w].Finished?))
    && (s.pcs[w].Ready? ==> s.pcs[w].subset == Subset(c, w))
    && s.partials[w] == (if s.done[w] then Subset(c, w) else [])
    && (HoldsLock(s.pcs[w]) <==> s.holder == Some(w))
  }

  /** The callbacks made so far: whole subsets of workers 0..next-1, then the part of the one being drained. */
  ghost predicate DeliveredInv(c: Config, s: State)
    requires Valid(c) && Sized(c, s)
  {
    && s.next <= c.workers
    && (forall w :: 0 <= w < s.next ==> s.done[w])
    && (s.holder.Some? ==> s.holder.value < c.workers)
    && if s.holder.Some? && s.pcs[s.holder.value].Draining? then
         var j := s.pcs[s.holder.value].j;
         && s.next < c.workers && s.done[s.next] && j <= |Subset(c, s.next)|
         && s.delivered == InOrder(c, s.next) + Subset(c, s.next)[..j]
       else s.delivered == InOrder(c, s.next)
  }

  /** With the lock free nothing deliverable is left behind. */
  ghost predicate NothingStranded(c: Config, s: State)
    requires Valid(c) && Sized(c, s)
  {
    s.holder.None? && s.next < c.workers && !IsEmpty(c, s.next) ==> !s.done[s.next]
  }

  ghost predicate Inv(c: Config, s: State) {
    && Valid(c) && Sized(c, s) && s.main <= c.workers + 1
    && (forall w :: 0 <= w < c.workers ==> WorkerInv(c, s, w))
    && DeliveredInv(c, s)
    && NothingStranded(c, s)
    && (s.main == c.workers + 1 ==> forall w :: 0 <= w < c.workers ==> IsOver(s.pcs[w]))
  }

  lemma InitInv(c: Config)
    requires Valid(c)
    ensures Inv(c, Init(c))
  {
  }

  lemma EmptySubset(c: Config, w: nat)
    requires Valid(c) && IsEmpty(c, w)
    ensures Subset(c, w) == []
  {
  }

  lemma {:induction false} StepWorkers(c: Config, s: State, a: Action, v: nat)
    requires Inv(c, s) && Enabled(c, s, a) && v < c.workers
    ensures WorkerInv(c, Step(c, s, a), v)
  {
    hide SubsetFrom, Start, End, DeliveredInv, NothingStranded;
    assert WorkerInv(c, s, v);
    match a
    case Main => if IsEmpty(c, s.main) { EmptySubset(c, s.main); }
    case Join =>
    case Compute(w) => assert WorkerInv(c, s, w);
    case Acquire(w) => assert WorkerInv(c, s, w);
    case Guard(w) => assert WorkerInv(c, s, w);
    case Deliver(w) => assert WorkerInv(c, s, w);
  }

  lemma {:induction false} StepDelivered(c: Config, s: State, a: Action)
    requires Inv(c, s) && Enabled(c, s, a)
    ensures DeliveredInv(c, Step(c, s, a))
  {
    hide SubsetFrom, Start, End, NothingStranded;
    match a
    case Main => assert WorkerInv(c, s, s.main);
    case Join =>
    case Compute(w) => assert WorkerInv(c, s, w);
    case Acquire(w) => assert WorkerInv(c, s, w);
    case Guard(w) =>
      assert WorkerInv(c, s, w);
      assert s.next < c.workers ==> Subset(c, s.next)[..0] == [];
    case Deliver(w) =>
      assert WorkerInv(c, s, w) && WorkerInv(c, s, s.next);
      var j, subset := s.pcs[w].j, Subset(c, s.next);
      assert j < |subset| ==> subset[..j + 1] == subset[..j] + [subset[j]];
      assert subset[..|subset|] == subset;
  }

  /** Every step of every thread keeps the invariant. */
  lemma {:induction false} StepInv(c: Config, s: State, a: Action)
    requires Inv(c, s) && Enabled(c, s, a)
    ensures Inv(c, Step(c, s, a))
  {
    forall v | 0 <= v < c.workers ensures WorkerInv(c, Step(c, s, a), v) {
      StepWorkers(c, s, a, v);
    }
    StepDelivered(c, s, a);
    StepStrandsNothing(c, s, a);
    StepShape(c, s, a);
    hide Step, Enabled, Sized, DeliveredInv, WorkerInv, NothingStranded, SubsetFrom, Start, End;
  }

  lemma {:induction false} StepShape(c: Config, s: State, a: Action)
    requires Inv(c, s) && Enabled(c, s, a)
    ensures Sized(c, Step(c, s, a)) && Step(c, s, a).main <= c.workers + 1
    ensures Step(c, s, a).main == c.workers + 1 ==> forall w :: 0 <= w < c.workers ==> IsOver(Step(c, s, a).pcs[w])
  {
    hide DeliveredInv, NothingStranded, WorkerInv, SubsetFrom, Start, End;
  }

  lemma {:induction false} StepStrandsNothing(c: Config, s: State, a: Action)
    requires Inv(c, s) && Enabled(c, s, a)
    ensures NothingStranded(c, Step(c, s, a))
  {
    hide DeliveredInv, SubsetFrom, Start, End;
    match a
    case Main => assert WorkerInv(c, s, s.main);
    case Join =>
    case Compute(w) =>
    case Acquire(w) =>
    case Guard(w) =>
    case Deliver(w) => assert WorkerInv(c, s, w);
  }

  // ----- runs -----

  /** A run: the states visited from the initial one, and the action taken between each two. */
  ghost predicate IsRun(c: Config, states: seq<State>, actions: seq<Action>) {
    && Valid(c) && |states| == |actions| + 1 && states[0] == Init(c)
    && forall i :: 0 <= i < |actions| ==>
         Sized(c, states[i]) && Enabled(c, states[i], actions[i]) && states[i + 1] == Step(c, states[i], actions[i])
  }

  lemma {:induction false} RunInv(c: Config, states: seq<State>, actions: seq<Action>, i: nat)
    requires IsRun(c, states, actions) && i < |states|
    ensures Inv(c, states[i])
  {
    if i == 0 {
      InitInv(c);
    } else {
      RunInv(c, states, actions, i - 1);
      StepInv(c, states[i - 1], actions[i - 1]);
    }
  }

  lemma {:induction false} InOrderPrefix(c: Config, m: nat, n: nat)
    requires Valid(c) && m <= n
    ensures InOrder(c, m) <= InOrder(c, n)
  {
    if m < n {
      InOrderPrefix(c, m, n - 1);
    }
  }

  lemma {:induction false} DeliveredIsPrefix(c: Config, s: State)
    requires Inv(c, s)
    ensures s.delivered <= InOrder(c, c.workers)
  {
    hide SubsetFrom, Start, End, WorkerInv, NothingStranded;
    InOrderPrefix(c, s.next, c.workers);
    if s.next < c.workers {
      InOrderPrefix(c, s.next + 1, c.workers);
      assert s.delivered <= InOrder(c, s.next + 1);
    }
  }

  /** Safety in every interleaving: at all times the callbacks made are a prefix, in text order, of what the
      sequential `embed` returns. */
  lemma {:induction false} DeliveredInTextOrder(c: Config, states: seq<State>, actions: seq<Action>, i: nat)
    requires IsRun(c, states, actions) && i < |states|
    ensures states[i].delivered <= InOrder(c, c.workers)
  {
    RunInv(c, states, actions, i);
    DeliveredIsPrefix(c, states[i]);
  }

  lemma {:induction false} OverHoldsNoLock(c: Config, s: State, w: nat)
    requires Inv(c, s) && w < c.workers && IsOver(s.pcs[w])
    ensures s.holder != Some(w)
  {
    assert WorkerInv(c, s, w);
  }

  /** Once all threads are joined every subset has been delivered exactly once, in order, trailing empty workers
      included: the callbacks are exactly the result of `embed`. */
  lemma {:induction false} JoinedMeansDelivered(c: Config, s: State)
    requires Inv(c, s) && s.main == c.workers + 1
    ensures s.delivered == InOrder(c, c.workers)
  {
    hide SubsetFrom, Start, End;
    if s.holder.Some? {
      OverHoldsNoLock(c, s, s.holder.value);
      assert false;
    } else if s.next < c.workers {
      assert WorkerInv(c, s, s.next);
      EmptySuffix(c, s.next, c.workers);
    }
  }

  /** No deadlock: until the threads are joined, some thread can move. */
  lemma {:induction false} SomeThreadCanMove(c: Config, s: State) returns (a: Action)
    requires Inv(c, s) && s.main <= c.workers
    ensures Enabled(c, s, a)
  {
    if s.main < c.workers {
      a := Main;
    } else if s.holder.Some? {
      var h := s.holder.value;
      assert WorkerInv(c, s, h);
      a := if s.pcs[h].Checking? then Guard(h) else Deliver(h);
    } else if w: nat :| w < c.workers && !IsOver(s.pcs[w]) {
      assert WorkerInv(c, s, w);
      a := if s.pcs[w].Computing? then Compute(w) else Acquire(w);
    } else {
      a := Join;
    }
  }

  // ----- termination -----

  function Stage(pc: Pc): nat {
    match pc
    case Unborn => 5
    case Computing => 4
    case Ready(_) => 3
    case Checking => 2
    case Draining(_) => 1
    case Finished => 0
  }

  function Stages(pcs: seq<Pc>): nat {
    if pcs == [] then 0 else Stages(pcs[..|pcs| - 1]) + Stage(pcs[|pcs| - 1])
  }

  lemma {:induction false} StagesUpdate(pcs: seq<Pc>, w: nat, pc: Pc)
    requires w < |pcs|
    ensures Stages(pcs[w := pc]) == Stages(pcs) - Stage(pcs[w]) + Stage(pc)
  {
    var n := |pcs| - 1;
    if w < n {
      assert pcs[w := pc][..n] == pcs[..n][w := pc];
      StagesUpdate(pcs[..n], w, pc);
    } else {
      assert pcs[w := pc][..n] == pcs[..n];
    }
  }

  /** Steps that remain at most: main loop iterations, thread stages, drain rounds, callbacks. */
  ghost function Remaining(c: Config, s: State): int
    requires Valid(c)
  {
    (c.workers + 1 - s.main) + Stages(s.pcs) + 2 * (c.workers - s.next) + (|InOrder(c, c.workers)| - |s.delivered|)
  }

  lemma {:induction false} RemainingNonNegative(c: Config, s: State)
    requires Inv(c, s)
    ensures Remaining(c, s) >= 0
  {
    DeliveredIsPrefix(c, s);
    assert s.next <= c.workers && |s.delivered| <= |InOrder(c, c.workers)|;
  }

  lemma {:induction false} StepDecreases(c: Config, s: State, a: Action)
    requires Inv(c, s) && Enabled(c, s, a)
    ensures Remaining(c, Step(c, s, a)) < Remaining(c, s)
  {
    hide SubsetFrom, Start, End, InOrder, Stages, DeliveredInv;
    var s' := Step(c, s, a);
    match a
    case Main =>
      assert WorkerInv(c, s, s.main);
      StagesUpdate(s.pcs, s.main, Computing);
    case Join =>
    case Compute(w) => StagesUpdate(s.pcs, w, s'.pcs[w]);
    case Acquire(w) => StagesUpdate(s.pcs, w, s'.pcs[w]);
    case Guard(w) => StagesUpdate(s.pcs, w, s'.pcs[w]);
    case Deliver(w) => StagesUpdate(s.pcs, w, s'.pcs[w]);
  }

  lemma {:induction false} RunShrinks(c: Config, states: seq<State>, actions: seq<Action>, i: nat)
    requires IsRun(c, states, actions) && i < |states|
    ensures Remaining(c, states[i]) + i <= Remaining(c, Init(c))
  {
    hide Inv, Remaining;
    if i > 0 {
      RunShrinks(c, states, actions, i - 1);
      RunInv(c, states, actions, i - 1);
      StepDecreases(c, states[i - 1], actions[i - 1]);
    }
  }

  lemma {:induction false} InitStages(n: nat)
    ensures Stages(seq(n, _ => Unborn)) == 5 * n
  {
    if n > 0 {
      InitStages(n - 1);
      assert seq(n, _ => Unborn)[..n - 1] == seq(n - 1, _ => Unborn);
    }
  }

  /** Liveness without fairness assumptions: every run is bounded, and a run that cannot be extended has joined
      all threads and delivered exactly the sequential result. */
  lemma {:induction false} EveryRunCompletes(c: Config, states: seq<State>, actions: seq<Action>)
    requires IsRun(c, states, actions)
    ensures |actions| <= 8 * c.workers + 1 + |InOrder(c, c.workers)|
    ensures var last := states[|actions|];
      Inv(c, last) && ((forall a :: !Enabled(c, last, a)) ==> last.delivered == InOrder(c, c.workers))
  {
    var last := states[|actions|];
    RunInv(c, states, actions, |actions|);
    RunShrinks(c, states, actions, |actions|);
    RemainingNonNegative(c, last);
    InitStages(c.workers);
    if last.main <= c.workers {
      var a := SomeThreadCanMove(c, last);
    } else {
      JoinedMeansDelivered(c, last);
    }
  }

  /** With a backend that never fails, a finished stream has called back f of every text, in order, once. */
  lemma {:induction false} StreamIsMap(c: Config, f: string -> Vec, states: seq<State>, actions: seq<Action>)
    requires IsRun(c, states, actions) && EmbedsWith(c.backend, f) && NeverFails(c)
    requires states[|actions|].main == c.workers + 1
    ensures states[|actions|].delivered == Map(f, c.texts)
  {
    RunInv(c, states, actions, |actions|);
    JoinedMeansDelivered(c, states[|actions|]);
    EmbedIsMap(c, f);
  }
}
