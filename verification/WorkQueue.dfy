/** The fetch-add work distribution of the baseline benchmark: in every round each worker thread repeatedly takes
    the next index from a shared counter and embeds that text, until the counter is past the corpus. */
module WorkQueue {
  import opened Sequences
  import opened Arithmetic

  /** Corpus size, number of worker threads per round, number of rounds. */
  datatype Config = Config(corpus: nat, sessions: nat, iterations: nat)

  datatype Pc = Fetching | Embedding(i: nat) | Stopped

  datatype State = State(
    idx: nat,                // the atomic counter
    pcs: seq<Pc>,            // this round's threads
    log: seq<nat>,           // texts embedded this round, in completion order
    rounds: seq<seq<nat>>,   // the logs of the finished rounds
    ends: seq<nat>)          // the counter at the end of each finished round

  datatype Action = Fetch(w: nat) | Embed(w: nat) | EndRound

  function Fresh(n: nat): (r: seq<Pc>)
    ensures |r| == n && forall w :: 0 <= w < n ==> r[w] == Fetching
  {
    seq(n, _ => Fetching)
  }

  function Init(c: Config): State { State(0, Fresh(c.sessions), [], [], []) }

  predicate Enabled(c: Config, s: State, a: Action) {
    |s.rounds| < c.iterations &&
    match a
    case Fetch(w) => w < |s.pcs| && s.pcs[w].Fetching?
    case Embed(w) => w < |s.pcs| && s.pcs[w].Embedding?
    case EndRound => forall w :: 0 <= w < |s.pcs| ==> s.pcs[w].Stopped?
  }

  /** One atomic step: a fetch_add, the completion of one embedding, or the join and reset that end a round. */
  function Step(c: Config, s: State, a: Action): State
    requires Enabled(c, s, a)
  {
    match a
    case Fetch(w) =>
      s.(idx := s.idx + 1, pcs := s.pcs[w := if s.idx >= c.corpus then Stopped else Embedding(s.idx)])
    case Embed(w) => s.(log := s.log + [s.pcs[w].i], pcs := s.pcs[w := Fetching])
    case EndRound => State(0, Fresh(c.sessions), [], s.rounds + [s.log], s.ends + [s.idx])
  }

  /** The texts being embedded right now. */
  ghost function InFlight(pcs: seq<Pc>): multiset<nat> {
    if pcs == [] then multiset{}
    else InFlight(pcs[..|pcs| - 1]) + Taken(pcs[|pcs| - 1])
  }

  ghost function Taken(pc: Pc): multiset<nat> {
    if pc.Embedding? then multiset{pc.i} else multiset{}
  }

  function NumStopped(pcs: seq<Pc>): (r: nat)
    ensures r <= |pcs|
  {
    if pcs == [] then 0
    else NumStopped(pcs[..|pcs| - 1]) + (if pcs[|pcs| - 1].Stopped? then 1 else 0)
  }

  lemma {:induction false} MoveAcross(a: multiset<nat>, x: multiset<nat>, b: multiset<nat>, y: multiset<nat>,
                                      t: multiset<nat>)
    requires a + x == b + y
    ensures (a + t) + x == (b + t) + y
  {
    assert (a + t) + x == (a + x) + t && (b + t) + y == (b + y) + t;
  }

  lemma {:induction false} UpdateInFlight(pcs: seq<Pc>, w: nat, pc: Pc)
    requires w < |pcs|
    ensures InFlight(pcs[w := pc]) + Taken(pcs[w]) == InFlight(pcs) + Taken(pc)
  {
    var n := |pcs| - 1;
    hide Taken;
    if w < n {
      assert pcs[w := pc][..n] == pcs[..n][w := pc];
      UpdateInFlight(pcs[..n], w, pc);
      MoveAcross(InFlight(pcs[..n][w := pc]), Taken(pcs[w]), InFlight(pcs[..n]), Taken(pc), Taken(pcs[n]));
    } else {
      assert pcs[w := pc][..n] == pcs[..n];
      assert InFlight(pcs[w := pc]) == InFlight(pcs[..n]) + Taken(pc);
    }
  }

  lemma {:induction false} UpdateStopped(pcs: seq<Pc>, w: nat, pc: Pc)
    requires w < |pcs|
    ensures NumStopped(pcs[w := pc]) + (if pcs[w].Stopped? then 1 else 0)
         == NumStopped(pcs) + (if pc.Stopped? then 1 else 0)
  {
    var n := |pcs| - 1;
    if w < n {
      assert pcs[w := pc][..n] == pcs[..n][w := pc];
      UpdateStopped(pcs[..n], w, pc);
    } else {
      assert pcs[w := pc][..n] == pcs[..n];
    }
  }

  lemma {:induction false} AllStopped(pcs: seq<Pc>)
    requires forall w :: 0 <= w < |pcs| ==> pcs[w].Stopped?
    ensures InFlight(pcs) == multiset{} && NumStopped(pcs) == |pcs|
  {
    if pcs != [] {
      AllStopped(pcs[..|pcs| - 1]);
    }
  }

  lemma {:induction false} AllFresh(pcs: seq<Pc>)
    requires forall w :: 0 <= w < |pcs| ==> pcs[w].Fetching?
    ensures InFlight(pcs) == multiset{} && NumStopped(pcs) == 0
  {
    if pcs != [] {
      AllFresh(pcs[..|pcs| - 1]);
    }
  }

  /** Handed-out indices are embedded or in flight, each once; threads stop one per fetch past the corpus. */
  ghost predicate RoundInv(c: Config, s: State) {
    && |s.pcs| == c.sessions
    && multiset(s.log) + InFlight(s.pcs) == multiset(UpTo(Min(s.idx, c.corpus)))
    && NumStopped(s.pcs) == (if s.idx < c.corpus then 0 else s.idx - c.corpus)
  }

  /** Each finished round embedded every text exactly once and left the counter at corpus + sessions. */
  ghost predicate FinishedRounds(c: Config, s: State) {
    && |s.rounds| == |s.ends| <= c.iterations
    && (forall r :: 0 <= r < |s.rounds| ==> multiset(s.rounds[r]) == multiset(UpTo(c.corpus)))
    && (forall r :: 0 <= r < |s.ends| ==> s.ends[r] == c.corpus + c.sessions)
  }

  ghost predicate Inv(c: Config, s: State) {
    c.sessions > 0 && RoundInv(c, s) && FinishedRounds(c, s)
  }

  lemma {:induction false} InitInv(c: Config)
    requires c.sessions > 0
    ensures Inv(c, Init(c))
  {
    AllFresh(Fresh(c.sessions));
    assert UpTo(0) == [];
  }

  lemma {:induction false} FetchRound(c: Config, s: State, w: nat)
    requires RoundInv(c, s) && Enabled(c, s, Fetch(w))
    ensures RoundInv(c, Step(c, s, Fetch(w)))
  {
    hide InFlight, NumStopped;
    var pc := if s.idx >= c.corpus then Stopped else Embedding(s.idx);
    UpdateInFlight(s.pcs, w, pc);
    UpdateStopped(s.pcs, w, pc);
    var after := InFlight(s.pcs[w := pc]);
    assert after == InFlight(s.pcs) + Taken(pc);
    if s.idx < c.corpus {
      assert UpTo(s.idx + 1) == UpTo(s.idx) + [s.idx];
      assert multiset(s.log) + after == (multiset(s.log) + InFlight(s.pcs)) + multiset{s.idx};
    }
  }

  lemma {:induction false} EmbedRound(c: Config, s: State, w: nat)
    requires RoundInv(c, s) && Enabled(c, s, Embed(w))
    ensures RoundInv(c, Step(c, s, Embed(w)))
  {
    hide InFlight, NumStopped;
    UpdateInFlight(s.pcs, w, Fetching);
    UpdateStopped(s.pcs, w, Fetching);
    var i, after := s.pcs[w].i, InFlight(s.pcs[w := Fetching]);
    assert multiset(s.log + [i]) == multiset(s.log) + multiset{i};
    assert after + multiset{i} == InFlight(s.pcs);
    assert (multiset(s.log) + multiset{i}) + after == multiset(s.log) + (after + multiset{i});
  }

  /** At the join the round's log is the whole corpus and the counter is past it by one per thread. */
  lemma {:induction false} RoundIsOver(c: Config, s: State)
    requires Inv(c, s) && Enabled(c, s, EndRound)
    ensures multiset(s.log) == multiset(UpTo(c.corpus))
    ensures s.idx == c.corpus + c.sessions
  {
    AllStopped(s.pcs);
  }

  lemma {:induction false} StepInv(c: Config, s: State, a: Action)
    requires Inv(c, s) && Enabled(c, s, a)
    ensures Inv(c, Step(c, s, a))
  {
    match a
    case Fetch(w) => FetchRound(c, s, w);
    case Embed(w) => EmbedRound(c, s, w);
    case EndRound =>
      RoundIsOver(c, s);
      AllFresh(Fresh(c.sessions));
      assert UpTo(0) == [];
  }

  // ----- runs -----

  ghost predicate IsRun(c: Config, states: seq<State>, actions: seq<Action>) {
    && c.sessions > 0 && |states| == |actions| + 1 && states[0] == Init(c)
    && forall i :: 0 <= i < |actions| ==>
         Enabled(c, states[i], actions[i]) && states[i + 1] == Step(c, states[i], actions[i])
  }

  lemma {:induction false} RunInv(c: Config, states: seq<State>, actions: seq<Action>, i: nat)
    requires IsRun(c, states, actions) && i < |states|
    ensures Inv(c, states[i])
  {
    if i == 0 {
      InitInv(c);
    } else {
      RunInv(c, states, actions, i - 1);
      StepInv(c, states[i - 1], actions[i - 1]);
    }
  }

  /** At no time is a text embedded twice in a round, or a text outside the corpus embedded at all. */
  lemma {:induction false} NoDuplicates(c: Config, states: seq<State>, actions: seq<Action>, i: nat)
    requires IsRun(c, states, actions) && i < |states|
    ensures multiset(states[i].log) <= multiset(UpTo(c.corpus))
    ensures forall k :: multiset(states[i].log)[k] <= 1
  {
    RunInv(c, states, actions, i);
    var s := states[i];
    var n := Min(s.idx, c.corpus);
    assert multiset(s.log) <= multiset(UpTo(n));
    assert UpTo(c.corpus) == UpTo(n) + UpTo(c.corpus)[n..];
    forall k ensures multiset(s.log)[k] <= 1 {
      UpToOnce(n, k);
    }
  }

  /** Steps a round takes: two per text, one per stopping thread, one to end it. */
  function RoundSteps(c: Config): nat { 2 * c.corpus + c.sessions + 1 }

  /** Steps taken so far, read off the state. */
  ghost function Progress(c: Config, s: State): int {
    Mul(|s.rounds|, RoundSteps(c)) + s.idx + Min(s.idx, c.corpus) - |InFlight(s.pcs)|
  }

  lemma {:induction false} StepProgress(c: Config, s: State, a: Action)
    requires Inv(c, s) && Enabled(c, s, a)
    ensures Progress(c, Step(c, s, a)) == Progress(c, s) + 1
  {
    hide Mul, InFlight, FinishedRounds;
    match a
    case Fetch(w) =>
      var pc := if s.idx >= c.corpus then Stopped else Embedding(s.idx);
      UpdateInFlight(s.pcs, w, pc);
      assert |InFlight(s.pcs[w := pc]) + Taken(s.pcs[w])| == |InFlight(s.pcs) + Taken(pc)|;
    case Embed(w) =>
      UpdateInFlight(s.pcs, w, Fetching);
      assert |InFlight(s.pcs[w := Fetching]) + Taken(s.pcs[w])| == |InFlight(s.pcs) + Taken(Fetching)|;
    case EndRound =>
      AllStopped(s.pcs);
      AllFresh(Fresh(c.sessions));
      MulSucc(RoundSteps(c), |s.rounds|);
  }

  lemma {:induction false} RunProgress(c: Config, states: seq<State>, actions: seq<Action>, i: nat)
    requires IsRun(c, states, actions) && i < |states|
    ensures Progress(c, states[i]) == i
  {
    if i == 0 {
      AllFresh(Fresh(c.sessions));
      MulZero(RoundSteps(c));
    } else {
      RunProgress(c, states, actions, i - 1);
      RunInv(c, states, actions, i - 1);
      StepProgress(c, states[i - 1], actions[i - 1]);
    }
  }

  /** Until all rounds are over some thread can move. */
  lemma {:induction false} SomeThreadCanMove(c: Config, s: State) returns (a: Action)
    requires Inv(c, s) && |s.rounds| < c.iterations
    ensures Enabled(c, s, a)
  {
    if w: nat :| w < |s.pcs| && !s.pcs[w].Stopped? {
      a := if s.pcs[w].Fetching? then Fetch(w) else Embed(w);
    } else {
      a := EndRound;
    }
  }

  function TotalEmbeds(rounds: seq<seq<nat>>): nat {
    if rounds == [] then 0 else TotalEmbeds(rounds[..|rounds| - 1]) + |rounds[|rounds| - 1]|
  }

  lemma {:induction false} EmbedsAddUp(rounds: seq<seq<nat>>, n: nat)
    requires forall r :: 0 <= r < |rounds| ==> multiset(rounds[r]) == multiset(UpTo(n))
    ensures TotalEmbeds(rounds) == Mul(n, |rounds|)
  {
    MulZero(n);
    if rounds != [] {
      var m := |rounds| - 1;
      EmbedsAddUp(rounds[..m], n);
      PermutationLength(rounds[m], UpTo(n));
      MulSucc(n, m);
    }
  }

  /** Under every interleaving: a run that cannot go on has done all rounds; in each of them every text was embedded
      exactly once and the counter ended at corpus + sessions; the timed embeddings number corpus * iterations. */
  lemma {:induction false} EveryRunEmbedsEachTextOnce(c: Config, states: seq<State>, actions: seq<Action>)
    requires IsRun(c, states, actions) && forall a :: !Enabled(c, states[|actions|], a)
    ensures var last := states[|actions|];
      && |last.rounds| == c.iterations
      && (forall r :: 0 <= r < c.iterations ==> multiset(last.rounds[r]) == multiset(UpTo(c.corpus)))
      && (forall r :: 0 <= r < c.iterations ==> |last.ends| > r && last.ends[r] == c.corpus + c.sessions)
      && TotalEmbeds(last.rounds) == Mul(c.corpus, c.iterations)
  {
    var last := states[|actions|];
    RunInv(c, states, actions, |actions|);
    if |last.rounds| < c.iterations {
      var a := SomeThreadCanMove(c, last);
      assert false;
    }
    EmbedsAddUp(last.rounds, c.corpus);
  }

  /** Every run is bounded, whatever the scheduler does: at most iterations * (2 * corpus + sessions + 1) steps. */
  lemma {:induction false} RunsAreBounded(c: Config, states: seq<State>, actions: seq<Action>)
    requires IsRun(c, states, actions)
    ensures |actions| <= Mul(c.iterations, RoundSteps(c))
  {
    var n := |actions|;
    RunInv(c, states, actions, n);
    RunProgress(c, states, actions, n);
    if n > 0 {
      RunInv(c, states, actions, n - 1);
      RunProgress(c, states, actions, n - 1);
      BoundedProgress(c, states[n - 1]);
    }
  }

  /** Inside a round fewer than RoundSteps steps have been taken. */
  lemma {:induction false} BoundedProgress(c: Config, s: State)
    requires Inv(c, s) && |s.rounds| < c.iterations
    ensures Progress(c, s) < Mul(c.iterations, RoundSteps(c))
  {
    hide Mul;
    MulSucc(RoundSteps(c), |s.rounds|);
    MulMonotone(RoundSteps(c), |s.rounds| + 1, c.iterations);
    assert s.idx <= c.corpus + c.sessions;
  }
}
