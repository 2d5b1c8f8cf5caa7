/**
 Runs of imports and finalizations with reverts among them. A revert takes back the
 auxiliary data, and the client the blocks above the same point, which becomes the best
 block. Weights stay exact and failed imports stay atomic; that the best block is the
 heaviest is given up by reverting.
 */
module RevertRuns {
  import opened Common
  import opened Epochs
  import opened BlockTree
  import opened Import
  import opened Finality
  import opened Revert
  import Consensus

  datatype Event = Ordinary(event: Consensus.Event) | TakeBack(count: nat, leaves: seq<Block>, routed: set<Block>)

  ghost predicate Enabled(s: State, e: Event)
  {
    match e
    case Ordinary(event) => Consensus.EnabledIn(s, event)
    case TakeBack(_, leaves, routed) => (forall l :: l in leaves <==> Leaf(s.blocks, l)) && forall l :: l in leaves ==> l in routed
  }

  ghost function TakenBack(s: State, count: nat, leaves: seq<Block>, routed: set<Block>): State
    requires OnChain(s.finalized, s.best)
  {
    var r := AtNumber(s.best, RevertNumber(s.best, s.finalized, count));
    var aux := Reverted(s.blocks, leaves, routed, AuxData(s.weights, s.epochs), s.best, s.finalized, count);
    if Number(r) == Number(s.best) then s
    else State(s.blocks - Above(s.blocks, r), r, s.finalized, aux.weights, aux.epochs)
  }

  ghost function Step(cfg: Configuration, s: State, e: Event): State
  {
    match e
    case Ordinary(ImportBlock(b, env)) => ImportStep(cfg, s, b, env).0
    case Ordinary(Finalize(f, heads)) =>
      if OnChain(s.finalized, f) && s.finalized != f then FinalizeStep(s, f, true, ExpandForks(s.blocks, heads, f)) else s
    case TakeBack(count, leaves, routed) =>
      if OnChain(s.finalized, s.best) then TakenBack(s, count, leaves, routed) else s
  }

  ghost predicate Run(cfg: Configuration, states: seq<State>, events: seq<Event>)
  {
    && |states| == |events| + 1
    && states[0] == Consensus.START.state
    && forall i :: 0 <= i < |events| ==> Enabled(states[i], events[i]) && states[i + 1] == Step(cfg, states[i], events[i])
  }

  /** Genesis is best only while nothing else is there. */
  ghost predicate Invariant(s: State)
  {
    && Rooted(s.blocks) && s.best in s.blocks && OnChain(s.finalized, s.best) && Consensus.Weighed(s)
    && (s.best.Genesis? ==> forall b :: b in s.blocks ==> b.Genesis?)
  }

  lemma ImportKeeps(cfg: Configuration, s: State, b: Block, env: Env)
    requires Invariant(s) && (env.inner.Imported? ==> Number(b) > Number(s.finalized))
    ensures Invariant(ImportStep(cfg, s, b, env).0)
  {
    hide ImportStep, Weight, Consensus.Weighed, Consensus.Heavier, OnChain, Number;
    Consensus.ImportKeepsWeights(cfg, s, b, env);
    if ImportStep(cfg, s, b, env).1 == Ok(true) {
      Consensus.ImportedBlock(cfg, s, b, env);
      Consensus.NothingBelowGenesis(b);
    } else {
      Consensus.NotImportedKeeps(cfg, s, b, env);
    }
  }

  lemma FinalizeKeeps(s: State, f: Block, heads: set<Block>)
    requires Invariant(s) && Consensus.EnabledIn(s, Consensus.Finalize(f, heads))
    ensures Invariant(FinalizeStep(s, f, true, ExpandForks(s.blocks, heads, f)))
  {
    hide OnChain, Consensus.Weighed, ExpandForks, StaleHeads, Dropped;
    RootedHolds(s.blocks, f, s.best);
    Consensus.FinalizeKeepsWeights(s, f, heads);
  }

  /** Taking away everything above a block leaves a tree. */
  lemma PrunedTree(blocks: set<Block>, r: Block)
    requires Rooted(blocks) && r in blocks
    ensures Rooted(blocks - Above(blocks, r)) && r in blocks - Above(blocks, r)
    ensures r.Genesis? ==> forall b :: b in blocks - Above(blocks, r) ==> b.Genesis?
  {
    forall b | b in blocks - Above(blocks, r) && b.Child?
      ensures b.parent !in Above(blocks, r)
    {
      if OnChain(r, b.parent) {
        NotOnOwnParent(b);
      }
    }
    GenesisOnChain(r);
    forall b | b in blocks
      ensures OnChain(Genesis, b)
    {
      GenesisOnChain(b);
    }
  }

  lemma TakeBackKeeps(s: State, count: nat, leaves: seq<Block>, routed: set<Block>)
    requires Invariant(s) && Enabled(s, TakeBack(count, leaves, routed))
    ensures Invariant(TakenBack(s, count, leaves, routed))
  {
    hide Rooted, OnChain, Weight, Covered, Above;
    var aux := AuxData(s.weights, s.epochs);
    var r := AtNumber(s.best, RevertNumber(s.best, s.finalized, count));
    RootedHolds(s.blocks, r, s.best);
    RevertPoint(s.best, s.finalized, count);
    WeighsByBlock(s);
    RevertKeepsWeighing(s.blocks, leaves, routed, aux, s.best, s.finalized, count);
    PrunedTree(s.blocks, r);
    WeighsBack(TakenBack(s, count, leaves, routed));
  }

  lemma WeighsByBlock(s: State)
    requires WeighsLive(s)
    ensures forall b :: b in s.weights <==> b in s.blocks && b != Genesis && OnChain(s.finalized, b)
  {
    hide OnChain;
    forall b
      ensures b in s.weights <==> Live(s, b)
    {
    }
  }

  lemma WeighsBack(s: State)
    ensures (forall b :: b in s.weights <==> b in s.blocks && b != Genesis && OnChain(s.finalized, b)) ==> WeighsLive(s)
  {
    hide OnChain;
  }

  lemma StepKeeps(cfg: Configuration, s: State, e: Event)
    requires Invariant(s) && Enabled(s, e)
    ensures Invariant(Step(cfg, s, e))
  {
    hide Invariant, ImportStep, FinalizeStep, ExpandForks, TakenBack, StaleHeads, Prunes, OnChain;
    match e {
      case Ordinary(ImportBlock(b, env)) => ImportKeeps(cfg, s, b, env);
      case Ordinary(Finalize(f, heads)) => FinalizeKeeps(s, f, heads);
      case TakeBack(count, leaves, routed) => TakeBackKeeps(s, count, leaves, routed);
    }
  }

  lemma {:induction false} InvariantAlongRun(cfg: Configuration, states: seq<State>, events: seq<Event>, i: nat)
    requires Run(cfg, states, events) && i < |states|
    ensures Invariant(states[i])
  {
    hide Step, Enabled, Invariant;
    if i == 0 {
      StartInvariant();
    } else {
      InvariantAlongRun(cfg, states, events, i - 1);
      assert states[i] == Step(cfg, states[i - 1], events[i - 1]);
      StepKeeps(cfg, states[i - 1], events[i - 1]);
    }
  }

  lemma StartInvariant()
    ensures Invariant(Consensus.START.state)
  {
    Consensus.StartInvariant();
  }

  /** Across reverts too, stored weights are primary counts of exactly the live blocks, and the best block is one of them. */
  lemma WeightsAcrossReverts(cfg: Configuration, states: seq<State>, events: seq<Event>, i: nat)
    requires Run(cfg, states, events) && i < |states|
    ensures var s := states[i];
            && (forall b :: b in s.weights <==> b in s.blocks && b != Genesis && OnChain(s.finalized, b))
            && (forall b :: b in s.weights ==> s.weights[b] == Weight(b))
            && s.best in s.blocks && OnChain(s.finalized, s.best)
  {
    hide Run;
    InvariantAlongRun(cfg, states, events, i);
    WeighsByBlock(states[i]);
  }

  /** And a failed import leaves the state as it was, unless reading the best block's weight failed. */
  lemma AtomicAcrossReverts(cfg: Configuration, states: seq<State>, events: seq<Event>, i: nat, b: Block, env: Env)
    requires Run(cfg, states, events) && i < |states|
    requires ImportStep(cfg, states[i], b, env).1.Err? && env.bestWeightRead
    ensures ImportStep(cfg, states[i], b, env).0 == states[i]
  {
    hide Run, ImportStep, EarlyError, OnChain;
    var s := states[i];
    InvariantAlongRun(cfg, states, events, i);
    FailedImportExact(cfg, s, b, env);
    assert s.best.Child? ==> Live(s, s.best);
    if Stranded(cfg, s, b, env) {
      Consensus.LetThroughHasParent(cfg, s, b, env);
    }
  }
}
