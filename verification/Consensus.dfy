/**
 Runs of imports and finalizations: stored weights count primary blocks, the best
 block is the first heaviest one, live blocks keep their weights, and a failed
 import leaves nothing behind unless the database fails at one read.
 */
module Consensus {
  import opened Common
  import opened Epochs
  import opened BlockTree
  import opened Import
  import opened Finality

  /** The state with its history: all blocks in import order and every epoch ever announced. */
  datatype World = World(state: State, imported: seq<Block>, announced: EpochChanges)

  const START := World(State({Genesis}, Genesis, Genesis, map[], map[]), [Genesis], map[])

  datatype Event = ImportBlock(block: Block, env: Env) | Finalize(block: Block, heads: set<Block>)

  /** The epoch tree prunes as promised, the wrapped importer never goes below finality, and only the best chain is finalized. */
  ghost predicate Enabled(w: World, e: Event) { EnabledIn(w.state, e) }

  ghost predicate EnabledIn(s: State, e: Event)
  {
    match e
    case ImportBlock(b, env) =>
      && (env.pruned.Some? ==> Prunes(s.epochs, s.finalized, env.pruned.value))
      && (env.inner.Imported? ==> Number(b) > Number(s.finalized))
    case Finalize(f, heads) =>
      && OnChain(s.finalized, f) && s.finalized != f && OnChain(f, s.best)
      && StaleHeads(s.blocks, heads, f)
  }

  function Step(cfg: Configuration, w: World, e: Event): World
  {
    match e
    case ImportBlock(b, env) =>
      var (s, outcome) := ImportStep(cfg, w.state, b, env);
      if outcome == Ok(true) then
        World(s, w.imported + [b], if b in s.epochs then w.announced[b := s.epochs[b]] else w.announced)
      else w.(state := s)
    case Finalize(f, heads) =>
      if OnChain(w.state.finalized, f) && w.state.finalized != f then
        w.(state := FinalizeStep(w.state, f, true, ExpandForks(w.state.blocks, heads, f)))
      else w
  }

  ghost predicate Run(cfg: Configuration, worlds: seq<World>, events: seq<Event>)
  {
    && |worlds| == |events| + 1
    && worlds[0] == START
    && forall i :: 0 <= i < |events| ==> Enabled(worlds[i], events[i]) && worlds[i + 1] == Step(cfg, worlds[i], events[i])
  }

  // ---- Fork choice ----

  /** More primary blocks, or as many on a longer chain. */
  predicate Heavier(a: Block, b: Block)
  {
    Weight(a) > Weight(b) || (Weight(a) == Weight(b) && Number(a) > Number(b))
  }

  function BestOf(imported: seq<Block>): Block
    requires imported != []
  {
    var last := imported[|imported| - 1];
    if |imported| == 1 then last
    else
      var best := BestOf(imported[..|imported| - 1]);
      if Heavier(last, best) then last else best
  }

  lemma {:induction false} BestOfIsMaximum(imported: seq<Block>)
    requires imported != []
    ensures forall b :: b in imported ==> !Heavier(b, BestOf(imported))
    ensures BestOf(imported) in imported
  {
    hide Heavier;
    HeavierOrdered();
    if |imported| > 1 {
      var init := imported[..|imported| - 1];
      BestOfIsMaximum(init);
      assert imported == init + [imported[|imported| - 1]];
    } else {
      assert imported == [imported[0]];
    }
  }

  lemma HeavierOrdered()
    ensures forall a :: !Heavier(a, a)
    ensures forall a, b, c {:trigger Heavier(a, b), Heavier(c, b)} {:trigger Heavier(a, b), Heavier(a, c)} ::
              Heavier(a, b) && !Heavier(c, b) ==> !Heavier(c, a)
    ensures forall a, b, c :: Heavier(a, b) && Heavier(b, c) ==> Heavier(a, c)
  {
  }

  /** The best block is the first to come of the heaviest. */
  lemma {:induction false} BestOfIsFirst(imported: seq<Block>) returns (i: nat)
    requires imported != []
    ensures i < |imported| && imported[i] == BestOf(imported)
    ensures forall j :: 0 <= j < i ==> Heavier(imported[i], imported[j])
    ensures forall j :: 0 <= j < |imported| ==> !Heavier(imported[j], imported[i])
  {
    hide Heavier;
    HeavierOrdered();
    var last := |imported| - 1;
    if last == 0 {
      i := 0;
    } else {
      i := BestOfIsFirst(imported[..last]);
      var best := imported[i];
      if Heavier(imported[last], best) {
        forall j | 0 <= j < last
          ensures Heavier(imported[last], imported[j])
        {
          assert imported[..last][j] == imported[j];
          HeavierThanBest(imported[last], best, imported[j]);
        }
        i := last;
      } else {
        forall j | 0 <= j <= last
          ensures !Heavier(imported[j], best)
        {
          assert j < last ==> imported[..last][j] == imported[j];
        }
      }
    }
  }

  lemma HeavierThanBest(a: Block, best: Block, b: Block)
    requires Heavier(a, best) && !Heavier(b, best)
    ensures Heavier(a, b)
  {
  }

  // ---- The invariant ----

  ghost predicate Shape(w: World)
  {
    var s := w.state;
    && Rooted(s.blocks) && s.best in s.blocks && OnChain(s.finalized, s.best)
    && (forall b :: b in w.imported <==> b in s.blocks)
    && (forall b :: b in s.blocks && b.Child? ==> b.slot > SlotOf(b.parent))
  }

  ghost predicate Weighed(s: State)
  {
    WeighsLive(s) && forall b :: b in s.weights ==> s.weights[b] == Weight(b)
  }

  ghost predicate Chosen(w: World)
  {
    w.imported != [] && w.state.best == BestOf(w.imported)
  }

  ghost predicate Invariant(w: World)
  {
    Shape(w) && Weighed(w.state) && Chosen(w)
  }

  /** A block that gets past the parent checks in a state with exact weights, and past the wrapped importer, has a live parent. */
  lemma ParentIsLive(s: State, b: Block, env: Env)
    requires Rooted(s.blocks) && WeighsLive(s) && b.Child? && ParentError(s, b, env).None?
    requires b.parent.Genesis? ==> Number(b) > Number(s.finalized)
    ensures OnChain(s.finalized, b.parent) && OnChain(s.finalized, b)
  {
    if b.parent.Child? {
      assert Live(s, b.parent);
    } else {
      assert Number(s.finalized) == 0;
    }
  }

  /** The stored weights give the fork choice the true weights. */
  lemma WeightsAreTrue(s: State, b: Block, env: Env)
    requires Weighed(s) && b.Child? && ParentError(s, b, env).None? && !NoBestWeightFor(s, b, env)
    ensures TotalWeight(s, b) == Weight(b) && (BecomesBest(s, b) <==> Heavier(b, s.best))
  {
    hide WeighsLive;
  }

  /** What an import that succeeds adds, in true weights. */
  lemma ImportedBlock(cfg: Configuration, s: State, b: Block, env: Env)
    requires Rooted(s.blocks) && Weighed(s) && (env.inner.Imported? ==> Number(b) > Number(s.finalized))
    requires ImportStep(cfg, s, b, env).1 == Ok(true)
    ensures b.Child? && b !in s.blocks && b.parent in s.blocks && b.slot > SlotOf(b.parent)
    ensures OnChain(s.finalized, b.parent) && OnChain(s.finalized, b)
    ensures EarlyError(cfg, s, b, env).None?
    ensures ImportStep(cfg, s, b, env).0 ==
            s.(blocks := s.blocks + {b}, best := if Heavier(b, s.best) then b else s.best,
               weights := s.weights[b := Weight(b)], epochs := EpochsWith(cfg, s, b, env))
  {
    hide EpochsWith, OnChain, Weight, Weighed, EarlyError, TotalWeight, BecomesBest, Heavier, Number;
    LetThroughHasParent(cfg, s, b, env);
    WeightsAreTrue(s, b, env);
    LiveByWeight(s, b, env);
  }

  lemma LiveByWeight(s: State, b: Block, env: Env)
    requires Rooted(s.blocks) && Weighed(s) && b.Child? && ParentError(s, b, env).None? && Number(b) > Number(s.finalized)
    ensures OnChain(s.finalized, b.parent) && OnChain(s.finalized, b)
  {
    ParentIsLive(s, b, env);
  }

  /** An import that does not succeed changes at most the epoch changes. */
  lemma NotImportedKeeps(cfg: Configuration, s: State, b: Block, env: Env)
    requires ImportStep(cfg, s, b, env).1 != Ok(true)
    ensures ImportStep(cfg, s, b, env).0 == s.(epochs := ImportStep(cfg, s, b, env).0.epochs)
  {
    hide EarlyError, EpochsWith, TotalWeight, BecomesBest;
  }

  lemma ImportKeepsWeights(cfg: Configuration, s: State, b: Block, env: Env)
    requires Rooted(s.blocks) && Weighed(s) && (env.inner.Imported? ==> Number(b) > Number(s.finalized))
    ensures Weighed(ImportStep(cfg, s, b, env).0)
  {
    hide ImportStep, OnChain, Weight, Heavier;
    if ImportStep(cfg, s, b, env).1 == Ok(true) {
      ImportedBlock(cfg, s, b, env);
    } else {
      NotImportedKeeps(cfg, s, b, env);
    }
  }

  lemma ImportKeepsShape(cfg: Configuration, w: World, b: Block, env: Env)
    requires Invariant(w) && (env.inner.Imported? ==> Number(b) > Number(w.state.finalized))
    ensures Shape(Step(cfg, w, ImportBlock(b, env))) && Chosen(Step(cfg, w, ImportBlock(b, env)))
  {
    hide ImportStep, Weight, Weighed, Heavier, OnChain;
    if ImportStep(cfg, w.state, b, env).1 == Ok(true) {
      ImportedBlock(cfg, w.state, b, env);
      assert (w.imported + [b])[..|w.imported|] == w.imported;
    } else {
      NotImportedKeeps(cfg, w.state, b, env);
    }
  }

  lemma FinalizeKeepsWeights(s: State, f: Block, heads: set<Block>)
    requires Rooted(s.blocks) && Weighed(s) && f in s.blocks && OnChain(s.finalized, f) && s.finalized != f
    requires StaleHeads(s.blocks, heads, f)
    ensures Weighed(FinalizeStep(s, f, true, ExpandForks(s.blocks, heads, f)))
  {
    hide OnChain, WeighsLive, Dropped, ExpandForks, StaleHeads, Weight;
    ForksCoverStale(s, f, heads);
    CleanupExact(s, f, true, ExpandForks(s.blocks, heads, f));
  }

  lemma FinalizeKeeps(cfg: Configuration, w: World, f: Block, heads: set<Block>)
    requires Invariant(w) && Enabled(w, Finalize(f, heads))
    ensures Invariant(Step(cfg, w, Finalize(f, heads)))
  {
    hide OnChain, BestOf, Weighed, ExpandForks, StaleHeads, Dropped;
    RootedHolds(w.state.blocks, f, w.state.best);
    FinalizeKeepsWeights(w.state, f, heads);
  }

  lemma StepKeeps(cfg: Configuration, w: World, e: Event)
    requires Invariant(w) && Enabled(w, e)
    ensures Invariant(Step(cfg, w, e))
  {
    hide Shape, Weighed, Chosen;
    match e {
      case ImportBlock(b, env) =>
        RootedByShape(w);
        ImportKeepsWeights(cfg, w.state, b, env);
        ImportKeepsShape(cfg, w, b, env);
      case Finalize(f, heads) =>
        FinalizeKeeps(cfg, w, f, heads);
    }
  }

  lemma RootedByShape(w: World)
    requires Shape(w)
    ensures Rooted(w.state.blocks)
  {
  }

  lemma {:induction false} InvariantAlongRun(cfg: Configuration, worlds: seq<World>, events: seq<Event>, i: nat)
    requires Run(cfg, worlds, events) && i < |worlds|
    ensures Invariant(worlds[i])
  {
    hide Step, Enabled, Invariant;
    if i == 0 {
      StartInvariant();
    } else {
      InvariantAlongRun(cfg, worlds, events, i - 1);
      assert worlds[i] == Step(cfg, worlds[i - 1], events[i - 1]);
      StepKeeps(cfg, worlds[i - 1], events[i - 1]);
    }
  }

  lemma StartInvariant()
    ensures Invariant(START)
  {
  }

  // ---- What runs promise ----

  /** Stored weights are primary counts of exactly the live blocks; the best block is the first heaviest ever imported. */
  lemma ForkChoiceAlongRun(cfg: Configuration, worlds: seq<World>, events: seq<Event>, i: nat) returns (k: nat)
    requires Run(cfg, worlds, events) && i < |worlds|
    ensures var w := worlds[i];
            && (forall b :: b in w.state.weights <==> b in w.state.blocks && b.Child? && OnChain(w.state.finalized, b))
            && (forall b :: b in w.state.weights ==> w.state.weights[b] == Weight(b))
            && (forall b :: b in w.imported <==> b in w.state.blocks)
            && k < |w.imported| && w.imported[k] == w.state.best
            && (forall j :: 0 <= j < k ==> Heavier(w.imported[k], w.imported[j]))
            && (forall j :: 0 <= j < |w.imported| ==> !Heavier(w.imported[j], w.imported[k]))
  {
    hide Step, Enabled, Run, Heavier, BestOf;
    InvariantAlongRun(cfg, worlds, events, i);
    var w := worlds[i];
    assert forall b :: b in w.state.weights <==> Live(w.state, b);
    k := BestOfIsFirst(worlds[i].imported);
  }

  /** In every reachable state a failed import leaves the state as it was unless reading the best block's weight failed. */
  lemma FailedImportsAreAtomic(cfg: Configuration, worlds: seq<World>, events: seq<Event>, i: nat, b: Block, env: Env)
    requires Run(cfg, worlds, events) && i < |worlds|
    requires ImportStep(cfg, worlds[i].state, b, env).1.Err? && env.bestWeightRead
    ensures ImportStep(cfg, worlds[i].state, b, env).0 == worlds[i].state
  {
    hide Run, ImportStep, EarlyError;
    InvariantAlongRun(cfg, worlds, events, i);
    FailedImportExact(cfg, worlds[i].state, b, env);
    if Stranded(cfg, worlds[i].state, b, env) {
      LetThroughHasParent(cfg, worlds[i].state, b, env);
      BestIsWeighed(worlds[i], b);
    }
  }

  lemma LetThroughHasParent(cfg: Configuration, s: State, b: Block, env: Env)
    requires b.Child? && EarlyError(cfg, s, b, env).None?
    ensures ParentError(s, b, env).None?
  {
  }

  lemma BestIsWeighed(w: World, b: Block)
    requires Invariant(w) && b.Child? && b.parent in w.state.blocks && w.state.best != b.parent
    ensures w.state.best in w.state.weights
  {
    hide BestOf, Weight, OnChain;
    BestOfIsMaximum(w.imported);
    assert !Heavier(b.parent, w.state.best);
    if w.state.best.Child? {
      assert Live(w.state, w.state.best);
    } else {
      NothingBelowGenesis(b.parent);
    }
  }

  lemma NothingBelowGenesis(b: Block)
    ensures b.Child? ==> Heavier(b, Genesis)
  {
  }

  /** Building on a live block never lacks a weight, and building on any other but genesis always fails. */
  lemma LiveParentsHaveWeights(cfg: Configuration, worlds: seq<World>, events: seq<Event>, i: nat, b: Block, env: Env)
    requires Run(cfg, worlds, events) && i < |worlds| && b.Child? && b !in worlds[i].state.blocks
    requires b.parent in worlds[i].state.blocks
    ensures OnChain(worlds[i].state.finalized, b.parent) ==>
              ImportStep(cfg, worlds[i].state, b, env).1 != Err(ParentBlockNoAssociatedWeight)
    ensures b.parent.Child? && !OnChain(worlds[i].state.finalized, b.parent) ==>
              ImportStep(cfg, worlds[i].state, b, env).1.Err?
  {
    hide Run, EpochFor, EpochsWith;
    InvariantAlongRun(cfg, worlds, events, i);
    assert b.parent in worlds[i].state.weights <==> Live(worlds[i].state, b.parent);
  }

  // ---- Where the assumptions are needed ----

  /** Without the wrapped importer's refusal, a child of genesis would get a weight after finality has moved on. */
  lemma ImportKeepsLiveExactly(cfg: Configuration, s: State, b: Block, env: Env)
    requires Rooted(s.blocks) && s.finalized in s.blocks && WeighsLive(s) && ImportStep(cfg, s, b, env).1 == Ok(true)
    ensures WeighsLive(ImportStep(cfg, s, b, env).0) <==> b.parent.Child? || s.finalized.Genesis?
  {
    hide EarlyError, EpochsWith, TotalWeight, BecomesBest, ParentError;
    LetThroughHasParent(cfg, s, b, env);
    var s' := ImportStep(cfg, s, b, env).0;
    assert b in s'.weights;
    GenesisOnChain(b);
    if b.parent.Child? {
      assert Live(s, b.parent);
    } else {
      assert OnChain(s.finalized, b) <==> OnChain(s.finalized, Genesis);
    }
    assert Live(s', b) <==> b.parent.Child? || s.finalized.Genesis?;
    forall x | x != b
      ensures x in s'.weights <==> Live(s', x)
    {
      assert Live(s', x) <==> Live(s, x);
    }
  }

  function FirstBlock(salt: nat): Block
  {
    Child(Genesis, 1, true, [Descriptor([], 0)], [], salt)
  }

  /** A child of genesis, imported after the first block has been finalized, gets a weight it should not have. */
  lemma LateGenesisChildIsWeighed(cfg: Configuration) returns (s: State, b: Block, env: Env)
    requires cfg.epochLength > 0
    ensures Rooted(s.blocks) && s.finalized in s.blocks && WeighsLive(s) && ImportStep(cfg, s, b, env).1 == Ok(true)
    ensures !WeighsLive(ImportStep(cfg, s, b, env).0)
  {
    var a := FirstBlock(0);
    b := FirstBlock(1);
    assert a != b && !OnChain(a, Genesis);
    s := State({Genesis, a}, a, a, map[a := 1], map[]);
    env := Env(true, true, true, true, true, Some(map[]), true, true, true, Imported);
    assert EarlyError(cfg, s, b, env).None?;
    ImportKeepsLiveExactly(cfg, s, b, env);
  }

  /** A reachable state, and an import that fails at that one read and leaves its epoch behind. */
  lemma ReadFailureLeavesEpoch(cfg: Configuration) returns (worlds: seq<World>, events: seq<Event>, b: Block, env: Env)
    requires cfg.epochLength > 0
    ensures Run(cfg, worlds, events) && |worlds| == 2
    ensures var (s, outcome) := ImportStep(cfg, worlds[1].state, b, env);
            outcome.Err? && s.epochs != worlds[1].state.epochs
  {
    var ok := Env(true, true, true, true, true, Some(map[]), true, true, true, Imported);
    events := [ImportBlock(FirstBlock(0), ok)];
    worlds := [START, Step(cfg, START, events[0])];
    assert Number(FirstBlock(0)) == 1;
    assert EarlyError(cfg, START.state, FirstBlock(0), ok).None?;
    var s := worlds[1].state;
    assert s.best == FirstBlock(0) by {
      assert BecomesBest(START.state, FirstBlock(0));
    }
    b := FirstBlock(1);
    env := ok.(bestWeightRead := false, pruned := Some(s.epochs));
    assert FirstBlock(1) != FirstBlock(0);
    assert EarlyError(cfg, s, b, env).None?;
    assert Stranded(cfg, s, b, env);
    FailedImportExact(cfg, s, b, env);
  }
}
