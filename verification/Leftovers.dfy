/**
 Epochs that an import left behind without importing its block. Whether the block can
 be imported later turns on the epoch tree: if it refuses a block that it records
 already, the block is never imported in any run; if it takes it, an import that meets
 no other obstacle goes through and records the same epoch.
 */
module Leftovers {
  import opened Common
  import opened Epochs
  import opened BlockTree
  import opened Import
  import opened Finality
  import opened EpochSchedule
  import Consensus

  /** An epoch whose block was not imported is the one the block would announce. */
  ghost predicate LeftoversScheduled(cfg: Configuration, w: Consensus.World)
  {
    forall a :: a in w.state.epochs && a !in w.state.blocks ==> LeftoverOk(cfg, w, a)
  }

  ghost predicate LeftoverOk(cfg: Configuration, w: Consensus.World, a: Block)
    requires a in w.state.epochs
  {
    && a.Child? && a.parent in w.state.blocks && a.slot > SlotOf(a.parent)
    && Announces(cfg, w.announced, a, w.state.epochs[a])
    && Scheduled(cfg, w.announced[a := w.state.epochs[a]], a)
  }

  /** The block passes the announcement checks, and this is what it announces. */
  ghost predicate Announces(cfg: Configuration, all: EpochChanges, a: Block, p: Persisted)
    requires a.Child?
  {
    var viable := EpochFor(cfg, all, a.parent, a.slot);
    && viable.Some? && viable.value.duration > 0 && a.announcements != []
    && AnnouncementError(a, SlotOf(a.parent) < viable.value.start).None?
    && p == Announced(viable.value, a)
  }

  // ---- The invariant ----

  /** Whatever an import does to the epoch changes, it keeps entries or adds its own. */
  lemma ChangesAfter(cfg: Configuration, w: Consensus.World, b: Block, env: Env)
    requires Consensus.Enabled(w, Consensus.ImportBlock(b, env))
    ensures var s, s' := w.state, ImportStep(cfg, w.state, b, env).0;
            && (forall a :: a in s'.epochs && a != b ==> a in s.epochs && s'.epochs[a] == s.epochs[a])
            && (s'.epochs != s.epochs ==> b.Child? && b !in s.blocks && EarlyError(cfg, s, b, env).None?
                                          && b.announcements != [] && s'.epochs == EpochsWith(cfg, s, b, env)
                                          && env.pruned.Some? && b in s'.epochs
                                          && s'.epochs == env.pruned.value[b := s'.epochs[b]])
  {
    hide EarlyError, Announced, EpochFor, TotalWeight, BecomesBest, Lookup;
    var s, s' := w.state, ImportStep(cfg, w.state, b, env).0;
    if s'.epochs != s.epochs {
      PrunedThenAnnounced(cfg, s, b, env);
    }
  }

  /** An entry recorded for another block does not disturb a leftover. */
  lemma LeftoverElsewhere(cfg: Configuration, blocks: set<Block>, all: EpochChanges, a: Block, p: Persisted, b: Block, q: Persisted)
    requires Rooted(blocks) && a.Child? && a.parent in blocks && b !in blocks && a != b
    requires Announces(cfg, all, a, p) && Scheduled(cfg, all[a := p], a)
    ensures Announces(cfg, all[b := q], a, p) && Scheduled(cfg, all[b := q][a := p], a)
  {
    hide Scheduled, Announced, AnnouncementError;
    NewOnNoChain(blocks, b, a.parent);
    ElsewhereSame(all, b, q, a.parent, a.slot);
    assert all[b := q][a := p] == all[a := p][b := q];
    ScheduledElsewhere(cfg, all[a := p], b, q, a);
  }

  lemma SkippedScheduled(cfg: Configuration, w: Consensus.World, b: Block, env: Env)
    requires Consensus.Invariant(w) && EpochsOk(cfg, w) && cfg.epochLength > 0 && b.Child? && b !in w.state.blocks
    requires EarlyError(cfg, w.state, b, env).None? && b.announcements != []
    ensures b.parent in w.state.blocks && b.slot > SlotOf(b.parent)
    ensures var changes := EpochsWith(cfg, w.state, b, env);
            b in changes && Announces(cfg, w.announced, b, changes[b]) && Scheduled(cfg, w.announced[b := changes[b]], b)
  {
    hide EarlyError, EpochsWith, Scheduled, AnnouncementError, Announced, EpochFor, AnswersLive, Consensus.Invariant;
    LetThroughEpoch(cfg, w, b, env);
    NewBlockScheduled(cfg, w.announced, b);
  }

  lemma StepKeepsLeftovers(cfg: Configuration, w: Consensus.World, e: Consensus.Event)
    requires Consensus.Invariant(w) && EpochsOk(cfg, w) && LeftoversScheduled(cfg, w) && cfg.epochLength > 0
    requires Consensus.Enabled(w, e)
    ensures LeftoversScheduled(cfg, Consensus.Step(cfg, w, e))
  {
    hide ImportStep, Scheduled, Announces, EpochsOk, EarlyError, EpochsWith, FinalizeStep, ExpandForks, Prunes, StaleHeads, OnChain, Consensus.Weighed, Consensus.Chosen;
    match e {
      case ImportBlock(b, env) =>
        ChangesAfter(cfg, w, b, env);
        var w' := Consensus.Step(cfg, w, e);
        if ImportStep(cfg, w.state, b, env).1 == Ok(true) {
          Consensus.ImportedBlock(cfg, w.state, b, env);
        } else {
          Consensus.NotImportedKeeps(cfg, w.state, b, env);
        }
        forall a | a in w'.state.epochs && a !in w'.state.blocks
          ensures LeftoverOk(cfg, w', a)
        {
          if a == b && w'.state.epochs != w.state.epochs {
            SkippedScheduled(cfg, w, b, env);
          } else {
            assert LeftoverOk(cfg, w, a);
            if w'.announced != w.announced {
              LeftoverElsewhere(cfg, w.state.blocks, w.announced, a, w.state.epochs[a], b, w'.announced[b]);
            }
          }
        }
      case Finalize(f, heads) =>
        FinalizeKeepsEpochs(cfg, w, f, heads);
    }
  }

  lemma FinalizeKeepsEpochs(cfg: Configuration, w: Consensus.World, f: Block, heads: set<Block>)
    ensures var w' := Consensus.Step(cfg, w, Consensus.Finalize(f, heads));
            w'.state.epochs == w.state.epochs && w'.state.blocks == w.state.blocks && w'.announced == w.announced
  {
    hide ExpandForks, Dropped;
  }

  lemma {:induction false} LeftoversAlongRun(
    cfg: Configuration, worlds: seq<Consensus.World>, events: seq<Consensus.Event>, i: nat)
    requires Consensus.Run(cfg, worlds, events) && cfg.epochLength > 0 && i < |worlds|
    ensures LeftoversScheduled(cfg, worlds[i])
  {
    hide Consensus.Step, Consensus.Enabled, EpochsOk;
    if i > 0 {
      LeftoversAlongRun(cfg, worlds, events, i - 1);
      EpochsAlongRun(cfg, worlds, events, i - 1);
      Consensus.InvariantAlongRun(cfg, worlds, events, i - 1);
      assert worlds[i] == Consensus.Step(cfg, worlds[i - 1], events[i - 1]);
      StepKeepsLeftovers(cfg, worlds[i - 1], events[i - 1]);
    }
  }

  // ---- Pruning keeps a live leftover ----

  /** Once the leftover epoch has started, only the leftover answers with it. */
  lemma LeftoverAnswers(cfg: Configuration, all: EpochChanges, b: Block, p: Persisted)
    requires b.Child? && b.slot > SlotOf(b.parent) && Scheduled(cfg, all[b := p], b)
    requires b.parent.Child? ==> Scheduled(cfg, all, b.parent)
    ensures p.next.start > b.slot && StartOf(p) <= p.next.start && Pick(p, p.next.start) == p.next
    ensures b.parent.Child? ==> Lookup(all, b.parent, p.next.start) != Some(p.next)
  {
    NotOnOwnParent(b);
    var t := p.next.start;
    assert PendingOf(all[b := p], b) == Some(p.next);
    if b.parent.Child? {
      ElsewhereSame(all, b, p, b.parent, t);
      assert Answers(Lookup(all, b.parent, t), PendingOf(all, b.parent).value, b.parent.slot, t);
    }
  }

  lemma PruneKeepsLeftover(cfg: Configuration, w: Consensus.World, b: Block, pruned: EpochChanges)
    requires Consensus.Invariant(w) && EpochsOk(cfg, w) && LeftoversScheduled(cfg, w)
    requires b in w.state.epochs && b !in w.state.blocks && OnChain(w.state.finalized, b)
    requires Prunes(w.state.epochs, w.state.finalized, pruned)
    ensures b in pruned
  {
    hide Scheduled, Timely, Consensus.Weighed, Consensus.Chosen;
    var s, p := w.state, w.state.epochs[b];
    assert LeftoverOk(cfg, w, b);
    LeftoverAnswers(cfg, w.announced, b, p);
    RootedHolds(s.blocks, s.finalized, s.best);
    SlotsGrow(s.blocks, s.finalized, b.parent);
    var t := p.next.start;
    assert Lookup(s.epochs, b, t) == Some(p.next);
    assert Lookup(pruned, b, t) == Lookup(s.epochs, b, t);
    NoEpochAtGenesis(cfg, w, pruned, t);
    assert b.parent.Child? ==> Lookup(s.epochs, b.parent, t) == Lookup(w.announced, b.parent, t);
    assert Lookup(pruned, b.parent, t) == Lookup(s.epochs, b.parent, t);
  }

  lemma NoEpochAtGenesis(cfg: Configuration, w: Consensus.World, pruned: EpochChanges, t: Slot)
    requires EpochsOk(cfg, w) && Prunes(w.state.epochs, w.state.finalized, pruned)
    ensures Lookup(pruned, Genesis, t) == None
  {
    hide AnswersLive, AllScheduled;
  }

  // ---- Importing the block again ----

  /** Nothing but the epoch tree stands in the way. */
  predicate Cooperative(env: Env)
  {
    && env.statusRead && env.headerRead && env.parentWeightRead && env.intermediate && env.viable
    && env.pruned.Some? && env.epochImported && env.bestWeightRead && env.inner.Imported?
  }

  /** A live leftover passes all checks before the epoch tree is asked. */
  lemma LeftoverPassesChecks(cfg: Configuration, w: Consensus.World, b: Block, env: Env)
    requires Consensus.Invariant(w) && EpochsOk(cfg, w) && LeftoversScheduled(cfg, w) && Cooperative(env)
    requires b in w.state.epochs && b !in w.state.blocks && OnChain(w.state.finalized, b)
    ensures b.Child? && ParentError(w.state, b, env).None? && !NoBestWeightFor(w.state, b, env)
    ensures Announces(cfg, w.state.epochs, b, w.state.epochs[b])
  {
    hide Scheduled, Announced, AnnouncementError, Lookup, AllScheduled, Consensus.Chosen;
    var s := w.state;
    assert LeftoverOk(cfg, w, b);
    RootedHolds(s.blocks, s.finalized, s.best);
    assert OnChain(s.finalized, b.parent);
    if b.parent.Child? {
      assert Live(s, b.parent);
    }
    if s.best != b.parent {
      Consensus.BestIsWeighed(w, b);
    }
  }

  /** With everything else in order, importing it again succeeds exactly if the tree takes duplicates, and then the epoch is the same. */
  lemma ReimportExactly(cfg: Configuration, w: Consensus.World, b: Block, env: Env)
    requires Consensus.Invariant(w) && EpochsOk(cfg, w) && LeftoversScheduled(cfg, w) && Cooperative(env)
    requires b in w.state.epochs && b !in w.state.blocks && OnChain(w.state.finalized, b)
    requires Consensus.Enabled(w, Consensus.ImportBlock(b, env))
    ensures var (s', outcome) := ImportStep(cfg, w.state, b, env);
            && outcome == (if env.duplicateRefused then Err(EpochChangesFailed) else Ok(true))
            && b in s'.epochs && s'.epochs[b] == w.state.epochs[b]
  {
    hide Announced, AnnouncementError, ParentError, EpochFor, NoBestWeightFor, TotalWeight, BecomesBest,
         OnChain, EpochsOk, LeftoversScheduled, Consensus.Invariant, Prunes;
    LeftoverPassesChecks(cfg, w, b, env);
    PruneKeepsLeftover(cfg, w, b, env.pruned.value);
  }

  /** So it is in every reachable state. */
  lemma ReimportAlongRun(
    cfg: Configuration, worlds: seq<Consensus.World>, events: seq<Consensus.Event>, i: nat, b: Block, env: Env)
    requires Consensus.Run(cfg, worlds, events) && cfg.epochLength > 0 && i < |worlds| && Cooperative(env)
    requires b in worlds[i].state.epochs && b !in worlds[i].state.blocks && OnChain(worlds[i].state.finalized, b)
    requires Consensus.Enabled(worlds[i], Consensus.ImportBlock(b, env))
    ensures var (s', outcome) := ImportStep(cfg, worlds[i].state, b, env);
            && outcome == (if env.duplicateRefused then Err(EpochChangesFailed) else Ok(true))
            && b in s'.epochs && s'.epochs[b] == worlds[i].state.epochs[b]
  {
    hide Consensus.Run, Consensus.Enabled, Consensus.Invariant, EpochsOk, LeftoversScheduled, ImportStep, OnChain;
    Consensus.InvariantAlongRun(cfg, worlds, events, i);
    EpochsAlongRun(cfg, worlds, events, i);
    LeftoversAlongRun(cfg, worlds, events, i);
    ReimportExactly(cfg, worlds[i], b, env);
  }

  // ---- Never imported where duplicates are refused ----

  /** The block is not imported, and its epoch is still there unless finality has left it behind. */
  ghost predicate Skipped(w: Consensus.World, b: Block)
  {
    b.Child? && b !in w.state.blocks && (b in w.state.epochs || !OnChain(w.state.finalized, b))
  }

  /** Imports of the block meet a tree that refuses duplicates. */
  predicate Refuses(e: Consensus.Event, b: Block)
  {
    e.ImportBlock? && e.block == b ==> e.env.duplicateRefused
  }

  lemma ImportKeepsSkipped(cfg: Configuration, w: Consensus.World, x: Block, env: Env, b: Block)
    requires Consensus.Invariant(w) && EpochsOk(cfg, w) && LeftoversScheduled(cfg, w) && Skipped(w, b)
    requires Consensus.Enabled(w, Consensus.ImportBlock(x, env)) && Refuses(Consensus.ImportBlock(x, env), b)
    ensures Skipped(Consensus.Step(cfg, w, Consensus.ImportBlock(x, env)), b)
  {
    hide ImportStep, EarlyError, LeftoversScheduled, EpochsOk, OnChain, Prunes, EpochsWith, Consensus.Invariant;
    var s, s' := w.state, ImportStep(cfg, w.state, x, env).0;
    ChangesAfter(cfg, w, x, env);
    if b in s.epochs && OnChain(s.finalized, b) && env.pruned.Some? {
      PruneKeepsLeftover(cfg, w, b, env.pruned.value);
    }
    if ImportStep(cfg, s, x, env).1 == Ok(true) {
      ImportedIsAnother(cfg, w, x, env, b);
    } else {
      Consensus.NotImportedKeeps(cfg, s, x, env);
    }
  }

  lemma ImportedIsAnother(cfg: Configuration, w: Consensus.World, x: Block, env: Env, b: Block)
    requires Consensus.Invariant(w) && EpochsOk(cfg, w) && LeftoversScheduled(cfg, w) && Skipped(w, b)
    requires Consensus.Enabled(w, Consensus.ImportBlock(x, env)) && Refuses(Consensus.ImportBlock(x, env), b)
    requires ImportStep(cfg, w.state, x, env).1 == Ok(true)
    ensures x != b && ImportStep(cfg, w.state, x, env).0.finalized == w.state.finalized
    ensures ImportStep(cfg, w.state, x, env).0.blocks == w.state.blocks + {x}
  {
    hide ImportStep, EarlyError, LeftoversScheduled, AnswersLive, AllScheduled, OnChain, Prunes, EpochsWith;
    Consensus.ImportedBlock(cfg, w.state, x, env);
    if x == b {
      PassedPruning(cfg, w.state, b, env);
      PruneKeepsLeftover(cfg, w, b, env.pruned.value);
    }
  }

  /** A tree that refuses duplicates lets an announcing block through only if pruning left no entry of its own. */
  lemma PassedPruning(cfg: Configuration, s: State, b: Block, env: Env)
    requires b.Child? && EarlyError(cfg, s, b, env).None? && b.announcements != [] && env.duplicateRefused
    ensures env.pruned.Some? && b !in env.pruned.value
  {
  }

  lemma StepKeepsSkipped(cfg: Configuration, w: Consensus.World, e: Consensus.Event, b: Block)
    requires Consensus.Invariant(w) && EpochsOk(cfg, w) && LeftoversScheduled(cfg, w) && Skipped(w, b)
    requires Consensus.Enabled(w, e) && Refuses(e, b)
    ensures Skipped(Consensus.Step(cfg, w, e), b)
  {
    hide ImportStep, Consensus.Invariant, EpochsOk, LeftoversScheduled, ExpandForks, Dropped, OnChain, Prunes, StaleHeads;
    match e {
      case ImportBlock(x, env) => ImportKeepsSkipped(cfg, w, x, env, b);
      case Finalize(f, _) =>
        if OnChain(f, b) {
          OnChainTransitive(w.state.finalized, f, b);
        }
    }
  }

  /** A block whose epoch was recorded without it is never imported afterwards, if the tree refuses it as a duplicate. */
  lemma {:induction false} SkippedIsNeverImported(
    cfg: Configuration, worlds: seq<Consensus.World>, events: seq<Consensus.Event>, i: nat, j: nat, b: Block)
    requires Consensus.Run(cfg, worlds, events) && cfg.epochLength > 0 && i <= j < |worlds|
    requires b in worlds[i].state.epochs && b.Child? && b !in worlds[i].state.blocks
    requires forall k :: i <= k < j ==> Refuses(events[k], b)
    ensures Skipped(worlds[j], b) && b !in worlds[j].state.blocks
    decreases j
  {
    hide Consensus.Step, Consensus.Enabled, Consensus.Invariant, EpochsOk, LeftoversScheduled, Refuses;
    if i < j {
      SkippedIsNeverImported(cfg, worlds, events, i, j - 1, b);
      Consensus.InvariantAlongRun(cfg, worlds, events, j - 1);
      EpochsAlongRun(cfg, worlds, events, j - 1);
      LeftoversAlongRun(cfg, worlds, events, j - 1);
      assert worlds[j] == Consensus.Step(cfg, worlds[j - 1], events[j - 1]);
      StepKeepsSkipped(cfg, worlds[j - 1], events[j - 1], b);
    }
  }
}
