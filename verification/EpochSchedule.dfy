/**
 The epoch schedule of every accepted chain, with any epochs skipped: epoch k
 covers the slots from genesis slot + k * duration, a block announces the next
 epoch exactly when it is the first of its chain in its epoch, and always before
 that epoch starts.
 */
module EpochSchedule {
  import opened Common
  import opened Epochs
  import opened BlockTree
  import opened Import
  import opened Finality
  import Consensus

  /** The slot of the first block of the chain. */
  function GenesisSlot(b: Block): Slot
  {
    if b.Genesis? then 0 else if b.parent.Genesis? then b.slot else GenesisSlot(b.parent)
  }

  /** The epoch most recently announced on the chain. */
  function PendingOf(all: EpochChanges, b: Block): Option<Epoch>
  {
    if b in all then Some(all[b].next) else if b.Child? then PendingOf(all, b.parent) else None
  }

  /** The epoch is on schedule, and the slot lies in the epoch just before it. */
  ghost predicate Timely(duration: nat, genesisSlot: Slot, slot: Slot, next: Epoch)
  {
    && next.duration == duration && next.index >= 1
    && next.start == genesisSlot + next.index * duration
    && next.start - duration <= slot < next.start
  }

  /** Looking up a slot gives the pending epoch once it has started, and before that one that had started by the block. */
  ghost predicate Answers(found: Option<Epoch>, next: Epoch, blockSlot: Slot, slot: Slot)
  {
    found.Some? && if slot >= next.start then found.value == next else found.value.start <= blockSlot
  }

  /** The configuration of the epoch that a first block falls in. */
  function Inherited(cfg: Configuration, all: EpochChanges, b: Block): EpochConfig
    requires b.Child?
  {
    var current := PendingOf(all, b.parent);
    if b.parent.Child? && current.Some? then current.value.config else cfg.config
  }

  /** The recorded epoch has the authorities and randomness the block announced, and its configuration or the inherited one. */
  ghost predicate Carries(cfg: Configuration, all: EpochChanges, b: Block)
    requires b.Child? && b in all
  {
    && b.announcements != []
    && all[b].next.authorities == b.announcements[0].authorities
    && all[b].next.randomness == b.announcements[0].randomness
    && all[b].next.config == (if b.configs != [] then b.configs[0] else Inherited(cfg, all, b))
    && (b.parent.Genesis? <==> all[b].First?)
    && (b.parent.Genesis? ==> all[b].genesis == Epoch(0, b.slot, cfg.epochLength, cfg.authorities, cfg.randomness, cfg.config))
  }

  ghost predicate Scheduled(cfg: Configuration, all: EpochChanges, b: Block)
    requires b.Child?
  {
    var next := PendingOf(all, b);
    && (b in all ==> Carries(cfg, all, b))
    && next.Some? && Timely(cfg.epochLength, GenesisSlot(b), b.slot, next.value)
    && (forall t :: t >= b.slot ==> Answers(Lookup(all, b, t), next.value, b.slot, t))
    && (b in all <==> b.announcements != [])
    && (if b.parent.Genesis? then b in all
        else PendingOf(all, b.parent).Some? && (b in all <==> b.slot >= PendingOf(all, b.parent).value.start))
  }

  // ---- One block ----

  lemma {:induction false} ElsewhereSame(all: EpochChanges, a: Block, p: Persisted, b: Block, slot: Slot)
    requires !OnChain(a, b)
    ensures Lookup(all[a := p], b, slot) == Lookup(all, b, slot) && PendingOf(all[a := p], b) == PendingOf(all, b)
  {
    if b.Child? {
      ElsewhereSame(all, a, p, b.parent, slot);
    }
  }

  lemma NextOnSchedule(g: int, index: int, d: int, skipped: int)
    ensures g + index * d + skipped * d + d == g + (index + skipped + 1) * d
  {
  }

  /** The epoch announced at a slot of the viable epoch or after it is on schedule. */
  lemma NextEpochTimely(viable: Epoch, b: Block, g: Slot)
    requires b.Child? && |b.announcements| == 1 && viable.duration > 0
    requires viable.start == g + viable.index * viable.duration && viable.start <= b.slot
    ensures Timely(viable.duration, g, b.slot, NextEpoch(viable, b))
    ensures NextEpoch(viable, b).authorities == b.announcements[0].authorities
    ensures NextEpoch(viable, b).randomness == b.announcements[0].randomness
    ensures NextEpoch(viable, b).config == if b.configs != [] then b.configs[0] else viable.config
  {
    var current := if viable.EndSlot() <= b.slot then viable.CloneForSlot(b.slot) else viable;
    NextOnSchedule(g, viable.index, viable.duration, current.index - viable.index);
  }

  lemma FirstScheduled(cfg: Configuration, all: EpochChanges, b: Block)
    requires cfg.epochLength > 0 && b.Child? && b.parent.Genesis? && |b.announcements| == 1
    ensures Scheduled(cfg, all[b := Announced(GenesisEpoch(cfg, b.slot), b)], b)
  {
    hide NextEpoch;
    var viable := GenesisEpoch(cfg, b.slot);
    var all' := all[b := Announced(viable, b)];
    NextEpochTimely(viable, b, b.slot);
    forall t | t >= b.slot
      ensures Answers(Lookup(all', b, t), NextEpoch(viable, b), b.slot, t)
    {
    }
  }

  /** Before the pending epoch starts a block is not the first in its epoch and announces nothing. */
  lemma QuietScheduled(cfg: Configuration, all: EpochChanges, b: Block)
    requires b.Child? && b.parent.Child? && b !in all && Scheduled(cfg, all, b.parent) && b.announcements == []
    requires SlotOf(b.parent) < b.slot < PendingOf(all, b.parent).value.start
    ensures Scheduled(cfg, all, b)
  {
    var next := PendingOf(all, b.parent).value;
    forall t | t >= b.slot
      ensures Answers(Lookup(all, b, t), next, b.slot, t)
    {
      assert Answers(Lookup(all, b.parent, t), next, b.parent.slot, t);
    }
  }

  /** Once it has started the first block in it announces the next one. */
  lemma AnnouncingScheduled(cfg: Configuration, all: EpochChanges, b: Block)
    requires cfg.epochLength > 0 && b.Child? && b.parent.Child? && Scheduled(cfg, all, b.parent) && |b.announcements| == 1
    requires b.slot > SlotOf(b.parent) && b.slot >= PendingOf(all, b.parent).value.start
    ensures Scheduled(cfg, all[b := Announced(PendingOf(all, b.parent).value, b)], b)
  {
    hide NextEpoch;
    var viable := PendingOf(all, b.parent).value;
    var all' := all[b := Announced(viable, b)];
    var next := NextEpoch(viable, b);
    NextEpochTimely(viable, b, GenesisSlot(b));
    NotOnOwnParent(b);
    forall t | t >= b.slot
      ensures Answers(Lookup(all', b, t), next, b.slot, t)
    {
      ElsewhereSame(all, b, all'[b], b.parent, t);
      assert Answers(Lookup(all, b.parent, t), viable, b.parent.slot, t);
    }
    ElsewhereSame(all, b, all'[b], b.parent, b.slot);
  }

  /** On a scheduled chain being first in an epoch means that the pending epoch has started. */
  lemma Follow(cfg: Configuration, all: EpochChanges, b: Block)
    requires b.Child? && b.parent.Child? && Scheduled(cfg, all, b.parent) && b.slot > SlotOf(b.parent)
    requires Lookup(all, b.parent, b.slot).Some?
    ensures PendingOf(all, b.parent).Some?
    ensures SlotOf(b.parent) < Lookup(all, b.parent, b.slot).value.start <==> b.slot >= PendingOf(all, b.parent).value.start
    ensures b.slot >= PendingOf(all, b.parent).value.start ==> Lookup(all, b.parent, b.slot) == PendingOf(all, b.parent)
  {
    assert Answers(Lookup(all, b.parent, b.slot), PendingOf(all, b.parent).value, b.parent.slot, b.slot);
  }

  /** A block that passes the announcement checks on a scheduled chain keeps it scheduled. */
  lemma NewBlockScheduled(cfg: Configuration, all: EpochChanges, b: Block)
    requires cfg.epochLength > 0 && b.Child? && b !in all && b.slot > SlotOf(b.parent)
    requires b.parent.Child? ==> Scheduled(cfg, all, b.parent)
    requires var viable := EpochFor(cfg, all, b.parent, b.slot);
             && viable.Some? && AnnouncementError(b, SlotOf(b.parent) < viable.value.start).None?
             && (b.announcements != [] ==> viable.value.duration > 0)
    ensures b.announcements == [] ==> Scheduled(cfg, all, b)
    ensures b.announcements != [] ==>
              Scheduled(cfg, all[b := Announced(EpochFor(cfg, all, b.parent, b.slot).value, b)], b)
  {
    hide AnnouncementError, Announced, Scheduled;
    if b.parent.Genesis? {
      FirstScheduled(cfg, all, b);
    } else {
      Follow(cfg, all, b);
      if b.announcements == [] {
        QuietScheduled(cfg, all, b);
      } else {
        AnnouncingScheduled(cfg, all, b);
      }
    }
  }

  // ---- Runs ----

  /** The pruned tree still answers like the full record for everything above the finalized block. */
  ghost predicate AnswersLive(s: State, all: EpochChanges)
  {
    forall p, t :: p in s.blocks && OnChain(s.finalized, p) && t >= SlotOf(p) ==> Lookup(s.epochs, p, t) == Lookup(all, p, t)
  }

  ghost predicate AllScheduled(cfg: Configuration, blocks: set<Block>, all: EpochChanges)
  {
    forall b :: b in blocks && b.Child? ==> Scheduled(cfg, all, b)
  }

  ghost predicate EpochsOk(cfg: Configuration, w: Consensus.World)
  {
    && (forall a :: a in w.state.epochs ==> a.Child? && a.announcements != [])
    && (forall a :: a in w.announced ==> a in w.state.blocks)
    && AnswersLive(w.state, w.announced)
    && AllScheduled(cfg, w.state.blocks, w.announced)
  }

  lemma {:induction false} SlotsGrow(blocks: set<Block>, a: Block, b: Block)
    requires Rooted(blocks) && b in blocks && OnChain(a, b)
    requires forall x :: x in blocks && x.Child? ==> x.slot > SlotOf(x.parent)
    ensures SlotOf(a) <= SlotOf(b)
  {
    if a != b {
      SlotsGrow(blocks, a, b.parent);
    }
  }

  lemma NewOnNoChain(blocks: set<Block>, b: Block, p: Block)
    requires Rooted(blocks) && p in blocks && b !in blocks
    ensures !OnChain(b, p)
  {
    if OnChain(b, p) {
      RootedHolds(blocks, b, p);
    }
  }

  /** Whatever an import does to the epoch changes, successful or not, the answers for the blocks there stay. */
  lemma ImportKeepsAnswers(cfg: Configuration, w: Consensus.World, b: Block, env: Env)
    requires Consensus.Shape(w) && Consensus.Enabled(w, Consensus.ImportBlock(b, env))
    ensures var s, s' := w.state, ImportStep(cfg, w.state, b, env).0;
            && (forall p, t :: p in s.blocks && OnChain(s.finalized, p) && t >= SlotOf(p) ==>
                  Lookup(s'.epochs, p, t) == Lookup(s.epochs, p, t))
            && (forall a :: a in s'.epochs ==> a in s.epochs || (a == b && b.Child? && b.announcements != []))
  {
    hide EarlyError, Announced, EpochFor, TotalWeight, BecomesBest, OnChain;
    var s, s' := w.state, ImportStep(cfg, w.state, b, env).0;
    if s'.epochs != s.epochs {
      PrunedThenAnnounced(cfg, s, b, env);
      forall p, t | p in s.blocks && OnChain(s.finalized, p) && t >= SlotOf(p)
        ensures Lookup(s'.epochs, p, t) == Lookup(s.epochs, p, t)
      {
        NewOnNoChain(s.blocks, b, p);
        SlotsGrow(s.blocks, s.finalized, p);
        ElsewhereSame(env.pruned.value, b, s'.epochs[b], p, t);
      }
    }
  }

  lemma PrunedThenAnnounced(cfg: Configuration, s: State, b: Block, env: Env)
    requires ImportStep(cfg, s, b, env).0.epochs != s.epochs
    ensures var changes := ImportStep(cfg, s, b, env).0.epochs;
            && b !in s.blocks && b.Child? && b.announcements != [] && env.pruned.Some? && b in changes
            && changes == env.pruned.value[b := changes[b]]
  {
    hide Announced, ParentError, AnnouncementError, Lookup, TotalWeight, BecomesBest;
  }

  /** What an import that is let through adds to the epoch changes, in terms of the full record. */
  lemma LetThroughEpoch(cfg: Configuration, w: Consensus.World, b: Block, env: Env)
    requires Consensus.Invariant(w) && EpochsOk(cfg, w) && b.Child? && b !in w.state.blocks
    requires EarlyError(cfg, w.state, b, env).None?
    ensures b.parent in w.state.blocks && b.slot > SlotOf(b.parent)
    ensures var changes, viable := EpochsWith(cfg, w.state, b, env), EpochFor(cfg, w.announced, b.parent, b.slot);
            && viable.Some? && AnnouncementError(b, SlotOf(b.parent) < viable.value.start).None?
            && (b in changes <==> b.announcements != [])
            && (b.announcements != [] ==> viable.value.duration > 0 && changes[b] == Announced(viable.value, b))
  {
    hide Announced, AnnouncementError, ParentError, Lookup, OnChain, AllScheduled, Consensus.Chosen;
    if b.parent.Child? {
      assert Live(w.state, b.parent);
    }
    assert EpochFor(cfg, w.announced, b.parent, b.slot) == EpochFor(cfg, w.state.epochs, b.parent, b.slot);
  }

  /** What a successful import records, in terms of the full record. */
  lemma ImportedEpoch(cfg: Configuration, w: Consensus.World, b: Block, env: Env)
    requires Consensus.Invariant(w) && EpochsOk(cfg, w) && Consensus.Enabled(w, Consensus.ImportBlock(b, env))
    requires ImportStep(cfg, w.state, b, env).1 == Ok(true) && cfg.epochLength > 0
    ensures b.Child? && b !in w.state.blocks && b.parent in w.state.blocks && b.slot > SlotOf(b.parent)
    ensures OnChain(w.state.finalized, b.parent)
    ensures var s', viable := ImportStep(cfg, w.state, b, env).0, EpochFor(cfg, w.announced, b.parent, b.slot);
            && viable.Some? && AnnouncementError(b, SlotOf(b.parent) < viable.value.start).None?
            && (b in s'.epochs <==> b.announcements != [])
            && (b.announcements != [] ==> viable.value.duration > 0 && s'.epochs[b] == Announced(viable.value, b))
  {
    hide ImportStep, EarlyError, EpochsWith, EpochsOk;
    Consensus.ImportedBlock(cfg, w.state, b, env);
    LetThroughEpoch(cfg, w, b, env);
  }

  lemma ScheduledElsewhere(cfg: Configuration, all: EpochChanges, a: Block, p: Persisted, b: Block)
    requires b.Child? && Scheduled(cfg, all, b) && !OnChain(a, b)
    ensures Scheduled(cfg, all[a := p], b)
  {
    var all' := all[a := p];
    ElsewhereSame(all, a, p, b, b.slot);
    ElsewhereSame(all, a, p, b.parent, b.slot);
    forall t | t >= b.slot
      ensures Lookup(all', b, t) == Lookup(all, b, t)
    {
      ElsewhereSame(all, a, p, b, t);
    }
  }

  lemma ImportKeepsSchedule(cfg: Configuration, w: Consensus.World, b: Block, env: Env)
    requires Consensus.Invariant(w) && EpochsOk(cfg, w) && Consensus.Enabled(w, Consensus.ImportBlock(b, env))
    requires ImportStep(cfg, w.state, b, env).1 == Ok(true) && cfg.epochLength > 0
    ensures var w' := Consensus.Step(cfg, w, Consensus.ImportBlock(b, env));
            AllScheduled(cfg, w.state.blocks + {b}, w'.announced)
  {
    hide ImportStep, Scheduled, AnnouncementError, Announced, OnChain, EpochFor, Consensus.Shape, Consensus.Weighed, Consensus.Chosen, AnswersLive;
    ImportedEpoch(cfg, w, b, env);
    var w' := Consensus.Step(cfg, w, Consensus.ImportBlock(b, env));
    NewBlockScheduled(cfg, w.announced, b);
    Consensus.RootedByShape(w);
    if b.announcements != [] {
      forall x | x in w.state.blocks && x.Child?
        ensures Scheduled(cfg, w'.announced, x)
      {
        NewOnNoChain(w.state.blocks, b, x);
        ScheduledElsewhere(cfg, w.announced, b, w'.announced[b], x);
      }
    }
  }

  lemma ImportKeepsEpochs(cfg: Configuration, w: Consensus.World, b: Block, env: Env)
    requires Consensus.Invariant(w) && EpochsOk(cfg, w) && cfg.epochLength > 0
    requires Consensus.Enabled(w, Consensus.ImportBlock(b, env)) && ImportStep(cfg, w.state, b, env).1 == Ok(true)
    ensures EpochsOk(cfg, Consensus.Step(cfg, w, Consensus.ImportBlock(b, env)))
  {
    hide ImportStep, Scheduled, AnnouncementError, Announced, EpochFor, AllScheduled, Consensus.Weighed, Consensus.Chosen, Prunes;
    var s := w.state;
    var w' := Consensus.Step(cfg, w, Consensus.ImportBlock(b, env));
    ImportedEpoch(cfg, w, b, env);
    ImportKeepsAnswers(cfg, w, b, env);
    ImportKeepsSchedule(cfg, w, b, env);
    Consensus.ImportedBlock(cfg, s, b, env);
    forall p, t | p in w'.state.blocks && OnChain(s.finalized, p) && t >= SlotOf(p)
      ensures Lookup(w'.state.epochs, p, t) == Lookup(w'.announced, p, t)
    {
      if p == b {
        AnswersExtend(s, w'.state.epochs, w.announced, w'.announced, b, b.parent, t);
      } else {
        AnswersExtend(s, w'.state.epochs, w.announced, w'.announced, b, p, t);
      }
    }
  }

  /** Both records get the same new entry, or neither does. */
  lemma AnswersExtend(s: State, epochs': EpochChanges, all: EpochChanges, all': EpochChanges, b: Block, p: Block, t: Slot)
    requires Rooted(s.blocks) && p in s.blocks && b !in s.blocks && OnChain(s.finalized, p) && t >= SlotOf(p)
    requires AnswersLive(s, all) && Lookup(epochs', p, t) == Lookup(s.epochs, p, t)
    requires all' == if b in epochs' then all[b := epochs'[b]] else all
    ensures Lookup(epochs', p, t) == Lookup(all', p, t)
  {
    NewOnNoChain(s.blocks, b, p);
    if b in epochs' {
      ElsewhereSame(all, b, epochs'[b], p, t);
    }
  }

  lemma StepKeepsEpochs(cfg: Configuration, w: Consensus.World, e: Consensus.Event)
    requires Consensus.Invariant(w) && EpochsOk(cfg, w) && cfg.epochLength > 0 && Consensus.Enabled(w, e)
    ensures EpochsOk(cfg, Consensus.Step(cfg, w, e))
  {
    hide ImportStep, AllScheduled, Lookup, Prunes, Dropped, ExpandForks, StaleHeads, OnChain;
    match e {
      case ImportBlock(b, env) =>
        if ImportStep(cfg, w.state, b, env).1 == Ok(true) {
          ImportKeepsEpochs(cfg, w, b, env);
        } else {
          Consensus.NotImportedKeeps(cfg, w.state, b, env);
          ImportKeepsAnswers(cfg, w, b, env);
        }
      case Finalize(f, heads) =>
        forall p | OnChain(f, p)
          ensures OnChain(w.state.finalized, p)
        {
          OnChainTransitive(w.state.finalized, f, p);
        }
    }
  }

  lemma {:induction false} EpochsAlongRun(
    cfg: Configuration, worlds: seq<Consensus.World>, events: seq<Consensus.Event>, i: nat)
    requires Consensus.Run(cfg, worlds, events) && cfg.epochLength > 0 && i < |worlds|
    ensures EpochsOk(cfg, worlds[i])
  {
    hide Consensus.Step, Consensus.Enabled, EpochsOk;
    if i == 0 {
      StartOk(cfg);
    } else {
      EpochsAlongRun(cfg, worlds, events, i - 1);
      Consensus.InvariantAlongRun(cfg, worlds, events, i - 1);
      assert worlds[i] == Consensus.Step(cfg, worlds[i - 1], events[i - 1]);
      StepKeepsEpochs(cfg, worlds[i - 1], events[i - 1]);
    }
  }

  lemma StartOk(cfg: Configuration)
    ensures EpochsOk(cfg, Consensus.START)
  {
  }

  // ---- The schedule ----

  /** The first slot of epoch k on a chain whose first block has the given slot. */
  function EpochStart(genesisSlot: Slot, duration: nat, k: nat): Slot { genesisSlot + k * duration }

  /** The index of the epoch a block is in, counted from the first block of its chain. */
  function EpochIndex(duration: nat, b: Block): nat
    requires b.Child? && duration > 0
  {
    IndexAt(GenesisSlot(b), duration, b.slot)
  }

  function IndexAt(genesisSlot: Slot, duration: nat, slot: Slot): nat
    requires duration > 0
  {
    if slot < genesisSlot then 0 else (slot - genesisSlot) / duration
  }

  lemma GridIndex(x: int, d: int, index: int)
    requires d > 0 && index >= 1 && index * d - d <= x < index * d
    ensures 0 <= x && x / d == index - 1 && (index - 1) * d == index * d - d
  {
    EpochsApart(d, 0, index);
    assert x == x / d * d + x % d;
    OneEpochPerSlot(0, d, index - 1, x / d, x);
  }

  lemma IndexOnGrid(g: nat, d: nat, slot: nat, index: nat)
    requires d > 0 && index >= 1 && g + index * d - d <= slot < g + index * d
    ensures IndexAt(g, d, slot) == index - 1 && EpochStart(g, d, index - 1) == g + index * d - d
  {
    GridIndex(slot - g, d, index);
  }

  lemma TimelyIndex(duration: nat, b: Block, next: Epoch)
    requires b.Child? && duration > 0 && Timely(duration, GenesisSlot(b), b.slot, next)
    ensures next.index == EpochIndex(duration, b) + 1
    ensures next.start == EpochStart(GenesisSlot(b), duration, EpochIndex(duration, b) + 1)
    ensures EpochStart(GenesisSlot(b), duration, EpochIndex(duration, b)) <= b.slot < next.start
  {
    hide IndexAt, GenesisSlot;
    IndexOnGrid(GenesisSlot(b), duration, b.slot, next.index);
  }

  /** Epochs follow one another without overlap. */
  lemma StartsInOrder(g: Slot, d: nat, k: nat, k': nat)
    requires d > 0
    ensures k < k' <==> EpochStart(g, d, k + 1) <= EpochStart(g, d, k')
    ensures k < k' <==> EpochStart(g, d, k) < EpochStart(g, d, k')
  {
    EpochsApart(d, k, k');
    EpochsApart(d, k', k);
  }

  /** The block announces exactly as the first of its chain in its epoch, and the next epoch on the grid is pending after it. */
  ghost predicate OnSchedule(d: nat, all: EpochChanges, b: Block)
    requires b.Child? && d > 0
  {
    var g, k := GenesisSlot(b), EpochIndex(d, b);
    && EpochStart(g, d, k) <= b.slot < EpochStart(g, d, k + 1)
    && (b in all <==> b.announcements != [])
    && (b in all <==> b.parent.Genesis? || EpochIndex(d, b.parent) < k)
    && PendingOf(all, b).Some?
    && PendingOf(all, b).value.index == k + 1 && PendingOf(all, b).value.duration == d
    && PendingOf(all, b).value.start == EpochStart(g, d, k + 1)
    && (b in all ==> all[b].next == PendingOf(all, b).value)
  }

  lemma ScheduledOnGrid(cfg: Configuration, all: EpochChanges, b: Block)
    requires b.Child? && cfg.epochLength > 0
    requires Scheduled(cfg, all, b) && (b.parent.Child? ==> Scheduled(cfg, all, b.parent))
    ensures OnSchedule(cfg.epochLength, all, b)
  {
    var d := cfg.epochLength;
    hide EpochStart, EpochIndex, Lookup;
    TimelyIndex(d, b, PendingOf(all, b).value);
    if b.parent.Child? {
      TimelyIndex(d, b.parent, PendingOf(all, b.parent).value);
      var g, k, k' := GenesisSlot(b), EpochIndex(d, b.parent), EpochIndex(d, b);
      StartsInOrder(g, d, k, k');
      StartsInOrder(g, d, k', k + 1);
    }
  }

  /** Every imported block of every reachable state is on schedule. */
  lemma ScheduleHolds(cfg: Configuration, worlds: seq<Consensus.World>, events: seq<Consensus.Event>, i: nat, b: Block)
    requires Consensus.Run(cfg, worlds, events) && cfg.epochLength > 0 && i < |worlds|
    requires b in worlds[i].state.blocks && b.Child?
    ensures OnSchedule(cfg.epochLength, worlds[i].announced, b)
  {
    hide Consensus.Run, Scheduled, OnSchedule;
    EpochsAlongRun(cfg, worlds, events, i);
    Consensus.InvariantAlongRun(cfg, worlds, events, i);
    ScheduledOnGrid(cfg, worlds[i].announced, b);
  }

  /** What was announced is what is recorded. */
  lemma AnnouncementsAreRecorded(cfg: Configuration, worlds: seq<Consensus.World>, events: seq<Consensus.Event>, i: nat, b: Block)
    requires Consensus.Run(cfg, worlds, events) && cfg.epochLength > 0 && i < |worlds|
    requires b in worlds[i].announced && b.Child?
    ensures Carries(cfg, worlds[i].announced, b)
  {
    hide Consensus.Run, Carries;
    EpochsAlongRun(cfg, worlds, events, i);
    assert Scheduled(cfg, worlds[i].announced, b);
  }

  lemma {:induction false} SameGenesisSlot(a: Block, b: Block)
    requires OnChain(a, b) && a.Child?
    ensures b.Child? && GenesisSlot(a) == GenesisSlot(b)
  {
    if a != b {
      SameGenesisSlot(a, b.parent);
    }
  }

  lemma {:induction false} EpochGrows(d: nat, all: EpochChanges, blocks: set<Block>, a: Block, b: Block)
    requires d > 0 && Rooted(blocks) && b in blocks && OnChain(a, b) && a.Child? && b.Child?
    requires forall x :: x in blocks && x.Child? ==> x.slot > SlotOf(x.parent) && OnSchedule(d, all, x)
    ensures EpochIndex(d, a) <= EpochIndex(d, b)
  {
    hide EpochIndex, EpochStart, PendingOf;
    if a != b {
      SameGenesisSlot(a, b.parent);
      EpochGrows(d, all, blocks, a, b.parent);
      assert OnSchedule(d, all, b) && OnSchedule(d, all, b.parent);
      StartsInOrder(GenesisSlot(b), d, EpochIndex(d, b), EpochIndex(d, b.parent));
    }
  }

  /** Two announcing blocks of one chain announce different epochs, the later one a later epoch. */
  lemma OneAnnouncementPerEpoch(
    cfg: Configuration, worlds: seq<Consensus.World>, events: seq<Consensus.Event>, i: nat, a: Block, b: Block)
    requires Consensus.Run(cfg, worlds, events) && cfg.epochLength > 0 && i < |worlds|
    requires a in worlds[i].announced && b in worlds[i].announced && OnChain(a, b) && a != b && a.Child?
    ensures worlds[i].announced[a].next.index < worlds[i].announced[b].next.index
    ensures worlds[i].announced[a].next.start < worlds[i].announced[b].next.start
  {
    hide Consensus.Run, AllScheduled, AnswersLive, OnSchedule, EpochIndex, EpochStart;
    EpochsAlongRun(cfg, worlds, events, i);
    Consensus.InvariantAlongRun(cfg, worlds, events, i);
    var d, all, blocks := cfg.epochLength, worlds[i].announced, worlds[i].state.blocks;
    forall x | x in blocks && x.Child?
      ensures OnSchedule(d, all, x)
    {
      ScheduleHolds(cfg, worlds, events, i, x);
    }
    EpochGrows(d, all, blocks, a, b.parent);
    AnnouncedLater(d, all, a, b);
  }

  lemma AnnouncedLater(d: nat, all: EpochChanges, a: Block, b: Block)
    requires d > 0 && a.Child? && b.Child? && b.parent.Child? && OnChain(a, b.parent) && a in all && b in all
    requires OnSchedule(d, all, a) && OnSchedule(d, all, b) && EpochIndex(d, a) <= EpochIndex(d, b.parent)
    ensures all[a].next.index < all[b].next.index && all[a].next.start < all[b].next.start
  {
    hide EpochIndex, EpochStart;
    SameGenesisSlot(a, b.parent);
    StartsInOrder(GenesisSlot(b), d, EpochIndex(d, a) + 1, EpochIndex(d, b) + 1);
  }
}
