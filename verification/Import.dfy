/**
 Importing a block: the epoch changes, the block weight and the fork choice.

 The epoch tree is external. It is used through what its callers rely on: the
 epoch for a slot is the deepest one announced on the chain that has started,
 and pruning keeps that answer for everything above the finalized block. Whether the
 tree refuses a block that it records already is left to the environment.
 */
module Import {
  import opened Common
  import opened Epochs
  import opened BlockTree

  // ---- The epoch tree ----

  /** The first block of a chain records the genesis epoch along with the next one. */
  datatype Persisted = First(genesis: Epoch, next: Epoch) | Later(next: Epoch)

  type EpochChanges = map<Block, Persisted>

  function StartOf(p: Persisted): Slot { if p.First? then p.genesis.start else p.next.start }

  function Pick(p: Persisted, slot: Slot): Epoch { if p.First? && slot < p.next.start then p.genesis else p.next }

  /** The deepest epoch announced on the chain of the block that has started by the slot. */
  function Lookup(changes: EpochChanges, b: Block, slot: Slot): Option<Epoch>
  {
    if b in changes && StartOf(changes[b]) <= slot then Some(Pick(changes[b], slot))
    else if b.Child? then Lookup(changes, b.parent, slot)
    else None
  }

  /** The epoch for a child of the given block; the first block brings its own. */
  function EpochFor(cfg: Configuration, changes: EpochChanges, parent: Block, slot: Slot): Option<Epoch>
  {
    if parent.Genesis? then Some(GenesisEpoch(cfg, slot)) else Lookup(changes, parent, slot)
  }

  ghost predicate Prunes(changes: EpochChanges, finalized: Block, pruned: EpochChanges)
  {
    && (forall a :: a in pruned ==> a in changes && pruned[a] == changes[a])
    && (forall p, slot :: OnChain(finalized, p) && slot >= SlotOf(finalized) ==>
          Lookup(pruned, p, slot) == Lookup(changes, p, slot))
  }

  // ---- One import ----

  datatype State = State(
    blocks: set<Block>,
    best: Block,
    finalized: Block,
    weights: map<Block, nat>,
    epochs: EpochChanges)

  datatype Inner = Imported | NotImported | Failed

  /** What the database, the epoch tree and the wrapped importer answer. */
  datatype Env = Env(
    statusRead: bool,
    headerRead: bool,
    parentWeightRead: bool,
    intermediate: bool,
    viable: bool,
    pruned: Option<EpochChanges>,
    epochImported: bool,
    duplicateRefused: bool,
    bestWeightRead: bool,
    inner: Inner)

  datatype ImportError =
    | ClientImport | ChainLookup | ParentUnavailable | SlotMustIncrease | ParentBlockNoAssociatedWeight | NoIntermediate
    | MultipleEpochChangeDigests | MultipleConfigChangeDigests | UnexpectedConfigChange | ExpectedEpochChange
    | UnexpectedEpochChange | FetchEpoch | EpochChangesFailed | NoBestWeight | InnerFailed
    | DivisionByZero // an epoch of no length stops the node

  datatype Outcome = Ok(imported: bool) | Err(error: ImportError)

  function ParentError(s: State, b: Block, env: Env): (error: Option<ImportError>)
    requires b.Child?
    ensures error.None? ==> b.parent in s.blocks && b.slot > SlotOf(b.parent) && (b.parent.Child? ==> b.parent in s.weights)
  {
    if !env.headerRead then Some(ChainLookup)
    else if b.parent !in s.blocks then Some(ParentUnavailable)
    else if b.slot <= SlotOf(b.parent) then Some(SlotMustIncrease)
    else if b.parent.Child? && !env.parentWeightRead then Some(ClientImport)
    else if b.parent.Child? && b.parent !in s.weights then Some(ParentBlockNoAssociatedWeight)
    else None
  }

  function ParentWeight(s: State, b: Block): nat
    requires b.Child?
  {
    if b.parent in s.weights && b.parent.Child? then s.weights[b.parent] else 0
  }

  function TotalWeight(s: State, b: Block): nat
    requires b.Child?
  {
    ParentWeight(s, b) + if b.primary then 1 else 0
  }

  /** A block announces the next epoch exactly when it is the first in its epoch. */
  function AnnouncementError(b: Block, first: bool): (error: Option<ImportError>)
    requires b.Child?
    ensures error.None? ==> |b.announcements| == (if first then 1 else 0) && |b.configs| <= |b.announcements|
  {
    if |b.announcements| > 1 then Some(MultipleEpochChangeDigests)
    else if |b.configs| > 1 then Some(MultipleConfigChangeDigests)
    else if first && b.announcements == [] then Some(ExpectedEpochChange)
    else if !first && b.announcements != [] then Some(UnexpectedEpochChange)
    else if !first && b.configs != [] then Some(UnexpectedConfigChange)
    else None
  }

  /** The announced epoch follows the one the slot is in, skipped epochs included. */
  function NextEpoch(viable: Epoch, b: Block): Epoch
    requires b.Child? && |b.announcements| == 1 && viable.duration > 0
  {
    var config := if b.configs != [] then b.configs[0] else viable.config;
    var current := if viable.EndSlot() <= b.slot then viable.CloneForSlot(b.slot) else viable;
    current.Increment(b.announcements[0], config)
  }

  function Announced(viable: Epoch, b: Block): Persisted
    requires b.Child? && |b.announcements| == 1 && viable.duration > 0
  {
    if b.parent.Genesis? then First(viable, NextEpoch(viable, b)) else Later(NextEpoch(viable, b))
  }

  /** The errors that leave before the epoch changes are touched for good. */
  function EarlyError(cfg: Configuration, s: State, b: Block, env: Env): Option<ImportError>
    requires b.Child?
  {
    var epoch := EpochFor(cfg, s.epochs, b.parent, b.slot);
    if ParentError(s, b, env).Some? then ParentError(s, b, env)
    else if !env.intermediate || epoch.None? then Some(NoIntermediate)
    else
      var announcement := AnnouncementError(b, SlotOf(b.parent) < epoch.value.start);
      if announcement.Some? then announcement
      else if b.announcements == [] then None
      else if !env.viable then Some(FetchEpoch)
      else if epoch.value.duration == 0 then Some(DivisionByZero)
      else if env.pruned.None? then Some(ClientImport)
      else if !env.epochImported || (env.duplicateRefused && b in env.pruned.value) then Some(EpochChangesFailed)
      else None
  }

  /** The epoch changes once the block has been let through. */
  function EpochsWith(cfg: Configuration, s: State, b: Block, env: Env): EpochChanges
    requires b.Child? && EarlyError(cfg, s, b, env).None?
  {
    if b.announcements == [] then s.epochs
    else env.pruned.value[b := Announced(EpochFor(cfg, s.epochs, b.parent, b.slot).value, b)]
  }

  /** The weight of the best block cannot be had: it is not the parent, and it is unreadable or missing. */
  predicate NoBestWeightFor(s: State, b: Block, env: Env)
    requires b.Child?
  {
    s.best != b.parent && (!env.bestWeightRead || s.best !in s.weights)
  }

  function BestWeight(s: State, b: Block): nat
    requires b.Child?
  {
    if s.best == b.parent then ParentWeight(s, b) else if s.best in s.weights then s.weights[s.best] else 0
  }

  predicate BecomesBest(s: State, b: Block)
    requires b.Child?
  {
    var total, last := TotalWeight(s, b), BestWeight(s, b);
    total > last || (total == last && Number(b) > Number(s.best))
  }

  function ImportStep(cfg: Configuration, s: State, b: Block, env: Env): (State, Outcome)
  {
    if !env.statusRead then (s, Err(ClientImport))
    else if b in s.blocks || b.Genesis? then (s, if env.inner.Failed? then Err(InnerFailed) else Ok(false))
    else if EarlyError(cfg, s, b, env).Some? then (s, Err(EarlyError(cfg, s, b, env).value))
    else if NoBestWeightFor(s, b, env) then (s.(epochs := EpochsWith(cfg, s, b, env)), Err(NoBestWeight))
    else
      match env.inner
      case Failed => (s, Err(InnerFailed))
      case NotImported => (s.(epochs := EpochsWith(cfg, s, b, env)), Ok(false))
      case Imported => (s.(blocks := s.blocks + {b}, best := if BecomesBest(s, b) then b else s.best,
                           weights := s.weights[b := TotalWeight(s, b)], epochs := EpochsWith(cfg, s, b, env)), Ok(true))
  }

  class RrscBlockImport {
    const cfg: Configuration
    var blocks: set<Block>
    var best: Block
    var finalized: Block
    var weights: map<Block, nat>
    var epochChanges: EpochChanges

    constructor (cfg: Configuration)
      ensures this.cfg == cfg && View() == State({Genesis}, Genesis, Genesis, map[], map[])
    {
      this.cfg := cfg;
      blocks, best, finalized, weights, epochChanges := {Genesis}, Genesis, Genesis, map[], map[];
    }

    ghost function View(): (s: State)
      reads this
      ensures s == State(blocks, best, finalized, weights, epochChanges)
    {
      State(blocks, best, finalized, weights, epochChanges)
    }

    /** Prunes the epoch tree and adds the epoch after the current one, or puts everything back. */
    method LaunchEpoch(b: Block, epoch: Epoch, env: Env) returns (error: Option<ImportError>)
      requires b.Child? && |b.announcements| == 1
      modifies `epochChanges
      ensures error == if !env.viable then Some(FetchEpoch)
                       else if epoch.duration == 0 then Some(DivisionByZero)
                       else if env.pruned.None? then Some(ClientImport)
                       else if !env.epochImported || (env.duplicateRefused && b in env.pruned.value) then Some(EpochChangesFailed)
                       else None
      ensures error.Some? ==> epochChanges == old(epochChanges)
      ensures error.None? ==> epochChanges == env.pruned.value[b := Announced(epoch, b)]
    {
      var oldEpochChanges := epochChanges;
      if !env.viable {
        return Some(FetchEpoch);
      }
      if epoch.duration == 0 {
        return Some(DivisionByZero);
      }
      var viable := epoch;
      var config := if b.configs != [] then b.configs[0] else viable.config;
      if viable.EndSlot() <= b.slot {
        viable := viable.CloneForSlot(b.slot);
      }
      var next := viable.Increment(b.announcements[0], config);
      if env.pruned.None? {
        epochChanges := oldEpochChanges;
        return Some(ClientImport);
      }
      epochChanges := env.pruned.value;
      if !env.epochImported || (env.duplicateRefused && b in epochChanges) {
        epochChanges := oldEpochChanges;
        return Some(EpochChangesFailed);
      }
      epochChanges := epochChanges[b := if b.parent.Genesis? then First(epoch, next) else Later(next)];
      return None;
    }

    method ImportBlock(b: Block, env: Env) returns (o: Outcome)
      modifies this
      ensures (View(), o) == ImportStep(cfg, old(View()), b, env)
    {
      hide EpochFor, Announced, Number, AnnouncementError, ParentError;
      if !env.statusRead {
        return Err(ClientImport);
      }
      if b in blocks || b.Genesis? {
        return if env.inner.Failed? then Err(InnerFailed) else Ok(false);
      }
      var rejected := ParentError(State(blocks, best, finalized, weights, epochChanges), b, env);
      if rejected.Some? {
        return Err(rejected.value);
      }
      var parentWeight := 0;
      if b.parent.Child? {
        parentWeight := weights[b.parent];
      }
      var epoch := EpochFor(cfg, epochChanges, b.parent, b.slot);
      if !env.intermediate || epoch.None? {
        return Err(NoIntermediate);
      }
      var totalWeight := parentWeight + if b.primary then 1 else 0;
      rejected := AnnouncementError(b, SlotOf(b.parent) < epoch.value.start);
      if rejected.Some? {
        return Err(rejected.value);
      }
      var oldEpochChanges: Option<EpochChanges> := None;
      if b.announcements != [] {
        oldEpochChanges := Some(epochChanges);
        rejected := LaunchEpoch(b, epoch.value, env);
        if rejected.Some? {
          return Err(rejected.value);
        }
      }
      var bestWeight := parentWeight;
      if best != b.parent {
        if !env.bestWeightRead || best !in weights {
          return Err(NoBestWeight);
        }
        bestWeight := weights[best];
      }
      var isBest := totalWeight > bestWeight || (totalWeight == bestWeight && Number(b) > Number(best));
      match env.inner {
        case Failed =>
          if oldEpochChanges.Some? {
            epochChanges := oldEpochChanges.value;
          }
          return Err(InnerFailed);
        case NotImported =>
          return Ok(false);
        case Imported =>
          blocks, weights := blocks + {b}, weights[b := totalWeight];
          best := if isBest then b else best;
          return Ok(true);
      }
    }
  }

  // ---- Atomicity ----

  /** The import got as far as the best block's weight with an announcement and could not have it. */
  predicate Stranded(cfg: Configuration, s: State, b: Block, env: Env)
  {
    && env.statusRead && b !in s.blocks && b.Child? && b.announcements != []
    && EarlyError(cfg, s, b, env).None? && NoBestWeightFor(s, b, env)
  }

  /** A failed import changes nothing, except that a stranded one leaves its epoch behind. */
  lemma FailedImportExact(cfg: Configuration, s: State, b: Block, env: Env)
    requires ImportStep(cfg, s, b, env).1.Err?
    ensures var s' := ImportStep(cfg, s, b, env).0;
            && (!Stranded(cfg, s, b, env) ==> s' == s)
            && (Stranded(cfg, s, b, env) ==> s' == s.(epochs := s'.epochs) && b in s'.epochs)
            && (b !in s.epochs ==> (s'.epochs == s.epochs <==> !Stranded(cfg, s, b, env)))
  {
    hide Announced, EarlyError, EpochFor;
    if Stranded(cfg, s, b, env) {
      AnnouncedStays(cfg, s, b, env);
    }
  }

  lemma AnnouncedStays(cfg: Configuration, s: State, b: Block, env: Env)
    requires b.Child? && EarlyError(cfg, s, b, env).None? && b.announcements != []
    ensures b in EpochsWith(cfg, s, b, env)
  {
  }

  /** A block that the importer skipped without an error stays in the epoch changes, and is refused by a tree that takes no duplicates for as long as pruning keeps it there. */
  lemma SkippedAnnouncementBlocksReimport(cfg: Configuration, s: State, b: Block, env: Env, env': Env)
    requires b !in s.blocks && b.Child? && b.announcements != [] && env.inner == NotImported
    requires ImportStep(cfg, s, b, env).1 == Ok(false)
    requires env'.statusRead && env'.duplicateRefused && (env'.pruned.Some? ==> b in env'.pruned.value)
    ensures var s' := ImportStep(cfg, s, b, env).0;
            b in s'.epochs && b !in s'.blocks && ImportStep(cfg, s', b, env').1.Err?
  {
    hide Announced, ParentError, AnnouncementError, Lookup;
  }
}
