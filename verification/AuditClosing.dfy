/**
 Which challenges are closed. A challenge that is open at or past its own verification
 deadline after the hooks of a block is never visited again. This holds in all runs, and
 it is the only way to stay open: the exact conditions below are about the one challenge,
 whatever happens to the others.
 */
module AuditClosing {
  import opened Common
  import opened Audit
  import opened AuditRuns
  import opened AuditSlips
  import opened AuditProperties

  /** Open, with a verification deadline that no later block will reach. */
  ghost predicate Stuck(w: World, m: Miner)
  {
    m in w.store.snapshots && w.store.snapshots[m].verifySlip <= w.now
  }

  /** The challenge with this number is the one open for the miner. */
  ghost predicate OpenAs(w: World, m: Miner, id: nat)
  {
    m in w.store.snapshots && m in w.ledgers && w.ledgers[m].id == id
  }

  /** The next block reaches the deadline of the challenge. */
  ghost predicate Reached(w: World, e: Event, m: Miner)
  {
    e.Block? && m in w.store.snapshots && w.store.snapshots[m].verifySlip == w.now + 1
  }

  // ---- One event ----

  /** Nothing that matters for closing changed. */
  ghost predicate Untouched(w: World, w': World, m: Miner)
  {
    && m in w.store.snapshots && m in w'.store.snapshots && m in w.ledgers && m in w'.ledgers
    && w'.ledgers[m] == w.ledgers[m]
    && w'.store.snapshots[m].verifySlip == w.store.snapshots[m].verifySlip
  }

  lemma {:induction false} LedgerElsewhere(cfg: Config, w: World, ms: seq<Miner>, tee: Option<Tee>, m: Miner)
    requires m !in ms && m in w.ledgers
    ensures m in VisitSteps(cfg, w, ms, tee).ledgers && VisitSteps(cfg, w, ms, tee).ledgers[m] == w.ledgers[m]
  {
    hide Visited;
    if ms != [] {
      LedgerElsewhere(cfg, w, ms[..|ms| - 1], tee, m);
    }
  }

  /** The world when missions are visited holds the challenges that were open before the block. */
  lemma StillThere(cfg: Config, w: World, e: Event, m: Miner)
    requires Invariant(cfg, w) && e.Block? && Enabled(cfg, w, e) && m in w.store.snapshots
    ensures var c := BeforeVisits(cfg, w, e.draw, e.expired);
            && Untouched(w, c, m) && c.store.snapshots[m] == w.store.snapshots[m] && c.now == w.now + 1
            && (m in e.missions <==> Reached(w, e, m)) && Due(c.store, c.now, e.missions)
  {
    hide NewChallenge, ClearedAll, HistoryOk;
    InvariantKeys(cfg, w);
    BeforeVisitsKeeps(cfg, w, e);
    OpenKeepsMissions(cfg, w.store, w.now + 1, e.draw);
  }

  /** A challenge whose deadline is not reached stays as it is. */
  lemma UnreachedUntouched(cfg: Config, w: World, e: Event, m: Miner)
    requires Invariant(cfg, w) && Enabled(cfg, w, e) && m in w.store.snapshots && !Reached(w, e, m)
    ensures Untouched(w, Step(cfg, w, e), m)
  {
    hide NewChallenge, ClearedAll, HistoryOk, Extrinsic, VisitSteps, VisitedAll, Later, BothPassed, Enabled;
    InvariantKeys(cfg, w);
    if e.Block? {
      StillThere(cfg, w, e, m);
      var c := BeforeVisits(cfg, w, e.draw, e.expired);
      VisitsFollow(cfg, c, e.missions, e.tee);
      VisitsElsewhere(cfg, c.store, c.now, e.missions, e.tee, m);
      LedgerElsewhere(cfg, c, e.missions, e.tee, m);
    } else if IsExtrinsic(e) {
      ExtrinsicModest(w, e);
    }
  }

  lemma {:induction false} CloseStays(cfg: Config, s: Store, now: BlockNumber, ms: seq<Miner>, tee: Option<Tee>, m: Miner)
    requires m in ms && (forall i, j :: 0 <= i < j < |ms| ==> ms[i] != ms[j])
    requires m in s.snapshots && Closes(s.snapshots[m])
    ensures m !in VisitedAll(cfg, s, now, ms, tee).snapshots
  {
    hide Reassigned, Closes;
    var init, last := ms[..|ms| - 1], ms[|ms| - 1];
    assert ms == init + [last] && last !in init;
    if m == last {
      VisitsElsewhere(cfg, s, now, init, tee, m);
    } else {
      CloseStays(cfg, s, now, init, tee, m);
    }
  }

  lemma {:induction false} ExtensionKeepsLedger(cfg: Config, w: World, ms: seq<Miner>, tee: Option<Tee>, m: Miner)
    requires m in ms && (forall i, j :: 0 <= i < j < |ms| ==> ms[i] != ms[j])
    requires m in w.store.snapshots && !Closes(w.store.snapshots[m]) && m in w.ledgers
    ensures m in VisitSteps(cfg, w, ms, tee).ledgers && VisitSteps(cfg, w, ms, tee).ledgers[m].id == w.ledgers[m].id
  {
    hide Reassigned, Closes, VisitedAll;
    var init, last := ms[..|ms| - 1], ms[|ms| - 1];
    assert ms == init + [last] && last !in init;
    if m == last {
      VisitsFollow(cfg, w, init, tee);
      VisitsElsewhere(cfg, w.store, w.now, init, tee, m);
      LedgerElsewhere(cfg, w, init, tee, m);
    } else {
      ExtensionKeepsLedger(cfg, w, init, tee, m);
    }
  }

  /** A challenge whose deadline is reached is closed, or is open under its number with its extension. */
  lemma ReachedVisited(cfg: Config, w: World, e: Event, m: Miner)
    requires Invariant(cfg, w) && Enabled(cfg, w, e) && Reached(w, e, m)
    ensures var c, w' := w.store.snapshots[m], Step(cfg, w, e);
            if Closes(c) then m !in w'.store.snapshots
            else && m in w'.store.snapshots && m in w'.ledgers && m in w.ledgers && w'.ledgers[m].id == w.ledgers[m].id
                 && w'.store.snapshots[m].verifySlip == Reassigned(cfg, c, w.now + 1, e.tee).verifySlip
  {
    hide NewChallenge, ClearedAll, HistoryOk, VisitSteps, VisitedAll, Closes, Reassigned, Enabled;
    StillThere(cfg, w, e, m);
    var b, c := BeforeVisits(cfg, w, e.draw, e.expired), w.store.snapshots[m];
    VisitsFollow(cfg, b, e.missions, e.tee);
    if Closes(c) {
      CloseStays(cfg, b.store, b.now, e.missions, e.tee, m);
    } else {
      ExtensionStays(cfg, b.store, b.now, e.missions, e.tee, m);
      ExtensionKeepsLedger(cfg, b, e.missions, e.tee, m);
      StepKeeps(cfg, w, e);
    }
  }

  /** An open challenge gets stuck exactly at a deadline where it is extended by nothing. */
  lemma GetsStuckExactly(cfg: Config, w: World, e: Event, m: Miner)
    requires Invariant(cfg, w) && Enabled(cfg, w, e) && m in w.store.snapshots && !Stuck(w, m)
    ensures Stuck(Step(cfg, w, e), m) <==> Reached(w, e, m) && !ExtensionGuard(cfg, w.now + 1, w.store.snapshots[m])
  {
    hide Step, Enabled, Invariant, Closes, Reassigned, Life;
    ClockSteps(cfg, w, e);
    if Reached(w, e, m) {
      ReachedVisited(cfg, w, e, m);
      NotPastRange(cfg, w, e);
      ExtensionSlip(cfg, w.store.snapshots[m], w.now + 1, e.tee);
    } else {
      UnreachedUntouched(cfg, w, e, m);
    }
  }

  lemma ClockSteps(cfg: Config, w: World, e: Event)
    ensures Step(cfg, w, e).now == w.now + if e.Block? then 1 else 0
  {
    hide VisitSteps, Extrinsic, TryOpen, ClearedAll, AfterHooks;
    if e.Block? {
      BlockFollowsHooks(cfg, w, e);
    }
  }

  lemma NotPastRange(cfg: Config, w: World, e: Event)
    requires e.Block? && Enabled(cfg, w, e)
    ensures w.now < U32_MAX
  {
  }

  /** A stuck challenge stays stuck, and open under its number. */
  lemma StuckStays(cfg: Config, w: World, e: Event, m: Miner)
    requires Invariant(cfg, w) && Enabled(cfg, w, e) && Stuck(w, m)
    ensures Stuck(Step(cfg, w, e), m) && Untouched(w, Step(cfg, w, e), m)
  {
    hide Step, Enabled, Invariant;
    ClockSteps(cfg, w, e);
    UnreachedUntouched(cfg, w, e, m);
  }

  // ---- Opening ----

  /** The verification deadline of a new challenge is not ahead. */
  predicate BornLate(cfg: Config, now: BlockNumber, draw: Draw)
    requires draw.snapshot.Some? && draw.tees > 0
  {
    (ProofLife(draw) == 0 && CheckLife(cfg, draw) == 0) || now == U32_MAX
  }

  lemma BornLateExactly(cfg: Config, now: BlockNumber, draw: Draw)
    requires draw.snapshot.Some? && draw.tees > 0 && now <= U32_MAX
    ensures NewChallenge(cfg, now, draw.snapshot.value, draw.tees).verifySlip <= now <==> BornLate(cfg, now, draw)
  {
    hide ProveLife, VerifyLife, AsU32;
  }

  /** A miner without a challenge has a stuck one after an event exactly if the root call opened it too late; the hook never does. */
  lemma OpensStuckExactly(cfg: Config, w: World, e: Event, m: Miner)
    requires Invariant(cfg, w) && Enabled(cfg, w, e) && m !in w.store.snapshots && w.now <= U32_MAX
    ensures Stuck(Step(cfg, w, e), m) <==>
            e.PointMiner? && Opens(w.store, e.draw) && e.draw.miner == Some(m) && BornLate(cfg, w.now, e.draw)
  {
    hide NewChallenge, Invariant, Extrinsic, BornLate, ClearedAll, VisitedAll, VisitSteps, Later, BothPassed;
    ClockSteps(cfg, w, e);
    if e.Block? {
      HookNeverStuck(cfg, w, e, m);
    } else if e.PointMiner? {
      if Opens(w.store, e.draw) {
        BornLateExactly(cfg, w.now, e.draw);
      }
    } else if IsExtrinsic(e) {
      ExtrinsicModest(w, e);
    }
  }

  lemma HookNeverStuck(cfg: Config, w: World, e: Event, m: Miner)
    requires Invariant(cfg, w) && e.Block? && Enabled(cfg, w, e) && m !in w.store.snapshots
    ensures !Stuck(Step(cfg, w, e), m)
  {
    hide NewChallenge, HistoryOk, ClearedAll, VisitedAll, VisitSteps, Closes, ProofLife, CheckLife;
    BeforeVisitsKeeps(cfg, w, e);
    var b := BeforeVisits(cfg, w, e.draw, e.expired);
    VisitsFollow(cfg, b, e.missions, e.tee);
    if m in b.store.snapshots {
      OpeningTimes(cfg, w.now + 1, e.draw);
      NewCloses(cfg, w.now + 1, e.draw);
      OpenKeepsMissions(cfg, w.store, w.now + 1, e.draw);
    }
    if m in e.missions {
      CloseStays(cfg, b.store, b.now, e.missions, e.tee, m);
    } else {
      VisitsElsewhere(cfg, b.store, b.now, e.missions, e.tee, m);
    }
  }

  // ---- Runs ----

  /** Once stuck, open for ever. */
  lemma {:induction false} StuckForEver(cfg: Config, worlds: seq<World>, events: seq<Event>, i: nat, j: nat, m: Miner)
    requires Run(cfg, worlds, events) && i <= j < |worlds| && Stuck(worlds[i], m)
    ensures Stuck(worlds[j], m) && m in worlds[i].ledgers && OpenAs(worlds[j], m, worlds[i].ledgers[m].id)
    ensures worlds[i].ledgers[m].id !in worlds[j].closed
    decreases j
  {
    hide Step, Enabled, LedgerFits, RewardsAgree, ClosedInTime, MissionsAgree;
    InvariantAlongRun(cfg, worlds, events, j);
    if i < j {
      StuckForEver(cfg, worlds, events, i, j - 1, m);
      InvariantAlongRun(cfg, worlds, events, j - 1);
      assert worlds[j] == Step(cfg, worlds[j - 1], events[j - 1]);
      StuckStays(cfg, worlds[j - 1], events[j - 1], m);
    }
  }

  /** A challenge open at or past its first deadline plus two extensions is stuck. */
  lemma OverdueIsStuck(cfg: Config, w: World, m: Miner)
    requires Invariant(cfg, w) && m in w.store.snapshots && m in w.ledgers
    requires w.now >= w.ledgers[m].first + 2 * Life(cfg, w.store.snapshots[m])
    ensures Stuck(w, m)
  {
    hide Life, RewardsAgree, ClosedInTime, MissionsAgree;
    assert LedgerFits(cfg, w.store.snapshots[m], w.ledgers[m]);
    NextVisit(w.ledgers[m].first, w.store.snapshots[m].assign, Life(cfg, w.store.snapshots[m]));
  }

  /** A challenge is open under its number or closed, never both. */
  lemma OpenOrClosed(cfg: Config, worlds: seq<World>, events: seq<Event>, i: nat, j: nat, m: Miner, id: nat)
    requires Run(cfg, worlds, events) && i <= j < |worlds| && OpenAs(worlds[i], m, id)
    ensures OpenAs(worlds[j], m, id) <==> id !in worlds[j].closed
  {
    hide Run, LedgerFits, RewardsAgree, ClosedInTime, MissionsAgree, Later;
    VerdictsNeverChange(cfg, worlds, events, i, j, m);
    InvariantAlongRun(cfg, worlds, events, j);
  }

  /** At this event the challenge, if its deadline is reached, is closed or extended by something. */
  ghost predicate ServedAt(cfg: Config, w: World, e: Event, m: Miner)
  {
    Reached(w, e, m) ==> ExtensionGuard(cfg, w.now + 1, w.store.snapshots[m])
  }

  /** It is served whenever it is open between two worlds of a run. */
  ghost predicate Served(cfg: Config, worlds: seq<World>, events: seq<Event>, i: nat, j: nat, m: Miner, id: nat)
    requires Run(cfg, worlds, events) && i <= j < |worlds|
  {
    forall k :: i <= k < j && OpenAs(worlds[k], m, id) ==> ServedAt(cfg, worlds[k], events[k], m)
  }

  lemma {:induction false} ServedNotStuck(
    cfg: Config, worlds: seq<World>, events: seq<Event>, i: nat, j: nat, m: Miner, id: nat)
    requires Run(cfg, worlds, events) && i <= j < |worlds| && OpenAs(worlds[i], m, id) && OpenAs(worlds[j], m, id)
    requires !Stuck(worlds[i], m) && Served(cfg, worlds, events, i, j, m, id)
    ensures !Stuck(worlds[j], m)
    decreases j
  {
    hide Step, Enabled, Invariant, ExtensionGuard, Reached;
    if i < j {
      OpenEarlier(cfg, worlds, events, i, j, m, id);
      ServedNotStuck(cfg, worlds, events, i, j - 1, m, id);
      InvariantAlongRun(cfg, worlds, events, j - 1);
      assert worlds[j] == Step(cfg, worlds[j - 1], events[j - 1]);
      assert ServedAt(cfg, worlds[j - 1], events[j - 1], m);
      GetsStuckExactly(cfg, worlds[j - 1], events[j - 1], m);
    }
  }

  /** What is open now and was open then was open in between. */
  lemma OpenEarlier(cfg: Config, worlds: seq<World>, events: seq<Event>, i: nat, j: nat, m: Miner, id: nat)
    requires Run(cfg, worlds, events) && i < j < |worlds| && OpenAs(worlds[i], m, id) && OpenAs(worlds[j], m, id)
    ensures OpenAs(worlds[j - 1], m, id)
  {
    hide Step, Enabled, Follows;
    OpenOrClosed(cfg, worlds, events, i, j - 1, m, id);
    OpenOrClosed(cfg, worlds, events, i, j, m, id);
    RunTracks(cfg, worlds, events, j - 1, j);
  }

  /** A challenge not served once while open is stuck right after, or was before. */
  lemma UnservedStuck(cfg: Config, worlds: seq<World>, events: seq<Event>, k: nat, m: Miner, id: nat)
    requires Run(cfg, worlds, events) && k < |events| && OpenAs(worlds[k], m, id)
    requires !ServedAt(cfg, worlds[k], events[k], m)
    ensures Stuck(worlds[k + 1], m) && OpenAs(worlds[k + 1], m, id)
  {
    hide Step, Enabled, Invariant, Reassigned, Life;
    InvariantAlongRun(cfg, worlds, events, k);
    assert worlds[k + 1] == Step(cfg, worlds[k], events[k]);
    GetsStuckExactly(cfg, worlds[k], events[k], m);
    ReachedVisited(cfg, worlds[k], events[k], m);
  }

  /**
   Once its first verification deadline is past by two extensions, a challenge has been closed
   exactly if it was not stuck when seen open and every extension it got had a length.
   */
  lemma ClosedExactly(cfg: Config, worlds: seq<World>, events: seq<Event>, i: nat, j: nat, m: Miner, id: nat)
    requires Run(cfg, worlds, events) && i <= j < |worlds| && OpenAs(worlds[i], m, id)
    requires worlds[j].now >= worlds[i].ledgers[m].first + 2 * Life(cfg, worlds[i].store.snapshots[m])
    ensures id in worlds[j].closed <==> !Stuck(worlds[i], m) && Served(cfg, worlds, events, i, j, m, id)
  {
    hide Run, Stuck, ServedAt, Life;
    OpenOrClosed(cfg, worlds, events, i, j, m, id);
    if OpenAs(worlds[j], m, id) {
      PastBoundStuck(cfg, worlds, events, i, j, m, id);
      if !Stuck(worlds[i], m) && Served(cfg, worlds, events, i, j, m, id) {
        ServedNotStuck(cfg, worlds, events, i, j, m, id);
      }
    } else {
      ClosedWasServed(cfg, worlds, events, i, j, m, id);
    }
  }

  lemma PastBoundStuck(cfg: Config, worlds: seq<World>, events: seq<Event>, i: nat, j: nat, m: Miner, id: nat)
    requires Run(cfg, worlds, events) && i <= j < |worlds| && OpenAs(worlds[i], m, id) && OpenAs(worlds[j], m, id)
    requires worlds[j].now >= worlds[i].ledgers[m].first + 2 * Life(cfg, worlds[i].store.snapshots[m])
    ensures Stuck(worlds[j], m)
  {
    hide Run, LedgerFits, RewardsAgree, ClosedInTime, MissionsAgree, Stuck;
    VerdictsNeverChange(cfg, worlds, events, i, j, m);
    InvariantAlongRun(cfg, worlds, events, j);
    OverdueIsStuck(cfg, worlds[j], m);
  }

  lemma ClosedWasServed(cfg: Config, worlds: seq<World>, events: seq<Event>, i: nat, j: nat, m: Miner, id: nat)
    requires Run(cfg, worlds, events) && i <= j < |worlds| && OpenAs(worlds[i], m, id) && id in worlds[j].closed
    ensures !Stuck(worlds[i], m) && Served(cfg, worlds, events, i, j, m, id)
  {
    hide Step, Enabled, Stuck, ServedAt;
    if Stuck(worlds[i], m) {
      StuckForEver(cfg, worlds, events, i, j, m);
    }
    forall k | i <= k < j && OpenAs(worlds[k], m, id)
      ensures ServedAt(cfg, worlds[k], events[k], m)
    {
      if !ServedAt(cfg, worlds[k], events[k], m) {
        UnservedStuck(cfg, worlds, events, k, m, id);
        StuckForEver(cfg, worlds, events, k + 1, j, m);
      }
    }
  }

  /** Put without guards: it has been closed exactly if it was never stuck while open. */
  lemma ClosedUnlessStuck(cfg: Config, worlds: seq<World>, events: seq<Event>, i: nat, j: nat, m: Miner, id: nat)
    requires Run(cfg, worlds, events) && i <= j < |worlds| && OpenAs(worlds[i], m, id)
    requires worlds[j].now >= worlds[i].ledgers[m].first + 2 * Life(cfg, worlds[i].store.snapshots[m])
    ensures id in worlds[j].closed <==> forall k :: i <= k <= j && OpenAs(worlds[k], m, id) ==> !Stuck(worlds[k], m)
  {
    hide Run, Stuck, Life;
    OpenOrClosed(cfg, worlds, events, i, j, m, id);
    if OpenAs(worlds[j], m, id) {
      PastBoundStuck(cfg, worlds, events, i, j, m, id);
    } else {
      forall k | i <= k <= j && OpenAs(worlds[k], m, id)
        ensures !Stuck(worlds[k], m)
      {
        if Stuck(worlds[k], m) {
          StuckForEver(cfg, worlds, events, k, j, m);
        }
      }
    }
  }
}
