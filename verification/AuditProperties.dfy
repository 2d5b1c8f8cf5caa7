/**
 What the audit pallet promises along its runs. Rewards, verdicts and the time of
 closing hold in all runs; that the slips are exact holds in the runs whose events
 meet the guards on the 32-bit casts.
 */
module AuditProperties {
  import opened Common
  import opened Audit
  import opened AuditRuns
  import opened AuditSlips

  // ---- Slips ----

  /** The agreement spelled out: both maps name exactly what is still ahead, proofs before verification. */
  lemma AgreementMeans(s: Store, now: BlockNumber)
    ensures Agreement(s, now) <==>
            && (forall b, m :: (b, m) in s.verifySlip <==> m in s.snapshots && s.snapshots[m].verifySlip == b)
            && (forall b, m :: (b, m) in s.verifySlip ==> b > now)
            && (forall b, m :: (b, m) in s.challengeSlip <==> m in s.snapshots && Deadline(s.snapshots[m]) == b && b > now)
            && (forall m :: m in s.snapshots ==> Deadline(s.snapshots[m]) < s.snapshots[m].verifySlip)
  {
    hide Deadline;
  }

  /** After every event of a guarded run, both slip maps name exactly what is still ahead. */
  lemma SlipsAreExact(cfg: Config, worlds: seq<World>, events: seq<Event>, i: nat)
    requires Run(cfg, worlds, events) && i < |worlds| && forall j :: 0 <= j < i ==> GuardsMet(cfg, worlds[j], events[j])
    ensures var s, now := worlds[i].store, worlds[i].now;
            && (forall b, m :: (b, m) in s.verifySlip <==> m in s.snapshots && s.snapshots[m].verifySlip == b)
            && (forall b, m :: (b, m) in s.verifySlip ==> b > now)
            && (forall b, m :: (b, m) in s.challengeSlip <==> m in s.snapshots && Deadline(s.snapshots[m]) == b && b > now)
            && (forall m :: m in s.snapshots ==> Deadline(s.snapshots[m]) < s.snapshots[m].verifySlip)
  {
    hide Step, Enabled, GuardsMet, Agreement;
    AgreementExactAlongRun(cfg, worlds, events, i);
    AgreementMeans(worlds[i].store, worlds[i].now);
  }

  // ---- Following one challenge ----

  /** What became of the challenge of m in w: still open, or closed, with its verdicts kept. */
  ghost predicate Follows(w: World, m: Miner, w': World)
    requires m in w.ledgers && m in w.store.snapshots
  {
    var c, l := w.store.snapshots[m], w.ledgers[m];
    || (m in w'.ledgers && m in w'.store.snapshots && w'.ledgers[m].id == l.id && w'.ledgers[m].first == l.first
        && Later(c, w'.store.snapshots[m]))
    || (l.id in w'.closed && w'.closed[l.id].ledger.id == l.id && w'.closed[l.id].ledger.first == l.first
        && Later(c, w'.closed[l.id].challenge))
  }

  ghost predicate Tracks(w: World, w': World)
  {
    && (forall id :: id in w.closed ==> id in w'.closed && w'.closed[id] == w.closed[id])
    && (forall m :: m in w.ledgers && m in w.store.snapshots ==> Follows(w, m, w'))
  }

  lemma TracksTransitive(w: World, w': World, w'': World)
    requires Tracks(w, w') && Tracks(w', w'')
    ensures Tracks(w, w'')
  {
  }

  /** Nothing about challenges changed. */
  lemma QuietTracks(w: World, w': World)
    requires w'.store.snapshots == w.store.snapshots && w'.ledgers == w.ledgers && w'.closed == w.closed
    ensures Tracks(w, w')
  {
  }

  lemma OpenTracks(cfg: Config, w: World, draw: Draw)
    requires Invariant(cfg, w)
    ensures Tracks(w, OpenStep(cfg, w, draw))
  {
    hide NewChallenge, LedgerFits, RewardsAgree, ClosedInTime, MissionsAgree;
  }

  lemma VisitTracks(cfg: Config, w: World, m: Miner, tee: Option<Tee>)
    requires Invariant(cfg, w) && (w.now, m) in w.store.verifySlip
    ensures Tracks(w, VisitStep(cfg, w, m, tee))
  {
    hide Reassigned, LedgerFits, RewardsAgree, ClosedInTime, Closes;
    ReassignedLater(cfg, w.store.snapshots[m], w.now, tee);
  }

  lemma ReassignedLater(cfg: Config, c: Challenge, now: BlockNumber, tee: Option<Tee>)
    ensures Later(c, Reassigned(cfg, c, now, tee))
  {
  }

  lemma {:induction false} VisitsTrack(cfg: Config, w: World, ms: seq<Miner>, tee: Option<Tee>)
    requires Invariant(cfg, w) && Due(w.store, w.now, ms)
    ensures Tracks(w, VisitSteps(cfg, w, ms, tee))
  {
    hide Tracks, VisitStep, Invariant, Due;
    if ms == [] {
      QuietTracks(w, w);
    } else {
      var init, last := ms[..|ms| - 1], ms[|ms| - 1];
      LastStillDue(cfg, w, ms, tee);
      VisitsTrack(cfg, w, init, tee);
      VisitsKeep(cfg, w, init, tee);
      var v := VisitSteps(cfg, w, init, tee);
      VisitTracks(cfg, v, last, tee);
      TracksTransitive(w, v, VisitStep(cfg, v, last, tee));
    }
  }

  lemma CommitTracks(w: World, m: Miner, o: Outcome)
    requires Modest(w.store, m, o)
    ensures Tracks(w, Commit(w, m, o))
  {
    hide SameSchedule, BothPassed;
  }

  lemma BlockTracks(cfg: Config, w: World, e: Event)
    requires Invariant(cfg, w) && e.Block? && Enabled(cfg, w, e)
    ensures Tracks(w, Step(cfg, w, e))
  {
    hide HistoryOk, Due, TryOpen, ClearedAll, Tracks;
    BeforeVisitsKeeps(cfg, w, e);
    var c := BeforeVisits(cfg, w, e.draw, e.expired);
    var d := Drawn(cfg, NextBlock(w), e.draw);
    QuietTracks(w, NextBlock(w));
    HistoryFollowsSnapshots(cfg, w, NextBlock(w));
    if DrawsAt(cfg, w.now + 1) {
      OpenTracks(cfg, NextBlock(w), e.draw);
      TracksTransitive(w, NextBlock(w), d);
    }
    QuietTracks(d, c);
    TracksTransitive(w, d, c);
    VisitsTrack(cfg, c, e.missions, e.tee);
    TracksTransitive(w, c, Step(cfg, w, e));
  }

  lemma StepTracks(cfg: Config, w: World, e: Event)
    requires Invariant(cfg, w) && Enabled(cfg, w, e)
    ensures Tracks(w, Step(cfg, w, e))
  {
    hide HistoryOk, Modest, TryOpen, Extrinsic, Tracks;
    if e.Block? {
      BlockTracks(cfg, w, e);
    } else if e.PointMiner? {
      OpenTracks(cfg, w, e.draw);
    } else if e.ResetCounter? {
      QuietTracks(w, Step(cfg, w, e));
    } else {
      ExtrinsicModest(w, e);
      CommitTracks(w, e.miner, Extrinsic(w, e));
    }
  }

  lemma {:induction false} RunTracks(cfg: Config, worlds: seq<World>, events: seq<Event>, i: nat, j: nat)
    requires Run(cfg, worlds, events) && i <= j < |worlds|
    ensures Tracks(worlds[i], worlds[j])
    decreases j
  {
    hide Step, Invariant, Enabled, Tracks;
    if i == j {
      QuietTracks(worlds[i], worlds[i]);
    } else {
      RunTracks(cfg, worlds, events, i, j - 1);
      InvariantAlongRun(cfg, worlds, events, j - 1);
      assert worlds[j] == Step(cfg, worlds[j - 1], events[j - 1]);
      StepTracks(cfg, worlds[j - 1], events[j - 1]);
      TracksTransitive(worlds[i], worlds[j - 1], worlds[j]);
    }
  }

  /** A verdict once recorded is the verdict for ever after, in storage or in the record of the closed challenge. */
  lemma VerdictsNeverChange(cfg: Config, worlds: seq<World>, events: seq<Event>, i: nat, j: nat, m: Miner)
    requires Run(cfg, worlds, events) && i <= j < |worlds|
    requires m in worlds[i].store.snapshots
    ensures m in worlds[i].ledgers && Follows(worlds[i], m, worlds[j])
  {
    hide Run;
    InvariantAlongRun(cfg, worlds, events, i);
    RunTracks(cfg, worlds, events, i, j);
  }

  /** Every challenge ever opened is open or closed. */
  ghost predicate Accounted(w: World)
  {
    forall id :: 0 <= id < w.nextId ==> id in w.closed || OpenId(w, id)
  }

  ghost predicate OpenId(w: World, id: nat)
  {
    exists m :: m in w.ledgers && w.ledgers[m].id == id
  }

  lemma TracksAccounted(w: World, w': World)
    requires Accounted(w) && w.ledgers.Keys == w.store.snapshots.Keys && Tracks(w, w') && w'.nextId == w.nextId
    ensures Accounted(w')
  {
    hide Later;
    forall id | 0 <= id < w'.nextId && id !in w'.closed
      ensures OpenId(w', id)
    {
      assert OpenId(w, id);
      var m :| m in w.ledgers && w.ledgers[m].id == id;
      assert Follows(w, m, w');
    }
  }

  lemma OpenAccounted(cfg: Config, w: World, draw: Draw)
    requires Accounted(w) && Invariant(cfg, w)
    ensures Accounted(OpenStep(cfg, w, draw))
  {
    hide NewChallenge, Invariant;
    InvariantKeys(cfg, w);
    var w' := OpenStep(cfg, w, draw);
    forall id | 0 <= id < w'.nextId && id !in w'.closed
      ensures OpenId(w', id)
    {
      if id < w.nextId {
        assert OpenId(w, id);
        var m :| m in w.ledgers && w.ledgers[m].id == id;
        assert m in w'.ledgers && w'.ledgers[m].id == id;
      } else {
        assert draw.miner.value in w'.ledgers && w'.ledgers[draw.miner.value].id == id;
      }
    }
  }

  lemma InvariantKeys(cfg: Config, w: World)
    requires Invariant(cfg, w)
    ensures w.ledgers.Keys == w.store.snapshots.Keys
  {
    hide LedgerFits, RewardsAgree, ClosedInTime, MissionsAgree;
  }

  lemma {:induction false} VisitsOpenNothing(cfg: Config, w: World, ms: seq<Miner>, tee: Option<Tee>)
    ensures VisitSteps(cfg, w, ms, tee).nextId == w.nextId
  {
    hide Visited;
    if ms != [] {
      VisitsOpenNothing(cfg, w, ms[..|ms| - 1], tee);
    }
  }

  lemma BlockAccounted(cfg: Config, w: World, e: Event)
    requires Accounted(w) && Invariant(cfg, w) && e.Block? && Enabled(cfg, w, e)
    ensures Accounted(Step(cfg, w, e))
  {
    hide HistoryOk, Due, TryOpen, ClearedAll, Tracks, Accounted;
    var n := NextBlock(w);
    var d, c := Drawn(cfg, n, e.draw), BeforeVisits(cfg, w, e.draw, e.expired);
    HistoryFollowsSnapshots(cfg, w, n);
    SameAccounted(w, n);
    if DrawsAt(cfg, n.now) {
      OpenAccounted(cfg, n, e.draw);
    }
    SameAccounted(d, c);
    BeforeVisitsKeeps(cfg, w, e);
    VisitsTrack(cfg, c, e.missions, e.tee);
    VisitsOpenNothing(cfg, c, e.missions, e.tee);
    InvariantKeys(cfg, c);
    TracksAccounted(c, Step(cfg, w, e));
  }

  lemma SameAccounted(w: World, w': World)
    requires Accounted(w) && w'.ledgers == w.ledgers && w'.closed == w.closed && w'.nextId == w.nextId
    ensures Accounted(w')
  {
    forall id | 0 <= id < w'.nextId && id !in w'.closed
      ensures OpenId(w', id)
    {
      assert OpenId(w, id);
      var m :| m in w.ledgers && w.ledgers[m].id == id;
      assert m in w'.ledgers && w'.ledgers[m].id == id;
    }
  }

  lemma {:induction false} AccountedAlongRun(cfg: Config, worlds: seq<World>, events: seq<Event>, i: nat)
    requires Run(cfg, worlds, events) && i < |worlds|
    ensures Accounted(worlds[i])
  {
    hide Invariant, Enabled, Accounted, TryOpen, Extrinsic, VisitSteps, ClearedAll;
    if i == 0 {
      NothingOpened();
    } else {
      var w, e := worlds[i - 1], events[i - 1];
      AccountedAlongRun(cfg, worlds, events, i - 1);
      InvariantAlongRun(cfg, worlds, events, i - 1);
      assert worlds[i] == Step(cfg, w, e);
      if e.Block? {
        BlockAccounted(cfg, w, e);
      } else if e.PointMiner? {
        OpenAccounted(cfg, w, e.draw);
      } else {
        SameAccounted(w, worlds[i]);
      }
    }
  }

  lemma NothingOpened()
    ensures Accounted(GENESIS)
  {
  }

  /** Once if both proofs were judged true, else not at all. */
  ghost predicate RewardedRight(times: nat, c: Challenge)
  {
    && times <= 1
    && (times == 1 <==> c.idle.Some? && c.idle.value.verdict == Some(true) && c.service.Some? && c.service.value.verdict == Some(true))
  }

  /** One reward per challenge with two true verdicts, none for any other, and every challenge ever opened is open or closed. */
  lemma RewardedExactlyOnce(cfg: Config, worlds: seq<World>, events: seq<Event>, i: nat)
    requires Run(cfg, worlds, events) && i < |worlds|
    ensures var w := worlds[i];
            && w.ledgers.Keys == w.store.snapshots.Keys
            && (forall m :: m in w.ledgers ==> RewardedRight(w.rewards[w.ledgers[m].id], w.store.snapshots[m]))
            && (forall id :: id in w.closed ==> RewardedRight(w.rewards[id], w.closed[id].challenge))
            && (forall id :: 0 <= id < w.nextId ==> id in w.closed || OpenId(w, id))
            && (forall id :: id in w.rewards ==> id < w.nextId)
  {
    hide Run, LedgerFits, MissionsAgree;
    InvariantAlongRun(cfg, worlds, events, i);
    AccountedAlongRun(cfg, worlds, events, i);
  }

  // ---- Closing ----

  /** At most two visits while open, three in all, and closed within two extensions of the first deadline. */
  lemma ClosedByDeadline(cfg: Config, worlds: seq<World>, events: seq<Event>, i: nat)
    requires Run(cfg, worlds, events) && i < |worlds|
    ensures var w := worlds[i];
            && w.ledgers.Keys == w.store.snapshots.Keys
            && (forall m :: m in w.ledgers ==> w.ledgers[m].visits <= 2)
            && (forall id :: id in w.closed ==>
                  && w.closed[id].ledger.visits <= 3
                  && w.closed[id].at <= w.closed[id].ledger.first + 2 * Life(cfg, w.closed[id].challenge))
  {
    hide Run, Life, RewardsAgree, MissionsAgree;
    InvariantAlongRun(cfg, worlds, events, i);
    var w := worlds[i];
    forall m | m in w.ledgers
      ensures w.ledgers[m].visits <= 2
    {
      assert LedgerFits(cfg, w.store.snapshots[m], w.ledgers[m]);
    }
    forall id | id in w.closed
      ensures w.closed[id].ledger.visits <= 3
      ensures w.closed[id].at <= w.closed[id].ledger.first + 2 * Life(cfg, w.closed[id].challenge)
    {
      assert TimelyClose(cfg, w.closed[id]);
    }
  }

  // ---- Missed deadlines ----

  /** A miner is put out at thirty, so the counter never gets there, let alone to the end of its eight bits. */
  ghost predicate CountersBounded(s: Store)
  {
    forall m :: m in s.countedClear ==> s.countedClear[m] < 30
  }

  lemma {:induction false} ClearingBounded(s: Store, now: BlockNumber, ms: seq<Miner>)
    requires CountersBounded(s)
    ensures CountersBounded(ClearedAll(s, now, ms))
  {
    if ms != [] {
      ClearingBounded(s, now, ms[..|ms| - 1]);
    }
  }

  lemma {:induction false} VisitsKeepCounters(cfg: Config, s: Store, now: BlockNumber, ms: seq<Miner>, tee: Option<Tee>)
    ensures VisitedAll(cfg, s, now, ms, tee).countedClear == s.countedClear
  {
    hide Reassigned;
    if ms != [] {
      VisitsKeepCounters(cfg, s, now, ms[..|ms| - 1], tee);
    }
  }

  lemma StepBounded(cfg: Config, w: World, e: Event)
    requires CountersBounded(w.store)
    ensures CountersBounded(Step(cfg, w, e).store)
  {
    hide NewChallenge, MissionError, IdleAccepted, VisitSteps;
    match e {
      case Block(draw, tee, expired, missions) =>
        var d := Generated(cfg, w.store, w.now + 1, draw);
        ClearingBounded(d, w.now + 1, expired);
        VisitsKeepCounters(cfg, ClearedAll(d, w.now + 1, expired), w.now + 1, missions, tee);
        BlockFollowsHooks(cfg, w, e);
      case _ =>
    }
  }

  lemma {:induction false} CountersBoundedAlongRun(cfg: Config, worlds: seq<World>, events: seq<Event>, i: nat)
    requires Run(cfg, worlds, events) && i < |worlds|
    ensures CountersBounded(worlds[i].store)
  {
    hide Step, Enabled;
    if i > 0 {
      CountersBoundedAlongRun(cfg, worlds, events, i - 1);
      assert worlds[i] == Step(cfg, worlds[i - 1], events[i - 1]);
      StepBounded(cfg, worlds[i - 1], events[i - 1]);
    }
  }
}
