/**
 What the audit pallet decides, spelled out event by event: which challenges are
 opened, closed and extended, which proofs and verdicts are recorded, which misses are
 counted; and what a recorded verdict says about the run before it.
 */
module AuditMeaning {
  import opened Common
  import opened Audit
  import opened AuditRuns
  import opened AuditSlips
  import opened AuditProperties
  import opened AuditClosing

  /** Sums stop at the largest block number. */
  function Capped(x: nat): nat { if x > 0xFFFF_FFFF then 0xFFFF_FFFF else x }

  // ---- Opening ----

  /** The deadlines of a new challenge: lives in 32 bits, the verification life over both spaces and all workers. */
  lemma NewDeadlines(cfg: Config, now: BlockNumber, snapshot: MinerSnapshot, tees: nat)
    requires tees > 0
    ensures var c := NewChallenge(cfg, now, snapshot, tees);
            && c.snapshot == snapshot && c.start == now && c.assign == 0 && c.idle == None && c.service == None
            && c.idleSlip == Capped(now + (snapshot.idleSpace / 203_613_264 + 50) % 0x1_0000_0000)
            && c.serviceSlip == Capped(now + (snapshot.serviceSpace / 25_165_824 + 50) % 0x1_0000_0000)
    ensures var c := NewChallenge(cfg, now, snapshot, tees);
            var later := if c.idleSlip > c.serviceSlip then c.idleSlip else c.serviceSlip;
            var sum, most := snapshot.idleSpace + snapshot.serviceSpace, 0xFFFF_FFFF_FFFF_FFFF_FFFF_FFFF_FFFF_FFFF;
            var space := if sum > most then most else sum;
            c.verifySlip == Capped(Capped(later + (space / 2_147_483_648 / tees) % 0x1_0000_0000) + cfg.oneHours)
  {
  }

  /** The draw names the miner, who has space, and everything the opening asks for is there. */
  predicate DrawFor(draw: Draw, m: Miner)
  {
    && draw.miner == Some(m) && draw.snapshot.Some? && draw.params && draw.tees > 0
    && draw.snapshot.value.idleSpace + draw.snapshot.value.serviceSpace > 0
  }

  /** A miner has a new challenge after an event exactly if it was drawn, by the call or in a drawing block after three days, with time ahead. */
  lemma OpenedExactly(cfg: Config, w: World, e: Event, m: Miner)
    requires Invariant(cfg, w) && Enabled(cfg, w, e) && m !in w.store.snapshots
    ensures m in Step(cfg, w, e).store.snapshots <==>
            match e
            case PointMiner(draw) => DrawFor(draw, m)
            case Block(draw, _, _, _) =>
              && DrawFor(draw, m) && (w.now + 1) % 10 == 0 && w.now + 1 >= Capped(3 * cfg.oneDay)
              && !BornLate(cfg, w.now + 1, draw)
            case _ => false
  {
    hide NewChallenge, Invariant, Extrinsic, BornLate, ClearedAll, VisitedAll, VisitSteps, Later, BothPassed;
    if e.Block? {
      OpenedInBlock(cfg, w, e, m);
    } else if IsExtrinsic(e) {
      ExtrinsicModest(w, e);
    }
  }

  lemma OpenedInBlock(cfg: Config, w: World, e: Event, m: Miner)
    requires Invariant(cfg, w) && e.Block? && Enabled(cfg, w, e) && m !in w.store.snapshots
    ensures m in Step(cfg, w, e).store.snapshots <==>
            && DrawFor(e.draw, m) && (w.now + 1) % 10 == 0 && w.now + 1 >= Capped(3 * cfg.oneDay)
            && !BornLate(cfg, w.now + 1, e.draw)
  {
    hide NewChallenge, HistoryOk, ClearedAll, VisitedAll, VisitSteps, Closes, ProofLife, CheckLife, BornLate;
    BeforeVisitsKeeps(cfg, w, e);
    var b := BeforeVisits(cfg, w, e.draw, e.expired);
    VisitsFollow(cfg, b, e.missions, e.tee);
    if m in b.store.snapshots {
      OpeningTimes(cfg, w.now + 1, e.draw);
      BornLateExactly(cfg, w.now + 1, e.draw);
      NewCloses(cfg, w.now + 1, e.draw);
      OpenKeepsMissions(cfg, w.store, w.now + 1, e.draw);
    }
    if m in e.missions {
      CloseStays(cfg, b.store, b.now, e.missions, e.tee, m);
    } else {
      VisitsElsewhere(cfg, b.store, b.now, e.missions, e.tee, m);
    }
  }

  // ---- Closing and extending ----

  /** Every submitted proof has its verdict. */
  predicate AllJudged(c: Challenge)
  {
    (c.idle.Some? ==> c.idle.value.verdict.Some?) && (c.service.Some? ==> c.service.value.verdict.Some?)
  }

  /** A challenge is gone after an event exactly if its deadline is reached and it was extended twice or every submitted proof is judged. */
  lemma GoneExactly(cfg: Config, w: World, e: Event, m: Miner)
    requires Invariant(cfg, w) && Enabled(cfg, w, e) && m in w.store.snapshots
    ensures m in w.ledgers
    ensures m !in Step(cfg, w, e).store.snapshots <==>
            && e.Block? && w.store.snapshots[m].verifySlip == w.now + 1
            && (w.ledgers[m].visits == 2 || AllJudged(w.store.snapshots[m]))
    ensures m in Step(cfg, w, e).store.snapshots ==> OpenAs(Step(cfg, w, e), m, w.ledgers[m].id)
  {
    hide Step, Enabled, HistoryOk, MissionsAgree;
    InvariantKeys(cfg, w);
    VisitsCounted(cfg, w, m);
    if Reached(w, e, m) {
      ReachedVisited(cfg, w, e, m);
    } else {
      UnreachedUntouched(cfg, w, e, m);
    }
  }

  lemma VisitsCounted(cfg: Config, w: World, m: Miner)
    requires Invariant(cfg, w) && m in w.ledgers && m in w.store.snapshots
    ensures w.ledgers[m].visits == w.store.snapshots[m].assign <= 2
  {
    hide Life, RewardsAgree, ClosedInTime, MissionsAgree;
    assert LedgerFits(cfg, w.store.snapshots[m], w.ledgers[m]);
  }

  /** The proof with the next worker in charge, if one was found. */
  function PassedOn(p: Option<Prove>, tee: Option<Tee>): Option<Prove>
  {
    match p
    case None => None
    case Some(q) => Some(Prove(if tee.Some? then tee.value else q.tee, q.proof, q.verdict))
  }

  lemma {:induction false} ExtensionInPlace(
    cfg: Config, s: Store, now: BlockNumber, ms: seq<Miner>, tee: Option<Tee>, m: Miner)
    requires m in ms && (forall i, j :: 0 <= i < j < |ms| ==> ms[i] != ms[j])
    requires m in s.snapshots && !Closes(s.snapshots[m])
    ensures var s' := VisitedAll(cfg, s, now, ms, tee);
            m in s'.snapshots && s'.snapshots[m] == Reassigned(cfg, s.snapshots[m], now, tee)
  {
    hide Reassigned, Closes;
    var init, last := ms[..|ms| - 1], ms[|ms| - 1];
    assert ms == init + [last] && last !in init;
    if m == last {
      VisitsElsewhere(cfg, s, now, init, tee, m);
    } else {
      ExtensionInPlace(cfg, s, now, init, tee, m);
    }
  }

  /** After a block an open challenge is as it was, or its deadline was reached and it goes on with a new one and the next worker. */
  lemma AfterBlock(cfg: Config, w: World, e: Event, m: Miner)
    requires Invariant(cfg, w) && e.Block? && Enabled(cfg, w, e) && m in w.store.snapshots
    requires m in Step(cfg, w, e).store.snapshots
    ensures var c, c' := w.store.snapshots[m], Step(cfg, w, e).store.snapshots[m];
            if c.verifySlip != w.now + 1 then c' == c
            else
              var space := if c.snapshot.idleSpace > c.snapshot.serviceSpace then c.snapshot.idleSpace else c.snapshot.serviceSpace;
              var life := (space / 2_147_483_648 + cfg.oneHours) % 0x1_0000_0000;
              c' == c.(assign := c.assign + 1, verifySlip := Capped(w.now + 1 + life),
                       idle := PassedOn(c.idle, e.tee), service := PassedOn(c.service, e.tee))
  {
    hide NewChallenge, ClearedAll, HistoryOk, VisitSteps, VisitedAll, Closes, Reassigned, Enabled;
    StillThere(cfg, w, e, m);
    var b, c := BeforeVisits(cfg, w, e.draw, e.expired), w.store.snapshots[m];
    VisitsFollow(cfg, b, e.missions, e.tee);
    if c.verifySlip != w.now + 1 {
      VisitsElsewhere(cfg, b.store, b.now, e.missions, e.tee, m);
    } else {
      ReachedVisited(cfg, w, e, m);
      ExtensionInPlace(cfg, b.store, b.now, e.missions, e.tee, m);
      ReassignedMeans(cfg, c, w.now + 1, e.tee);
    }
  }

  lemma ReassignedMeans(cfg: Config, c: Challenge, now: BlockNumber, tee: Option<Tee>)
    ensures var space := if c.snapshot.idleSpace > c.snapshot.serviceSpace then c.snapshot.idleSpace else c.snapshot.serviceSpace;
            var life := (space / 2_147_483_648 + cfg.oneHours) % 0x1_0000_0000;
            Reassigned(cfg, c, now, tee) ==
              c.(assign := c.assign + 1, verifySlip := Capped(now + life),
                 idle := PassedOn(c.idle, tee), service := PassedOn(c.service, tee))
  {
  }

  /** In every run a challenge with a submitted proof without a verdict goes on under its number past its first two deadlines. */
  lemma UnjudgedGoesOn(cfg: Config, worlds: seq<World>, events: seq<Event>, i: nat, m: Miner)
    requires Run(cfg, worlds, events) && i < |events| && m in worlds[i].store.snapshots && !AllJudged(worlds[i].store.snapshots[m])
    requires m in worlds[i].ledgers && worlds[i].ledgers[m].visits < 2
    ensures OpenAs(worlds[i + 1], m, worlds[i].ledgers[m].id)
  {
    hide Run, AllJudged, Invariant, Enabled, Step;
    RunStep(cfg, worlds, events, i);
    InvariantAlongRun(cfg, worlds, events, i);
    GoneExactly(cfg, worlds[i], events[i], m);
  }

  /** In every run a closed challenge with a proof that was never judged had outlived two deadlines before. */
  lemma {:induction false} UnjudgedOutlivesTwoDeadlines(cfg: Config, worlds: seq<World>, events: seq<Event>, i: nat, id: nat)
    requires Run(cfg, worlds, events) && i < |worlds| && id in worlds[i].closed && !AllJudged(worlds[i].closed[id].challenge)
    ensures worlds[i].closed[id].ledger.visits == 3
  {
    hide Run;
    JudgedAlongRun(cfg, worlds, events, i);
    assert JudgedOrLate(worlds[i].closed[id]);
  }

  ghost predicate JudgedOrLate(x: Closed) { AllJudged(x.challenge) || x.ledger.visits == 3 }

  ghost predicate ClosedRight(w: World) { forall id :: id in w.closed ==> JudgedOrLate(w.closed[id]) }

  lemma VisitClosesRight(cfg: Config, w: World, m: Miner, tee: Option<Tee>)
    requires Invariant(cfg, w) && (w.now, m) in w.store.verifySlip && ClosedRight(w)
    ensures ClosedRight(VisitStep(cfg, w, m, tee))
  {
    hide Reassigned, HistoryOk;
    InvariantKeys(cfg, w);
    VisitsCounted(cfg, w, m);
  }

  lemma {:induction false} VisitsCloseRight(cfg: Config, w: World, ms: seq<Miner>, tee: Option<Tee>)
    requires Invariant(cfg, w) && Due(w.store, w.now, ms) && ClosedRight(w)
    ensures ClosedRight(VisitSteps(cfg, w, ms, tee))
  {
    hide Invariant, Due, VisitStep, ClosedRight;
    if ms != [] {
      LastStillDue(cfg, w, ms, tee);
      VisitsKeep(cfg, w, ms[..|ms| - 1], tee);
      VisitsCloseRight(cfg, w, ms[..|ms| - 1], tee);
      VisitClosesRight(cfg, VisitSteps(cfg, w, ms[..|ms| - 1], tee), ms[|ms| - 1], tee);
    }
  }

  lemma {:induction false} JudgedAlongRun(cfg: Config, worlds: seq<World>, events: seq<Event>, i: nat)
    requires Run(cfg, worlds, events) && i < |worlds|
    ensures ClosedRight(worlds[i])
  {
    hide Invariant, Enabled, JudgedOrLate, TryOpen, Extrinsic, VisitSteps, ClearedAll, Due;
    if i > 0 {
      var w, e := worlds[i - 1], events[i - 1];
      JudgedAlongRun(cfg, worlds, events, i - 1);
      InvariantAlongRun(cfg, worlds, events, i - 1);
      assert worlds[i] == Step(cfg, w, e);
      if e.Block? {
        BeforeVisitsKeeps(cfg, w, e);
        VisitsCloseRight(cfg, BeforeVisits(cfg, w, e.draw, e.expired), e.missions, e.tee);
      }
    }
  }

  // ---- Proofs ----

  /** A proof is recorded exactly if the miner has a challenge without one, in time, and a worker was found; else nothing changes. */
  lemma IdleProofExactly(cfg: Config, w: World, m: Miner, proof: string, tee: Option<Tee>)
    ensures var w' := Step(cfg, w, IdleProof(m, proof, tee));
            if m in w.store.snapshots && w.now <= w.store.snapshots[m].idleSlip && w.store.snapshots[m].idle == None && tee.Some?
            then
              var c := w.store.snapshots[m];
              && w' == w.(store := w'.store) && w'.store == w.store.(snapshots := w'.store.snapshots, countedClear := w'.store.countedClear)
              && w'.store.snapshots == w.store.snapshots[m := c.(idle := Some(Prove(tee.value, proof, None)))]
              && w'.store.countedClear == if c.service == None then w.store.countedClear else w.store.countedClear[m := 0]
            else w' == w
  {
  }

  lemma ServiceProofExactly(cfg: Config, w: World, m: Miner, proof: string, tee: Option<Tee>)
    ensures var w' := Step(cfg, w, ServiceProof(m, proof, tee));
            if m in w.store.snapshots && w.now <= w.store.snapshots[m].serviceSlip && w.store.snapshots[m].service == None && tee.Some?
            then
              var c := w.store.snapshots[m];
              && w' == w.(store := w'.store) && w'.store == w.store.(snapshots := w'.store.snapshots, countedClear := w'.store.countedClear)
              && w'.store.snapshots == w.store.snapshots[m := c.(service := Some(Prove(tee.value, proof, None)))]
              && w'.store.countedClear == if c.idle == None then w.store.countedClear else w.store.countedClear[m := 0]
            else w' == w
  {
  }

  // ---- Verdicts ----

  /** The worker in charge may judge: the proof is there and not judged, and the worker is entitled and signed. */
  predicate MayJudge(p: Option<Prove>, tee: Tee, t: TeeAnswers)
  {
    && p.Some? && p.value.tee == tee && p.value.verdict == None
    && t.canVerify && t.wellFormed && t.masterSignature && t.workRecorded && t.credited
  }

  /** The report says success and repeats the space of the snapshot and the submitted proof. */
  predicate Confirms(report: IdleReport, c: Challenge)
    requires c.idle.Some?
  {
    && report.result && report.proofHash == c.idle.value.proof
    && report.space.front == c.snapshot.space.front && report.space.rear == c.snapshot.space.rear
    && report.space.accumulator == c.snapshot.space.accumulator
  }

  function RewardedIf(w: World, m: Miner, success: bool): multiset<nat>
  {
    if success && m in w.ledgers then w.rewards + multiset{w.ledgers[m].id} else w.rewards
  }

  predicate IsTrue(p: Option<Prove>) { p.Some? && p.value.verdict == Some(true) }

  /** An idle verdict is recorded exactly under these conditions, is true exactly for a confirming report, and rewards exactly the second success. */
  lemma IdleVerdictExactly(cfg: Config, w: World, m: Miner, report: IdleReport, tee: Tee, t: TeeAnswers)
    ensures var w' := Step(cfg, w, VerifyIdle(m, report, tee, t));
            if && m in w.store.snapshots && MayJudge(w.store.snapshots[m].idle, tee, t)
               && w.store.snapshots[m].snapshot.space.front <= w.store.snapshots[m].snapshot.space.rear
               && (Confirms(report, w.store.snapshots[m]) && IsTrue(w.store.snapshots[m].service) ==> t.snapshotRecorded)
            then
              var c := w.store.snapshots[m];
              var verdict := Confirms(report, c);
              && w'.store == w.store.(snapshots := w.store.snapshots[m := c.(idle := Some(Prove(tee, c.idle.value.proof, Some(verdict))))])
              && w' == w.(store := w'.store, rewards := w'.rewards)
              && w'.rewards == RewardedIf(w, m, verdict && IsTrue(c.service))
            else w' == w
  {
  }

  /** One more failure in a row; a full counter falls back to two. */
  function InARow(failures: nat): nat { if failures >= 0xFFFF_FFFF then 2 else failures + 1 }

  /** A service verdict is recorded exactly under these conditions as reported, counts failures in a row, and rewards exactly the second success. */
  lemma ServiceVerdictExactly(cfg: Config, w: World, m: Miner, result: bool, bloom: string, tee: Tee, t: TeeAnswers)
    ensures var w' := Step(cfg, w, VerifyService(m, result, bloom, tee, t));
            if && m in w.store.snapshots && MayJudge(w.store.snapshots[m].service, tee, t)
               && bloom == w.store.snapshots[m].snapshot.bloom
               && (result && IsTrue(w.store.snapshots[m].idle) ==> t.snapshotRecorded)
               && (!result && Counter(w.store.serviceFailed, m) >= 1 ==> t.punished)
            then
              var c := w.store.snapshots[m];
              && w'.store == w.store.(
                   snapshots := w.store.snapshots[m := c.(service := Some(Prove(tee, c.service.value.proof, Some(result))))],
                   serviceFailed := w.store.serviceFailed[m := if result then 0 else InARow(Counter(w.store.serviceFailed, m))])
              && w' == w.(store := w'.store, rewards := w'.rewards)
              && w'.rewards == RewardedIf(w, m, result && IsTrue(c.idle))
            else w' == w
  {
  }

  /** What made the idle verdict true: the worker in charge reported success on the snapshot's space and the submitted proof. */
  ghost predicate Reported(w: World, e: Event, m: Miner, id: nat, c: Challenge)
    requires c.idle.Some?
  {
    && e.VerifyIdle? && e.miner == m && OpenAs(w, m, id)
    && w.store.snapshots[m].idle.Some? && e.verifier == w.store.snapshots[m].idle.value.tee && Confirms(e.report, c)
  }

  /** The idle proof, the snapshot and the number are the same. */
  ghost predicate SameIdle(w: World, w': World, m: Miner)
  {
    && m in w.store.snapshots && m in w'.store.snapshots && m in w.ledgers && m in w'.ledgers
    && w.ledgers[m].id == w'.ledgers[m].id && w'.store.snapshots[m].snapshot == w.store.snapshots[m].snapshot
    && w.store.snapshots[m].idle.Some? && w'.store.snapshots[m].idle.Some?
    && w'.store.snapshots[m].idle.value.proof == w.store.snapshots[m].idle.value.proof
    && w'.store.snapshots[m].idle.value.verdict == w.store.snapshots[m].idle.value.verdict
  }

  lemma TrueSince(cfg: Config, w: World, e: Event, m: Miner)
    requires Invariant(cfg, w) && Enabled(cfg, w, e) && !e.Block?
    requires var w' := Step(cfg, w, e);
             m in w'.store.snapshots && m in w'.ledgers && IsTrue(w'.store.snapshots[m].idle)
    ensures var w' := Step(cfg, w, e);
            SameIdle(w, w', m) || Reported(w, e, m, w'.ledgers[m].id, w'.store.snapshots[m])
  {
    hide Invariant, MayJudge, Generated, ClearedAll, VisitedAll, BeforeVisits;
    InvariantKeys(cfg, w);
    if e.VerifyIdle? {
      IdleVerdictExactly(cfg, w, e.miner, e.report, e.verifier, e.answers);
    } else if e.VerifyService? {
      ServiceVerdictExactly(cfg, w, e.miner, e.result, e.bloom, e.verifier, e.answers);
    } else if e.IdleProof? {
      IdleProofExactly(cfg, w, e.miner, e.proof, e.handler);
    } else if e.ServiceProof? {
      ServiceProofExactly(cfg, w, e.miner, e.proof, e.handler);
    }
  }

  lemma TrueBeforeBlock(cfg: Config, w: World, e: Event, m: Miner)
    requires Invariant(cfg, w) && e.Block? && Enabled(cfg, w, e)
    requires var w' := Step(cfg, w, e);
             m in w'.store.snapshots && m in w'.ledgers && IsTrue(w'.store.snapshots[m].idle)
    ensures SameIdle(w, Step(cfg, w, e), m)
  {
    hide Step, Enabled, Invariant;
    InvariantKeys(cfg, w);
    if m in w.store.snapshots {
      AfterBlock(cfg, w, e, m);
      if Reached(w, e, m) {
        ReachedVisited(cfg, w, e, m);
      } else {
        UnreachedUntouched(cfg, w, e, m);
      }
    } else {
      NewInBlock(cfg, w, e, m);
    }
  }

  lemma NewInBlock(cfg: Config, w: World, e: Event, m: Miner)
    requires Invariant(cfg, w) && e.Block? && Enabled(cfg, w, e) && m !in w.store.snapshots
    ensures m in Step(cfg, w, e).store.snapshots ==> Step(cfg, w, e).store.snapshots[m].idle == None
  {
    hide HistoryOk, ClearedAll, VisitedAll, VisitSteps, Closes, SatAdd, AsU32, ProveLife, VerifyLife;
    BeforeVisitsKeeps(cfg, w, e);
    var b := BeforeVisits(cfg, w, e.draw, e.expired);
    VisitsFollow(cfg, b, e.missions, e.tee);
    if m in b.store.snapshots {
      NewCloses(cfg, w.now + 1, e.draw);
    }
    if m in e.missions {
      CloseStays(cfg, b.store, b.now, e.missions, e.tee, m);
    } else {
      VisitsElsewhere(cfg, b.store, b.now, e.missions, e.tee, m);
    }
  }

  /** In every run a true idle verdict was reported, by the worker then in charge, on this challenge's space and proof. */
  lemma {:induction false} TrueIdleWasReported(cfg: Config, worlds: seq<World>, events: seq<Event>, j: nat, m: Miner) returns (i: nat)
    requires Run(cfg, worlds, events) && j < |worlds|
    requires m in worlds[j].store.snapshots && m in worlds[j].ledgers && IsTrue(worlds[j].store.snapshots[m].idle)
    ensures i < j && Reported(worlds[i], events[i], m, worlds[j].ledgers[m].id, worlds[j].store.snapshots[m])
    decreases j
  {
    hide Step, Enabled, Invariant;
    if j == 0 {
      assert false;
    } else {
      InvariantAlongRun(cfg, worlds, events, j - 1);
      assert worlds[j] == Step(cfg, worlds[j - 1], events[j - 1]);
      if events[j - 1].Block? {
        TrueBeforeBlock(cfg, worlds[j - 1], events[j - 1], m);
      } else {
        TrueSince(cfg, worlds[j - 1], events[j - 1], m);
      }
      if SameIdle(worlds[j - 1], worlds[j], m) {
        i := TrueIdleWasReported(cfg, worlds, events, j - 1, m);
      } else {
        i := j - 1;
      }
    }
  }

  // ---- Missed deadlines ----

  /** The counter after one more miss: at thirty the miner is put out and the count starts again. */
  function OneMore(count: nat): nat { if count + 1 >= 30 then 0 else count + 1 }

  lemma {:induction false} ClearedCounters(s: Store, now: BlockNumber, ms: seq<Miner>, m: Miner)
    requires (forall i, j :: 0 <= i < j < |ms| ==> ms[i] != ms[j]) && Counter(s.countedClear, m) < 30
    ensures var s' := ClearedAll(s, now, ms);
            Counter(s'.countedClear, m) ==
            if m in ms && m in s.snapshots && s.snapshots[m].service == None then OneMore(Counter(s.countedClear, m))
            else Counter(s.countedClear, m)
  {
    if ms != [] {
      var init, last := ms[..|ms| - 1], ms[|ms| - 1];
      assert ms == init + [last] && last !in init;
      ClearedCounters(s, now, init, m);
      ClearKeepsMissions(s, now, init);
    }
  }

  /** A block counts a miss exactly for the open challenges whose later proof deadline it is and that have no service proof. */
  lemma MissesCounted(cfg: Config, worlds: seq<World>, events: seq<Event>, i: nat, m: Miner)
    requires Run(cfg, worlds, events) && i < |events| && events[i].Block?
    requires Agreement(worlds[i].store, worlds[i].now) && m in worlds[i].store.snapshots
    ensures var w, w' := worlds[i], worlds[i + 1];
            var c := w.store.snapshots[m];
            var later := if c.idleSlip > c.serviceSlip then c.idleSlip else c.serviceSlip;
            Counter(w'.store.countedClear, m) ==
            if later == w.now + 1 && c.service == None then OneMore(Counter(w.store.countedClear, m))
            else Counter(w.store.countedClear, m)
  {
    hide Run, Agreement;
    RunStep(cfg, worlds, events, i);
    CountersBoundedAlongRun(cfg, worlds, events, i);
    MissesInBlock(cfg, worlds[i], events[i], m);
  }

  lemma RunStep(cfg: Config, worlds: seq<World>, events: seq<Event>, i: nat)
    requires Run(cfg, worlds, events) && i < |events|
    ensures |worlds| == |events| + 1 && Enabled(cfg, worlds[i], events[i]) && worlds[i + 1] == Step(cfg, worlds[i], events[i])
  {
  }

  lemma MissesInBlock(cfg: Config, w: World, e: Event, m: Miner)
    requires e.Block? && Enabled(cfg, w, e) && Agreement(w.store, w.now) && m in w.store.snapshots && CountersBounded(w.store)
    ensures var c := w.store.snapshots[m];
            Counter(Step(cfg, w, e).store.countedClear, m) ==
            if Deadline(c) == w.now + 1 && c.service == None then OneMore(Counter(w.store.countedClear, m))
            else Counter(w.store.countedClear, m)
  {
    hide NewChallenge, ClearedAll, VisitedAll, VisitSteps, OneMore, Deadline;
    var d := Generated(cfg, w.store, w.now + 1, e.draw);
    BlockFollowsHooks(cfg, w, e);
    VisitsKeepCounters(cfg, ClearedAll(d, w.now + 1, e.expired), w.now + 1, e.missions, e.tee);
    ClearedCounters(d, w.now + 1, e.expired, m);
    AgreementMeans(w.store, w.now);
    assert m in e.expired <==> (w.now + 1, m) in d.challengeSlip;
  }
}
