/**
 Whole runs of the audit pallet: blocks with their hooks, and extrinsics in any
 order and number in between. Each challenge gets a serial number when it is
 opened, so that what happened to it can be followed after it is gone.
 */
module AuditRuns {
  import opened Common
  import opened Audit

  /** What is remembered about an open challenge besides its storage. */
  datatype Ledger = Ledger(id: nat, first: BlockNumber, visits: nat)

  datatype Closed = Closed(challenge: Challenge, ledger: Ledger, at: BlockNumber)

  datatype World = World(
    now: BlockNumber,
    store: Store,
    ledgers: map<Miner, Ledger>,
    nextId: nat,
    closed: map<nat, Closed>,
    rewards: multiset<nat>)

  const GENESIS := World(0, Store(map[], {}, {}, map[], map[]), map[], 0, map[], multiset{})

  datatype Event =
    | Block(draw: Draw, tee: Option<Tee>, expired: seq<Miner>, missions: seq<Miner>)
    | PointMiner(draw: Draw)
    | IdleProof(miner: Miner, proof: string, handler: Option<Tee>)
    | ServiceProof(miner: Miner, proof: string, handler: Option<Tee>)
    | VerifyIdle(miner: Miner, report: IdleReport, verifier: Tee, answers: TeeAnswers)
    | VerifyService(miner: Miner, result: bool, bloom: string, verifier: Tee, answers: TeeAnswers)
    | ResetCounter(miner: Miner)

  // ---- Steps ----

  function OpenStep(cfg: Config, w: World, draw: Draw): World
  {
    var store := TryOpen(cfg, w.store, w.now, draw);
    if !Opens(w.store, draw) then w.(store := store)
    else
      var m := draw.miner.value;
      w.(store := store,
         ledgers := w.ledgers[m := Ledger(w.nextId, store.snapshots[m].verifySlip, 0)],
         nextId := w.nextId + 1)
  }

  function ClearSteps(w: World, ms: seq<Miner>): World
  {
    w.(store := ClearedAll(w.store, w.now, ms))
  }

  function VisitStep(cfg: Config, w: World, m: Miner, tee: Option<Tee>): World
  {
    var store := Visited(cfg, w.store, w.now, m, tee);
    if m !in w.store.snapshots || m !in w.ledgers then w.(store := store)
    else
      var l := w.ledgers[m].(visits := w.ledgers[m].visits + 1);
      if m in store.snapshots then w.(store := store, ledgers := w.ledgers[m := l])
      else w.(store := store, ledgers := w.ledgers - {m},
              closed := w.closed[l.id := Closed(w.store.snapshots[m], l, w.now)])
  }

  function VisitSteps(cfg: Config, w: World, ms: seq<Miner>, tee: Option<Tee>): World
  {
    if ms == [] then w else VisitStep(cfg, VisitSteps(cfg, w, ms[..|ms| - 1], tee), ms[|ms| - 1], tee)
  }

  /** An extrinsic: an error changes nothing; a recorded snapshot is a reward for the challenge. */
  function Commit(w: World, m: Miner, o: Outcome): World
  {
    match o
    case Err(_) => w
    case Ok(store, rewarded) =>
      w.(store := store,
         rewards := if rewarded && m in w.ledgers then w.rewards + multiset{w.ledgers[m].id} else w.rewards)
  }

  function NextBlock(w: World): World { w.(now := w.now + 1) }

  function Drawn(cfg: Config, w: World, draw: Draw): World
  {
    if DrawsAt(cfg, w.now) then OpenStep(cfg, w, draw) else w
  }

  predicate IsExtrinsic(e: Event) { e.IdleProof? || e.ServiceProof? || e.VerifyIdle? || e.VerifyService? }

  function Extrinsic(w: World, e: Event): Outcome
    requires IsExtrinsic(e)
  {
    match e
    case IdleProof(m, proof, tee) => SubmittedIdle(w.store, w.now, m, proof, tee)
    case ServiceProof(m, proof, tee) => SubmittedService(w.store, w.now, m, proof, tee)
    case VerifyIdle(m, report, tee, t) => VerifiedIdle(w.store, m, report, tee, t)
    case VerifyService(m, result, bloom, tee, t) => VerifiedService(w.store, m, result, bloom, tee, t)
  }

  function Step(cfg: Config, w: World, e: Event): World
  {
    match e
    case Block(draw, tee, expired, missions) =>
      VisitSteps(cfg, ClearSteps(Drawn(cfg, NextBlock(w), draw), expired), missions, tee)
    case PointMiner(draw) => OpenStep(cfg, w, draw)
    case ResetCounter(m) => w.(store := w.store.(countedClear := w.store.countedClear[m := 0]))
    case _ => Commit(w, e.miner, Extrinsic(w, e))
  }

  /** The length of one verification extension, before any cast. */
  function Life(cfg: Config, c: Challenge): nat
  {
    MaxSpace(c) / IDLE_VERIFY_RATE + cfg.oneHours
  }

  /** Block numbers have 32 bits, and the hooks visit every slip of the block once. */
  ghost predicate Enabled(cfg: Config, w: World, e: Event)
  {
    match e
    case Block(draw, _, expired, missions) =>
      && w.now < U32_MAX
      && Enumerates(expired, Drawn(cfg, NextBlock(w), draw).store.challengeSlip, w.now + 1)
      && Enumerates(missions, Drawn(cfg, NextBlock(w), draw).store.verifySlip, w.now + 1)
    case _ => true
  }

  ghost predicate Run(cfg: Config, worlds: seq<World>, events: seq<Event>)
  {
    && |worlds| == |events| + 1
    && worlds[0] == GENESIS
    && forall i :: 0 <= i < |events| ==> Enabled(cfg, worlds[i], events[i]) && worlds[i + 1] == Step(cfg, worlds[i], events[i])
  }

  // ---- The invariant of all runs ----

  function BothPassed(c: Challenge): nat { if Passed(c.idle) && Passed(c.service) then 1 else 0 }

  /** VerifySlip names exactly the open challenges, each at its own deadline. */
  ghost predicate MissionsAgree(s: Store)
  {
    forall b, m :: (b, m) in s.verifySlip <==> m in s.snapshots && s.snapshots[m].verifySlip == b
  }

  /** At most two extensions were given, none longer than its full life. */
  ghost predicate LedgerFits(cfg: Config, c: Challenge, l: Ledger)
  {
    c.assign <= 2 && l.visits == c.assign && c.verifySlip <= l.first + c.assign * Life(cfg, c)
  }

  ghost predicate LedgersAgree(cfg: Config, w: World)
  {
    && w.ledgers.Keys == w.store.snapshots.Keys
    && (forall m :: m in w.ledgers ==> LedgerFits(cfg, w.store.snapshots[m], w.ledgers[m]))
    && (forall m :: m in w.ledgers ==> w.ledgers[m].id < w.nextId && w.ledgers[m].id !in w.closed)
    && (forall m, m' :: m in w.ledgers && m' in w.ledgers && w.ledgers[m].id == w.ledgers[m'].id ==> m == m')
    && (forall id :: id in w.closed ==> id < w.nextId)
  }

  /** A challenge was rewarded once if both verdicts are true, else never. */
  ghost predicate RewardsAgree(w: World)
  {
    && (forall m :: m in w.ledgers && m in w.store.snapshots ==>
          w.rewards[w.ledgers[m].id] == BothPassed(w.store.snapshots[m]))
    && (forall id :: id in w.closed ==> w.rewards[id] == BothPassed(w.closed[id].challenge))
    && (forall id :: id in w.rewards ==> id < w.nextId)
  }

  /** Closed challenges were visited at most three times and closed in time. */
  ghost predicate ClosedInTime(cfg: Config, w: World)
  {
    forall id :: id in w.closed ==> TimelyClose(cfg, w.closed[id])
  }

  ghost predicate TimelyClose(cfg: Config, x: Closed)
  {
    x.ledger.visits <= 3 && x.at <= x.ledger.first + 2 * Life(cfg, x.challenge)
  }

  ghost predicate HistoryOk(cfg: Config, w: World)
  {
    LedgersAgree(cfg, w) && RewardsAgree(w) && ClosedInTime(cfg, w)
  }

  ghost predicate Invariant(cfg: Config, w: World)
  {
    MissionsAgree(w.store) && HistoryOk(cfg, w)
  }

  // ---- Opening ----

  lemma OpenKeeps(cfg: Config, w: World, draw: Draw)
    requires Invariant(cfg, w)
    ensures Invariant(cfg, OpenStep(cfg, w, draw))
  {
    OpenKeepsMissions(cfg, w.store, w.now, draw);
    OpenKeepsHistory(cfg, w, draw);
  }

  lemma OpenKeepsMissions(cfg: Config, s: Store, now: BlockNumber, draw: Draw)
    requires MissionsAgree(s)
    ensures MissionsAgree(TryOpen(cfg, s, now, draw))
  {
    hide NewChallenge;
  }

  lemma NewChallengeFits(cfg: Config, now: BlockNumber, draw: Draw, id: nat)
    requires draw.snapshot.Some? && draw.tees > 0
    ensures var c := NewChallenge(cfg, now, draw.snapshot.value, draw.tees);
            LedgerFits(cfg, c, Ledger(id, c.verifySlip, 0)) && BothPassed(c) == 0
  {
    hide SatAdd, AsU32, ProveLife, VerifyLife;
  }

  lemma OpenKeepsHistory(cfg: Config, w: World, draw: Draw)
    requires HistoryOk(cfg, w)
    ensures HistoryOk(cfg, OpenStep(cfg, w, draw))
  {
    hide NewChallenge, LedgerFits, BothPassed, TimelyClose;
    if Opens(w.store, draw) {
      NewChallengeFits(cfg, w.now, draw, w.nextId);
      var m, c := draw.miner.value, NewChallenge(cfg, w.now, draw.snapshot.value, draw.tees);
      var w' := OpenStep(cfg, w, draw);
      assert w'.store.snapshots == w.store.snapshots[m := c];
      assert w'.ledgers[m] == Ledger(w.nextId, c.verifySlip, 0);
    }
  }

  // ---- Hooks ----

  lemma NextVisit(first: nat, assign: nat, life: nat)
    ensures first + assign * life + life == first + (assign + 1) * life
    ensures assign <= 2 ==> assign * life <= 2 * life
  {
  }

  lemma NeverLonger(x: nat)
    ensures AsU32(x) <= x
  {
  }

  /** An extension, cast or not, is at most one life long. */
  lemma ReassignedFits(cfg: Config, c: Challenge, l: Ledger, now: BlockNumber, tee: Option<Tee>)
    requires LedgerFits(cfg, c, l) && !Closes(c) && c.verifySlip == now
    ensures LedgerFits(cfg, Reassigned(cfg, c, now, tee), l.(visits := l.visits + 1))
    ensures BothPassed(Reassigned(cfg, c, now, tee)) == BothPassed(c)
  {
    hide AsU32;
    NextVisit(l.first, c.assign, Life(cfg, c));
    NeverLonger(Life(cfg, c));
  }

  lemma ClosedTiming(cfg: Config, c: Challenge, l: Ledger, now: BlockNumber)
    requires LedgerFits(cfg, c, l) && c.verifySlip == now
    ensures TimelyClose(cfg, Closed(c, l.(visits := l.visits + 1), now))
  {
    NextVisit(l.first, c.assign, Life(cfg, c));
  }

  lemma ReassignKeepsHistory(cfg: Config, w: World, m: Miner, tee: Option<Tee>)
    requires HistoryOk(cfg, w) && m in w.store.snapshots && w.store.snapshots[m].verifySlip == w.now
    requires !Closes(w.store.snapshots[m])
    ensures HistoryOk(cfg, VisitStep(cfg, w, m, tee))
  {
    hide Reassigned, Closes, LedgerFits, BothPassed, TimelyClose;
    ReassignedFits(cfg, w.store.snapshots[m], w.ledgers[m], w.now, tee);
  }

  lemma CloseKeepsHistory(cfg: Config, w: World, m: Miner, tee: Option<Tee>)
    requires HistoryOk(cfg, w) && m in w.store.snapshots && w.store.snapshots[m].verifySlip == w.now
    requires Closes(w.store.snapshots[m])
    ensures HistoryOk(cfg, VisitStep(cfg, w, m, tee))
  {
    hide Reassigned, Closes, LedgerFits, BothPassed, TimelyClose;
    var w' := VisitStep(cfg, w, m, tee);
    ClosedTiming(cfg, w.store.snapshots[m], w.ledgers[m], w.now);
    assert w'.store.snapshots == w.store.snapshots - {m} && w'.ledgers == w.ledgers - {m};
  }

  lemma VisitKeepsMissions(cfg: Config, s: Store, now: BlockNumber, m: Miner, tee: Option<Tee>)
    requires MissionsAgree(s) && (now, m) in s.verifySlip
    ensures MissionsAgree(Visited(cfg, s, now, m, tee))
  {
    hide Reassigned, Closes;
  }

  lemma VisitKeeps(cfg: Config, w: World, m: Miner, tee: Option<Tee>)
    requires Invariant(cfg, w) && (w.now, m) in w.store.verifySlip
    ensures Invariant(cfg, VisitStep(cfg, w, m, tee))
  {
    hide HistoryOk, Visited, Closes;
    VisitKeepsMissions(cfg, w.store, w.now, m, tee);
    if Closes(w.store.snapshots[m]) {
      CloseKeepsHistory(cfg, w, m, tee);
    } else {
      ReassignKeepsHistory(cfg, w, m, tee);
    }
  }

  /** Visiting some miners leaves the challenges and slips of all others alone. */
  lemma {:induction false} VisitsElsewhere(cfg: Config, s: Store, now: BlockNumber, ms: seq<Miner>, tee: Option<Tee>, m: Miner)
    requires m !in ms
    ensures var s' := VisitedAll(cfg, s, now, ms, tee);
            && (m in s'.snapshots <==> m in s.snapshots) && (m in s.snapshots ==> s'.snapshots[m] == s.snapshots[m])
            && (forall b :: (b, m) in s'.verifySlip <==> (b, m) in s.verifySlip)
  {
    hide Reassigned, Closes;
    if ms != [] {
      VisitsElsewhere(cfg, s, now, ms[..|ms| - 1], tee, m);
    }
  }

  lemma {:induction false} VisitsFollow(cfg: Config, w: World, ms: seq<Miner>, tee: Option<Tee>)
    ensures VisitSteps(cfg, w, ms, tee).store == VisitedAll(cfg, w.store, w.now, ms, tee)
    ensures VisitSteps(cfg, w, ms, tee).now == w.now
  {
    hide Visited;
    if ms != [] {
      VisitsFollow(cfg, w, ms[..|ms| - 1], tee);
    }
  }

  /** Different miners whose verification slip is the current block. */
  ghost predicate Due(s: Store, now: BlockNumber, ms: seq<Miner>)
  {
    (forall m :: m in ms ==> (now, m) in s.verifySlip) && forall i, j :: 0 <= i < j < |ms| ==> ms[i] != ms[j]
  }

  /** The last miner is still due when all before it have been visited. */
  lemma LastStillDue(cfg: Config, w: World, ms: seq<Miner>, tee: Option<Tee>)
    requires ms != [] && Due(w.store, w.now, ms)
    ensures var v := VisitSteps(cfg, w, ms[..|ms| - 1], tee);
            (v.now, ms[|ms| - 1]) in v.store.verifySlip && v.now == w.now
    ensures Due(w.store, w.now, ms[..|ms| - 1])
  {
    hide VisitSteps, VisitedAll;
    var init, last := ms[..|ms| - 1], ms[|ms| - 1];
    assert last !in init;
    VisitsElsewhere(cfg, w.store, w.now, init, tee, last);
    VisitsFollow(cfg, w, init, tee);
  }

  lemma {:induction false} VisitsKeep(cfg: Config, w: World, ms: seq<Miner>, tee: Option<Tee>)
    requires Invariant(cfg, w) && Due(w.store, w.now, ms)
    ensures Invariant(cfg, VisitSteps(cfg, w, ms, tee))
  {
    hide Invariant, Due, VisitStep;
    if ms != [] {
      LastStillDue(cfg, w, ms, tee);
      VisitsKeep(cfg, w, ms[..|ms| - 1], tee);
      VisitKeeps(cfg, VisitSteps(cfg, w, ms[..|ms| - 1], tee), ms[|ms| - 1], tee);
    }
  }

  /** The history does not depend on the slips or the clock. */
  lemma HistoryFollowsSnapshots(cfg: Config, w: World, w': World)
    requires HistoryOk(cfg, w) && w'.store.snapshots == w.store.snapshots
    requires w'.ledgers == w.ledgers && w'.nextId == w.nextId && w'.closed == w.closed && w'.rewards == w.rewards
    ensures HistoryOk(cfg, w')
  {
    hide LedgerFits, TimelyClose, BothPassed;
  }

  /** The world when the missions of a block are about to be visited. */
  function BeforeVisits(cfg: Config, w: World, draw: Draw, expired: seq<Miner>): World
  {
    ClearSteps(Drawn(cfg, NextBlock(w), draw), expired)
  }

  lemma BeforeVisitsKeeps(cfg: Config, w: World, e: Event)
    requires Invariant(cfg, w) && e.Block? && Enabled(cfg, w, e)
    ensures var c := BeforeVisits(cfg, w, e.draw, e.expired);
            && Invariant(cfg, c) && Due(c.store, c.now, e.missions)
            && c.store.snapshots == Drawn(cfg, NextBlock(w), e.draw).store.snapshots
  {
    hide HistoryOk, TryOpen, ClearedAll;
    var n := NextBlock(w);
    HistoryFollowsSnapshots(cfg, w, n);
    OpenKeeps(cfg, n, e.draw);
    var d := Drawn(cfg, n, e.draw);
    ClearKeepsMissions(d.store, d.now, e.expired);
    HistoryFollowsSnapshots(cfg, d, ClearSteps(d, e.expired));
  }

  lemma BlockKeeps(cfg: Config, w: World, e: Event)
    requires Invariant(cfg, w) && e.Block? && Enabled(cfg, w, e)
    ensures Invariant(cfg, Step(cfg, w, e))
  {
    hide Invariant, Due, Enabled, ClearSteps, Drawn;
    BeforeVisitsKeeps(cfg, w, e);
    VisitsKeep(cfg, BeforeVisits(cfg, w, e.draw, e.expired), e.missions, e.tee);
  }

  // ---- Extrinsics ----

  /** Recorded verdicts stay. */
  ghost predicate VerdictKept(p: Option<Prove>, p': Option<Prove>)
  {
    p.Some? ==> p'.Some? && (p.value.verdict.Some? ==> p'.value.verdict == p.value.verdict)
  }

  /** The same challenge later on: same snapshot and start, no verdict lost or changed. */
  ghost predicate Later(c: Challenge, c': Challenge)
  {
    c'.snapshot == c.snapshot && c'.start == c.start && VerdictKept(c.idle, c'.idle) && VerdictKept(c.service, c'.service)
  }

  ghost predicate SameSchedule(c: Challenge, c': Challenge)
  {
    c' == c.(idle := c'.idle, service := c'.service)
  }

  /** What a successful extrinsic may do: update one open challenge without touching its schedule. */
  ghost predicate Modest(s: Store, m: Miner, o: Outcome)
  {
    o.Ok? ==>
      && m in s.snapshots && m in o.store.snapshots
      && o.store.challengeSlip == s.challengeSlip && o.store.verifySlip == s.verifySlip
      && o.store.snapshots == s.snapshots[m := o.store.snapshots[m]]
      && SameSchedule(s.snapshots[m], o.store.snapshots[m]) && Later(s.snapshots[m], o.store.snapshots[m])
      && BothPassed(o.store.snapshots[m]) == BothPassed(s.snapshots[m]) + if o.rewarded then 1 else 0
  }

  lemma ProofsModest(s: Store, now: BlockNumber, m: Miner, proof: string, tee: Option<Tee>)
    ensures Modest(s, m, SubmittedIdle(s, now, m, proof, tee))
    ensures Modest(s, m, SubmittedService(s, now, m, proof, tee))
  {
  }

  lemma IdleVerdictModest(s: Store, m: Miner, report: IdleReport, tee: Tee, t: TeeAnswers)
    ensures Modest(s, m, VerifiedIdle(s, m, report, tee, t))
  {
    hide IdleAccepted;
  }

  lemma ServiceVerdictModest(s: Store, m: Miner, result: bool, bloom: string, tee: Tee, t: TeeAnswers)
    ensures Modest(s, m, VerifiedService(s, m, result, bloom, tee, t))
  {
    hide Counter;
  }

  lemma CommitKeepsMissions(w: World, m: Miner, o: Outcome)
    requires MissionsAgree(w.store) && Modest(w.store, m, o)
    ensures MissionsAgree(Commit(w, m, o).store)
  {
    hide BothPassed, Later;
  }

  lemma CommitKeepsHistory(cfg: Config, w: World, m: Miner, o: Outcome)
    requires HistoryOk(cfg, w) && Modest(w.store, m, o)
    ensures HistoryOk(cfg, Commit(w, m, o))
  {
    hide BothPassed, Later, LedgerFits, TimelyClose, SameSchedule;
    if o.Ok? {
      LedgerFollowsSchedule(cfg, w.store.snapshots[m], o.store.snapshots[m], w.ledgers[m]);
    }
  }

  lemma LedgerFollowsSchedule(cfg: Config, c: Challenge, c': Challenge, l: Ledger)
    requires LedgerFits(cfg, c, l) && SameSchedule(c, c')
    ensures LedgerFits(cfg, c', l)
  {
  }

  lemma ExtrinsicModest(w: World, e: Event)
    requires IsExtrinsic(e)
    ensures Modest(w.store, e.miner, Extrinsic(w, e))
  {
    hide Modest, SubmittedIdle, SubmittedService, VerifiedIdle, VerifiedService;
    match e {
      case IdleProof(m, proof, tee) => ProofsModest(w.store, w.now, m, proof, tee);
      case ServiceProof(m, proof, tee) => ProofsModest(w.store, w.now, m, proof, tee);
      case VerifyIdle(m, report, tee, t) => IdleVerdictModest(w.store, m, report, tee, t);
      case VerifyService(m, result, bloom, tee, t) => ServiceVerdictModest(w.store, m, result, bloom, tee, t);
    }
  }

  /** Every step keeps the invariant, whatever the casts do. */
  lemma StepKeeps(cfg: Config, w: World, e: Event)
    requires Invariant(cfg, w) && Enabled(cfg, w, e)
    ensures Invariant(cfg, Step(cfg, w, e))
  {
    hide HistoryOk, Modest, TryOpen, Extrinsic;
    if e.Block? {
      BlockKeeps(cfg, w, e);
    } else if e.PointMiner? {
      OpenKeeps(cfg, w, e.draw);
    } else if e.ResetCounter? {
      HistoryFollowsSnapshots(cfg, w, Step(cfg, w, e));
    } else {
      ExtrinsicModest(w, e);
      CommitKeepsMissions(w, e.miner, Extrinsic(w, e));
      CommitKeepsHistory(cfg, w, e.miner, Extrinsic(w, e));
    }
  }

  lemma {:induction false} InvariantAlongRun(cfg: Config, worlds: seq<World>, events: seq<Event>, i: nat)
    requires Run(cfg, worlds, events) && i < |worlds|
    ensures Invariant(cfg, worlds[i])
  {
    hide Step, Invariant, Enabled;
    if i == 0 {
      GenesisInvariant(cfg);
    } else {
      InvariantAlongRun(cfg, worlds, events, i - 1);
      assert worlds[i] == Step(cfg, worlds[i - 1], events[i - 1]);
      StepKeeps(cfg, worlds[i - 1], events[i - 1]);
    }
  }

  lemma GenesisInvariant(cfg: Config)
    ensures Invariant(cfg, GENESIS)
  {
  }
}
