/**
 The casts at work: runs that reach an overdue proof slip, and a challenge that is
 never closed.
 */
module AuditWitness {
  import opened Common
  import opened Audit
  import opened AuditRuns
  import opened AuditSlips
  import opened AuditClosing

  /** A call that opens a challenge whose lives wrap to zero: its slip is overdue from the start. */
  lemma WrappedLifeIsOverdue(cfg: Config, m: Miner) returns (worlds: seq<World>, events: seq<Event>)
    ensures Run(cfg, worlds, events) && |worlds| == 2 && !Agreement(worlds[1].store, worlds[1].now)
    ensures (worlds[1].now, m) in worlds[1].store.challengeSlip
  {
    var wrap := U32_MAX + 1 - 50;
    var snapshot := MinerSnapshot(wrap * IDLE_PROVE_RATE, wrap * SERVICE_PROVE_RATE, "", SpaceProof(0, 0, ""));
    var draw := Draw(Some(m), Some(snapshot), true, 1);
    events := [PointMiner(draw)];
    worlds := [GENESIS, Step(cfg, GENESIS, events[0])];
    assert ProveLife(snapshot.idleSpace, IDLE_PROVE_RATE) == U32_MAX + 1;
    assert ProveLife(snapshot.serviceSpace, SERVICE_PROVE_RATE) == U32_MAX + 1;
    assert ProofLife(draw) == 0;
    OpeningTimes(cfg, 0, draw);
    GenesisAgreement();
    OpeningByCallExact(cfg, GENESIS.store, 0, draw);
  }

  // ---- A miner so large that an extension wraps to nothing ----

  const HOUR_CONFIG := Config(14400, 600)
  const HUGE := MinerSnapshot((U32_MAX + 1 - 600) * IDLE_VERIFY_RATE, 0, "", SpaceProof(0, 0, ""))

  function HugeDraw(m: Miner): Draw { Draw(Some(m), Some(HUGE), true, 4) }

  /** The challenge with its idle proof submitted and no verdict. */
  function Undecided(): Challenge
  {
    NewChallenge(HOUR_CONFIG, 0, HUGE, 4).(idle := Some(Prove(0, "", None)))
  }

  lemma HugeOpening(m: Miner)
    ensures CallGuard(HOUR_CONFIG, 0, HugeDraw(m)) && Opens(GENESIS.store, HugeDraw(m))
    ensures var c := Undecided();
            && 0 < Deadline(c) < c.verifySlip < U32_MAX && !Closes(c)
            && Life(HOUR_CONFIG, c) == U32_MAX + 1
  {
    assert ProveLife(HUGE.idleSpace, IDLE_PROVE_RATE) == 45298477011;
    assert AsU32(45298477011) == 2348804051;
    assert ProveLife(HUGE.serviceSpace, SERVICE_PROVE_RATE) == 50;
    assert VerifyLife(HUGE, 4) == 1073741674;
  }

  /** The storage after the hooks of a block before the verification deadline. */
  function StoreAt(m: Miner, b: BlockNumber): Store
  {
    var c := Undecided();
    Store(map[m := c], if b < Deadline(c) then {(Deadline(c), m)} else {}, {(c.verifySlip, m)},
          if b < Deadline(c) then map[] else map[m := 1], map[])
  }

  function WorldAt(m: Miner, b: BlockNumber): World
  {
    World(b, StoreAt(m, b), map[m := Ledger(0, Undecided().verifySlip, 0)], 1, map[], multiset{})
  }

  const NO_DRAW := Draw(None, None, false, 0)

  /** A block that draws nobody and handles what is due. */
  function QuietBlock(m: Miner, b: BlockNumber): Event
  {
    var c := Undecided();
    Block(NO_DRAW, None, if b == Deadline(c) then [m] else [], if b == c.verifySlip then [m] else [])
  }

  lemma QuietDraw(cfg: Config, w: World)
    ensures Drawn(cfg, w, NO_DRAW) == w
  {
  }

  lemma QuietStep(m: Miner, b: BlockNumber)
    requires 0 < Deadline(Undecided()) < Undecided().verifySlip < U32_MAX && b + 1 <= Undecided().verifySlip
    ensures Enabled(HOUR_CONFIG, WorldAt(m, b), QuietBlock(m, b + 1))
    ensures b + 1 < Undecided().verifySlip ==>
            Step(HOUR_CONFIG, WorldAt(m, b), QuietBlock(m, b + 1)) == WorldAt(m, b + 1)
  {
    hide NewChallenge, Drawn, Closes, Deadline;
    var w, c := WorldAt(m, b), Undecided();
    QuietDraw(HOUR_CONFIG, NextBlock(w));
    var expired := QuietBlock(m, b + 1).expired;
    assert expired != [] ==> expired[..0] == [];
    QuietClear(m, b);
  }

  lemma QuietClear(m: Miner, b: BlockNumber)
    requires 0 < Deadline(Undecided())
    ensures ClearedAll(StoreAt(m, b), b + 1, QuietBlock(m, b + 1).expired) == StoreAt(m, b + 1)
  {
    hide NewChallenge, Deadline;
    var s, expired := StoreAt(m, b), QuietBlock(m, b + 1).expired;
    assert Undecided().service.None? by { NoService(); }
    if expired != [] {
      assert expired[..0] == [] && ClearedAll(s, b + 1, expired) == Cleared(s, b + 1, m);
    }
  }

  lemma NoService()
    ensures Undecided().service.None?
  {
  }

  lemma FirstSteps(m: Miner)
    requires Opens(GENESIS.store, HugeDraw(m)) && 0 < Deadline(Undecided())
    ensures var w := Step(HOUR_CONFIG, GENESIS, PointMiner(HugeDraw(m)));
            Step(HOUR_CONFIG, w, IdleProof(m, "", Some(0))) == WorldAt(m, 0)
  {
    hide SatAdd, ProveLife, VerifyLife, AsU32;
    var w := Step(HOUR_CONFIG, GENESIS, PointMiner(HugeDraw(m)));
    var c := NewChallenge(HOUR_CONFIG, 0, HUGE, 4);
    assert w.store.snapshots == map[m := c];
    assert Deadline(c) == Deadline(Undecided());
  }

  /** A run can be extended by any event that is enabled. */
  lemma Extend(cfg: Config, worlds: seq<World>, events: seq<Event>, e: Event)
    requires Run(cfg, worlds, events) && Enabled(cfg, worlds[|events|], e)
    ensures Run(cfg, worlds + [Step(cfg, worlds[|events|], e)], events + [e])
  {
    hide Step, Enabled;
  }

  /** The blocks up to the deadline pass without anyone acting. */
  lemma {:induction false} WaitUntil(m: Miner, b: BlockNumber) returns (worlds: seq<World>, events: seq<Event>)
    requires b < Undecided().verifySlip
    ensures Run(HOUR_CONFIG, worlds, events) && worlds[|events|] == WorldAt(m, b)
    ensures events != [] && events[0] == PointMiner(HugeDraw(m))
    decreases b
  {
    hide Step, Enabled, NewChallenge, Opens, Deadline, CallGuard;
    HugeOpening(m);
    if b == 0 {
      FirstSteps(m);
      worlds, events := [GENESIS], [];
      AlwaysEnabled(GENESIS, PointMiner(HugeDraw(m)));
      Extend(HOUR_CONFIG, worlds, events, PointMiner(HugeDraw(m)));
      worlds, events := worlds + [Step(HOUR_CONFIG, GENESIS, PointMiner(HugeDraw(m)))], events + [PointMiner(HugeDraw(m))];
      AlwaysEnabled(worlds[1], IdleProof(m, "", Some(0)));
      Extend(HOUR_CONFIG, worlds, events, IdleProof(m, "", Some(0)));
      worlds, events := worlds + [Step(HOUR_CONFIG, worlds[1], IdleProof(m, "", Some(0)))], events + [IdleProof(m, "", Some(0))];
    } else {
      worlds, events := WaitUntil(m, b - 1);
      QuietStep(m, b - 1);
      Extend(HOUR_CONFIG, worlds, events, QuietBlock(m, b));
      worlds, events := worlds + [Step(HOUR_CONFIG, worlds[|events|], QuietBlock(m, b))], events + [QuietBlock(m, b)];
    }
  }

  lemma AlwaysEnabled(w: World, e: Event)
    requires !e.Block?
    ensures Enabled(HOUR_CONFIG, w, e)
  {
  }

  /** A run that opens a challenge within its guard and has its extension wrap to nothing at the deadline: it is stuck. */
  lemma WrappedExtensionIsStuck(m: Miner) returns (worlds: seq<World>, events: seq<Event>)
    ensures Run(HOUR_CONFIG, worlds, events) && events != []
    ensures events[0] == PointMiner(HugeDraw(m)) && CallGuard(HOUR_CONFIG, 0, HugeDraw(m))
    ensures |worlds| == |events| + 1 && Stuck(worlds[|events|], m) && OpenAs(worlds[|events|], m, 0)
    ensures !Agreement(worlds[|events|].store, worlds[|events|].now)
  {
    hide Step, Enabled, NewChallenge, Opens, Deadline, CallGuard, Agreement;
    HugeOpening(m);
    var last := Undecided().verifySlip - 1;
    worlds, events := WaitUntil(m, last);
    var n, e := |events|, QuietBlock(m, last + 1);
    QuietStep(m, last);
    Extend(HOUR_CONFIG, worlds, events, e);
    worlds, events := worlds + [Step(HOUR_CONFIG, worlds[n], e)], events + [e];
    InvariantAlongRun(HOUR_CONFIG, worlds, events, n);
    assert worlds[n + 1] == Step(HOUR_CONFIG, worlds[n], e);
    NotExtended(m);
    GetsStuckExactly(HOUR_CONFIG, worlds[n], e, m);
    UnservedStuck(HOUR_CONFIG, worlds, events, n, m, 0);
    StuckDisagrees(worlds[n + 1], m);
  }

  lemma NotExtended(m: Miner)
    requires !Closes(Undecided()) && Life(HOUR_CONFIG, Undecided()) == U32_MAX + 1
    ensures forall now :: !ExtensionGuard(HOUR_CONFIG, now, Undecided())
  {
  }

  lemma StuckDisagrees(w: World, m: Miner)
    requires Stuck(w, m)
    ensures !Agreement(w.store, w.now)
  {
    assert (w.store.snapshots[m].verifySlip, m) in w.store.verifySlip || !MissionsAgree(w.store);
  }

  /** And whatever happens afterwards, it is never closed. */
  lemma NeverClosed(m: Miner) returns (worlds: seq<World>, events: seq<Event>)
    ensures Run(HOUR_CONFIG, worlds, events) && OpenAs(worlds[|events|], m, 0)
    ensures forall worlds': seq<World>, events': seq<Event>, j: nat :: Run(HOUR_CONFIG, worlds', events') && worlds <= worlds' && |events| <= j < |worlds'| ==>
              OpenAs(worlds'[j], m, 0) && 0 !in worlds'[j].closed
  {
    hide Step, Enabled, Run, Agreement, CallGuard;
    worlds, events := WrappedExtensionIsStuck(m);
    var n := |events|;
    forall worlds': seq<World>, events': seq<Event>, j: nat | Run(HOUR_CONFIG, worlds', events') && worlds <= worlds' && n <= j < |worlds'|
      ensures OpenAs(worlds'[j], m, 0) && 0 !in worlds'[j].closed
    {
      StuckForEver(HOUR_CONFIG, worlds', events', n, j, m);
    }
    StuckForEver(HOUR_CONFIG, worlds, events, n, n, m);
  }
}
