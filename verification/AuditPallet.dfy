/** The audit pallet as a mutable object: hooks iterate over storage in any order, extrinsics are transactional. */
module AuditPallet {
  import opened Common
  import opened Audit

  class Pallet {
    const cfg: Config
    var snapshots: map<Miner, Challenge>
    var challengeSlip: set<(BlockNumber, Miner)>
    var verifySlip: set<(BlockNumber, Miner)>
    var countedClear: map<Miner, nat>
    var serviceFailed: map<Miner, nat>

    ghost function View(): Store
      reads this
    {
      Store(snapshots, challengeSlip, verifySlip, countedClear, serviceFailed)
    }

    constructor (cfg: Config)
      ensures this.cfg == cfg && View() == Store(map[], {}, {}, map[], map[])
    {
      this.cfg := cfg;
      snapshots, challengeSlip, verifySlip, countedClear, serviceFailed := map[], {}, {}, map[], map[];
    }

    /** The three block hooks in the source's order; the ghost results are the iteration orders. */
    method OnInitialize(now: BlockNumber, draw: Draw, tee: Option<Tee>)
      returns (ghost expired: seq<Miner>, ghost missions: seq<Miner>)
      modifies this
      ensures var s1 := Generated(cfg, old(View()), now, draw);
              && Enumerates(expired, s1.challengeSlip, now) && Enumerates(missions, s1.verifySlip, now)
              && View() == VisitedAll(cfg, ClearedAll(s1, now, expired), now, missions, tee)
    {
      GenerateChallenge(now, draw);
      ghost var s1 := View();
      expired := ClearChallenge(now);
      ClearKeepsMissions(s1, now, expired);
      missions := ClearVerifyMission(now, tee);
    }

    method GenerateChallenge(now: BlockNumber, draw: Draw)
      modifies this
      ensures View() == Generated(cfg, old(View()), now, draw)
    {
      if now < (if cfg.oneDay * 3 > U32_MAX then U32_MAX else cfg.oneDay * 3) {
        return;
      }
      if now % 10 != 0 {
        return;
      }
      OpenChallenge(now, draw);
    }

    /** The root call that points at a miner runs this part alone. */
    method OpenChallenge(now: BlockNumber, draw: Draw)
      modifies this
      ensures View() == TryOpen(cfg, old(View()), now, draw)
    {
      if draw.miner.None? || draw.miner.value in snapshots || draw.snapshot.None? {
        return;
      }
      var m, snapshot := draw.miner.value, draw.snapshot.value;
      if snapshot.idleSpace + snapshot.serviceSpace == 0 || !draw.params || draw.tees == 0 {
        return;
      }
      var c := NewChallenge(cfg, now, snapshot, draw.tees);
      snapshots := snapshots[m := c];
      challengeSlip := challengeSlip + {(Deadline(c), m)};
      verifySlip := verifySlip + {(c.verifySlip, m)};
    }

    method ClearChallenge(now: BlockNumber) returns (ghost order: seq<Miner>)
      modifies this
      ensures Enumerates(order, old(challengeSlip), now)
      ensures View() == ClearedAll(old(View()), now, order)
    {
      order := [];
      var todo := set p | p in challengeSlip && p.0 == now :: p.1;
      while todo != {}
        invariant forall m :: m in order <==> (now, m) in old(challengeSlip) && m !in todo
        invariant forall m :: m in todo ==> (now, m) in old(challengeSlip)
        invariant forall i, j :: 0 <= i < j < |order| ==> order[i] != order[j]
        invariant View() == ClearedAll(old(View()), now, order)
        decreases |todo|
      {
        var m :| m in todo;
        ClearSlip(now, m);
        assert (order + [m])[..|order|] == order;
        order, todo := order + [m], todo - {m};
      }
    }

    method ClearSlip(now: BlockNumber, m: Miner)
      modifies this
      ensures View() == Cleared(old(View()), now, m)
    {
      if m in snapshots && snapshots[m].service.None? {
        var count := Counter(countedClear, m) + 1;
        if count > 255 {
          count := 3;
        }
        if count >= 30 {
          countedClear := countedClear - {m};
        } else {
          countedClear := countedClear[m := count];
        }
      }
      challengeSlip := challengeSlip - {(now, m)};
    }

    method ClearVerifyMission(now: BlockNumber, tee: Option<Tee>) returns (ghost order: seq<Miner>)
      modifies this
      ensures Enumerates(order, old(verifySlip), now)
      ensures View() == VisitedAll(cfg, old(View()), now, order, tee)
    {
      order := [];
      var todo := set p | p in verifySlip && p.0 == now :: p.1;
      while todo != {}
        invariant forall m :: m in order <==> (now, m) in old(verifySlip) && m !in todo
        invariant forall m :: m in todo ==> (now, m) in old(verifySlip)
        invariant forall i, j :: 0 <= i < j < |order| ==> order[i] != order[j]
        invariant View() == VisitedAll(cfg, old(View()), now, order, tee)
        decreases |todo|
      {
        var m :| m in todo;
        VisitMission(now, m, tee);
        assert (order + [m])[..|order|] == order;
        order, todo := order + [m], todo - {m};
      }
    }

    method VisitMission(now: BlockNumber, m: Miner, tee: Option<Tee>)
      modifies this
      ensures View() == Visited(cfg, old(View()), now, m, tee)
    {
      var flag := false;
      if m in snapshots {
        flag := MissionOver(snapshots[m]);
      }
      if flag {
        verifySlip := verifySlip - {(now, m)};
        snapshots := snapshots - {m};
      } else if m in snapshots {
        var c := Reassign(cfg, snapshots[m], now, tee);
        verifySlip := verifySlip - {(now, m)};
        verifySlip := verifySlip + {(c.verifySlip, m)};
        snapshots := snapshots[m := c];
      }
    }

    method SubmitIdleProof(now: BlockNumber, m: Miner, proof: string, tee: Option<Tee>) returns (e: Option<AuditError>)
      modifies this
      ensures Commits(SubmittedIdle(old(View()), now, m, proof, tee), old(View()), View(), e)
    {
      if m !in snapshots {
        return Some(NoChallenge);
      }
      var c := snapshots[m];
      if now > c.idleSlip {
        return Some(Expired);
      }
      if c.idle.Some? {
        return Some(Submitted);
      }
      if tee.None? {
        return Some(NoTee);
      }
      snapshots := snapshots[m := c.(idle := Some(Prove(tee.value, proof, None)))];
      if c.service.Some? {
        countedClear := countedClear[m := 0];
      }
      e := None;
    }

    method SubmitServiceProof(now: BlockNumber, m: Miner, proof: string, tee: Option<Tee>) returns (e: Option<AuditError>)
      modifies this
      ensures Commits(SubmittedService(old(View()), now, m, proof, tee), old(View()), View(), e)
    {
      if m !in snapshots {
        return Some(NoChallenge);
      }
      var c := snapshots[m];
      if now > c.serviceSlip {
        return Some(Expired);
      }
      if c.service.Some? {
        return Some(Submitted);
      }
      if tee.None? {
        return Some(NoTee);
      }
      snapshots := snapshots[m := c.(service := Some(Prove(tee.value, proof, None)))];
      if c.idle.Some? {
        countedClear := countedClear[m := 0];
      }
      e := None;
    }

    method SubmitVerifyIdleResult(m: Miner, report: IdleReport, tee: Tee, t: TeeAnswers)
      returns (e: Option<AuditError>, rewarded: bool)
      modifies this
      ensures Commits(VerifiedIdle(old(View()), m, report, tee, t), old(View()), View(), e)
      ensures e.None? ==> rewarded == VerifiedIdle(old(View()), m, report, tee, t).rewarded
    {
      rewarded := false;
      if m !in snapshots {
        return Some(NoChallenge), false;
      }
      var c := snapshots[m];
      e := MissionError(c.idle, tee, t);
      if e.Some? {
        return;
      }
      if !t.workRecorded {
        return Some(ExternalError), false;
      }
      var idleResult := report.result;
      if report.space.accumulator != c.snapshot.space.accumulator {
        idleResult := false;
      }
      if report.space.rear != c.snapshot.space.rear {
        idleResult := false;
      }
      if report.space.front != c.snapshot.space.front {
        idleResult := false;
      }
      if report.proofHash != c.idle.value.proof {
        idleResult := false;
      }
      if c.service.Some? && c.service.value.verdict.Some? {
        if idleResult && c.service.value.verdict.value {
          if !t.snapshotRecorded {
            return Some(ExternalError), false;
          }
          rewarded := true;
        }
      }
      if c.snapshot.space.rear < c.snapshot.space.front {
        return Some(Overflow), false;
      }
      if !t.credited {
        return Some(ExternalError), false;
      }
      snapshots := snapshots[m := c.(idle := Some(c.idle.value.(verdict := Some(idleResult))))];
    }

    method SubmitVerifyServiceResult(m: Miner, result: bool, bloom: string, tee: Tee, t: TeeAnswers)
      returns (e: Option<AuditError>, rewarded: bool)
      modifies this
      ensures Commits(VerifiedService(old(View()), m, result, bloom, tee, t), old(View()), View(), e)
      ensures e.None? ==> rewarded == VerifiedService(old(View()), m, result, bloom, tee, t).rewarded
    {
      rewarded := false;
      if m !in snapshots {
        return Some(NoChallenge), false;
      }
      var c := snapshots[m];
      e := MissionError(c.service, tee, t);
      if e.Some? {
        return;
      }
      if bloom != c.snapshot.bloom {
        return Some(BloomFilterError), false;
      }
      if !t.workRecorded {
        return Some(ExternalError), false;
      }
      if c.idle.Some? && c.idle.value.verdict.Some? {
        if c.idle.value.verdict.value && result {
          if !t.snapshotRecorded {
            return Some(ExternalError), false;
          }
          rewarded := true;
        }
      }
      var count := 0;
      if !result {
        count := Counter(serviceFailed, m) + 1;
        if count > U32_MAX {
          count := SERVICE_FAULT_TOLERANT;
        }
        if count >= SERVICE_FAULT_TOLERANT && !t.punished {
          return Some(ExternalError), false;
        }
      }
      if !t.credited {
        return Some(ExternalError), false;
      }
      snapshots := snapshots[m := c.(service := Some(c.service.value.(verdict := Some(result))))];
      serviceFailed := serviceFailed[m := count];
    }
  }

  method MissionOver(c: Challenge) returns (flag: bool)
    ensures flag == Closes(c)
  {
    flag := false;
    if c.idle.Some? {
      if c.idle.value.verdict.Some? {
        flag := true;
      }
    } else {
      flag := true;
    }
    if c.service.Some? && c.service.value.verdict.None? {
      flag := false;
    }
    if c.assign >= 2 {
      flag := true;
    }
    if c.idle.None? && c.service.None? {
      flag := true;
    }
  }

  method Reassign(cfg: Config, challenge: Challenge, now: BlockNumber, tee: Option<Tee>) returns (c: Challenge)
    ensures c == Reassigned(cfg, challenge, now, tee)
  {
    c := challenge.(assign := challenge.assign + 1);
    if c.idle.Some? && tee.Some? {
      c := c.(idle := Some(c.idle.value.(tee := tee.value)));
    }
    if c.service.Some? && tee.Some? {
      c := c.(service := Some(c.service.value.(tee := tee.value)));
    }
    var maxSpace := if c.snapshot.idleSpace > c.snapshot.serviceSpace then c.snapshot.idleSpace
                    else c.snapshot.serviceSpace;
    var life := AsU32(maxSpace / IDLE_VERIFY_RATE + cfg.oneHours);
    c := c.(verifySlip := SatAdd(now, life));
  }

  /** A transactional extrinsic: success takes full effect, an error none. */
  ghost predicate Commits(o: Outcome, before: Store, after: Store, e: Option<AuditError>)
  {
    match o
    case Ok(store, _) => e.None? && after == store
    case Err(error) => e == Some(error) && after == before
  }
}
