/**
 The audit pallet: storage, the pure effect of every hook and extrinsic on it,
 and the casts and saturating sums of the source's 32-bit block numbers.

 Calls into other pallets (miner registry, TEE workers, randomness) are
 parameters. An extrinsic that returns an error changes nothing.
 */
module Audit {
  import opened Common

  type Miner = nat
  type Tee = nat
  type BlockNumber = nat

  const U128_MAX := 0xFFFF_FFFF_FFFF_FFFF_FFFF_FFFF_FFFF_FFFF

  const SERVICE_PROVE_RATE := 25_165_824
  const IDLE_PROVE_RATE := 203_613_264
  const IDLE_VERIFY_RATE := 2_147_483_648
  const SERVICE_FAULT_TOLERANT := 2

  function SatAdd(x: nat, y: nat): nat { if x + y > U32_MAX then U32_MAX else x + y }

  function Max(x: nat, y: nat): nat { if x > y then x else y }

  datatype Config = Config(oneDay: nat, oneHours: nat)

  datatype SpaceProof = SpaceProof(front: nat, rear: nat, accumulator: string)

  datatype MinerSnapshot = MinerSnapshot(idleSpace: nat, serviceSpace: nat, bloom: string, space: SpaceProof)

  datatype Prove = Prove(tee: Tee, proof: string, verdict: Option<bool>)

  datatype Challenge = Challenge(
    snapshot: MinerSnapshot,
    start: BlockNumber,
    idleSlip: BlockNumber,
    serviceSlip: BlockNumber,
    verifySlip: BlockNumber,
    assign: nat,
    idle: Option<Prove>,
    service: Option<Prove>)

  datatype Store = Store(
    snapshots: map<Miner, Challenge>,
    challengeSlip: set<(BlockNumber, Miner)>,
    verifySlip: set<(BlockNumber, Miner)>,
    countedClear: map<Miner, nat>,
    serviceFailed: map<Miner, nat>)

  function Counter(counters: map<Miner, nat>, m: Miner): nat
  {
    if m in counters then counters[m] else 0
  }

  // ---- Opening a challenge ----

  /** What the other pallets answer while a challenge is drawn. */
  datatype Draw = Draw(miner: Option<Miner>, snapshot: Option<MinerSnapshot>, params: bool, tees: nat)

  function ProveLife(space: nat, rate: nat): nat
    requires rate > 0
  {
    space / rate + 50
  }

  function VerifyLife(snapshot: MinerSnapshot, tees: nat): nat
    requires tees > 0
  {
    var space := snapshot.idleSpace + snapshot.serviceSpace;
    (if space > U128_MAX then U128_MAX else space) / IDLE_VERIFY_RATE / tees
  }

  function NewChallenge(cfg: Config, now: BlockNumber, snapshot: MinerSnapshot, tees: nat): Challenge
    requires tees > 0
  {
    var idleSlip := SatAdd(now, AsU32(ProveLife(snapshot.idleSpace, IDLE_PROVE_RATE)));
    var serviceSlip := SatAdd(now, AsU32(ProveLife(snapshot.serviceSpace, SERVICE_PROVE_RATE)));
    var verifySlip := SatAdd(SatAdd(Max(idleSlip, serviceSlip), AsU32(VerifyLife(snapshot, tees))), cfg.oneHours);
    Challenge(snapshot, now, idleSlip, serviceSlip, verifySlip, 0, None, None)
  }

  /** The later of the two proof deadlines. */
  function Deadline(c: Challenge): BlockNumber { Max(c.idleSlip, c.serviceSlip) }

  predicate Opens(s: Store, draw: Draw)
  {
    && draw.miner.Some? && draw.miner.value !in s.snapshots
    && draw.snapshot.Some? && draw.snapshot.value.idleSpace + draw.snapshot.value.serviceSpace != 0
    && draw.params && draw.tees > 0
  }

  /** Shared by the hook and by the root call that points at a miner. */
  function TryOpen(cfg: Config, s: Store, now: BlockNumber, draw: Draw): Store
  {
    if !Opens(s, draw) then s
    else
      var m, c := draw.miner.value, NewChallenge(cfg, now, draw.snapshot.value, draw.tees);
      s.(snapshots := s.snapshots[m := c],
         challengeSlip := s.challengeSlip + {(Deadline(c), m)},
         verifySlip := s.verifySlip + {(c.verifySlip, m)})
  }

  predicate DrawsAt(cfg: Config, now: BlockNumber)
  {
    now >= (if cfg.oneDay * 3 > U32_MAX then U32_MAX else cfg.oneDay * 3) && now % 10 == 0
  }

  function Generated(cfg: Config, s: Store, now: BlockNumber, draw: Draw): Store
  {
    if DrawsAt(cfg, now) then TryOpen(cfg, s, now, draw) else s
  }

  // ---- Deadlines ----

  /** One expired proof deadline: count a miner that sent no service proof, drop the slip. */
  function Cleared(s: Store, now: BlockNumber, m: Miner): Store
  {
    var slips := s.challengeSlip - {(now, m)};
    if m in s.snapshots && s.snapshots[m].service.None? then
      var count := if Counter(s.countedClear, m) + 1 > 255 then 3 else Counter(s.countedClear, m) + 1;
      s.(challengeSlip := slips,
         countedClear := if count >= 30 then s.countedClear - {m} else s.countedClear[m := count])
    else s.(challengeSlip := slips)
  }

  predicate Decided(p: Option<Prove>) { p.None? || p.value.verdict.Some? }

  /** A mission ends when every submitted proof has its verdict, or after two reassignments. */
  predicate Closes(c: Challenge)
  {
    c.assign >= 2 || (Decided(c.idle) && Decided(c.service))
  }

  function HandedTo(p: Option<Prove>, tee: Option<Tee>): Option<Prove>
  {
    if p.Some? && tee.Some? then Some(p.value.(tee := tee.value)) else p
  }

  function MaxSpace(c: Challenge): nat { Max(c.snapshot.idleSpace, c.snapshot.serviceSpace) }

  function Reassigned(cfg: Config, c: Challenge, now: BlockNumber, tee: Option<Tee>): Challenge
  {
    var life := AsU32(MaxSpace(c) / IDLE_VERIFY_RATE + cfg.oneHours);
    c.(assign := c.assign + 1, idle := HandedTo(c.idle, tee), service := HandedTo(c.service, tee),
       verifySlip := SatAdd(now, life))
  }

  /** One expired verification deadline: close the challenge or hand it on. */
  function Visited(cfg: Config, s: Store, now: BlockNumber, m: Miner, tee: Option<Tee>): Store
  {
    if m !in s.snapshots then s
    else if Closes(s.snapshots[m]) then
      s.(verifySlip := s.verifySlip - {(now, m)}, snapshots := s.snapshots - {m})
    else
      var c := Reassigned(cfg, s.snapshots[m], now, tee);
      s.(verifySlip := s.verifySlip - {(now, m)} + {(c.verifySlip, m)}, snapshots := s.snapshots[m := c])
  }

  function ClearedAll(s: Store, now: BlockNumber, ms: seq<Miner>): Store
  {
    if ms == [] then s else Cleared(ClearedAll(s, now, ms[..|ms| - 1]), now, ms[|ms| - 1])
  }

  function VisitedAll(cfg: Config, s: Store, now: BlockNumber, ms: seq<Miner>, tee: Option<Tee>): Store
  {
    if ms == [] then s else Visited(cfg, VisitedAll(cfg, s, now, ms[..|ms| - 1], tee), now, ms[|ms| - 1], tee)
  }

  lemma {:induction false} ClearKeepsMissions(s: Store, now: BlockNumber, ms: seq<Miner>)
    ensures ClearedAll(s, now, ms).snapshots == s.snapshots && ClearedAll(s, now, ms).verifySlip == s.verifySlip
  {
    if ms != [] {
      ClearKeepsMissions(s, now, ms[..|ms| - 1]);
    }
  }

  /** Some iteration order over the slips of one block. */
  ghost predicate Enumerates(ms: seq<Miner>, slips: set<(BlockNumber, Miner)>, now: BlockNumber)
  {
    && (forall m :: m in ms <==> (now, m) in slips)
    && (forall i, j :: 0 <= i < j < |ms| ==> ms[i] != ms[j])
  }

  // ---- Extrinsics ----

  datatype AuditError =
    | NoChallenge | Expired | Submitted | NoTee | UnSubmitted | NonExistentMission
    | TeeNoPermission | MalformedSignature | VerifyTeeSigFailed | BloomFilterError | Overflow | ExternalError

  datatype Outcome = Ok(store: Store, rewarded: bool) | Err(error: AuditError)

  function SubmittedIdle(s: Store, now: BlockNumber, m: Miner, proof: string, tee: Option<Tee>): Outcome
  {
    if m !in s.snapshots then Err(NoChallenge)
    else
      var c := s.snapshots[m];
      if now > c.idleSlip then Err(Expired)
      else if c.idle.Some? then Err(Submitted)
      else if tee.None? then Err(NoTee)
      else Ok(s.(snapshots := s.snapshots[m := c.(idle := Some(Prove(tee.value, proof, None)))],
                 countedClear := if c.service.Some? then s.countedClear[m := 0] else s.countedClear), false)
  }

  function SubmittedService(s: Store, now: BlockNumber, m: Miner, proof: string, tee: Option<Tee>): Outcome
  {
    if m !in s.snapshots then Err(NoChallenge)
    else
      var c := s.snapshots[m];
      if now > c.serviceSlip then Err(Expired)
      else if c.service.Some? then Err(Submitted)
      else if tee.None? then Err(NoTee)
      else Ok(s.(snapshots := s.snapshots[m := c.(service := Some(Prove(tee.value, proof, None)))],
                 countedClear := if c.idle.Some? then s.countedClear[m := 0] else s.countedClear), false)
  }

  /** What the TEE and miner pallets answer while a verdict is submitted. */
  datatype TeeAnswers = TeeAnswers(
    canVerify: bool,
    wellFormed: bool,
    masterSignature: bool,
    workRecorded: bool,
    snapshotRecorded: bool,
    punished: bool,
    credited: bool)

  /** The checks that both verdict extrinsics make on a submitted proof. */
  function MissionError(p: Option<Prove>, tee: Tee, t: TeeAnswers): Option<AuditError>
  {
    if p.None? then Some(UnSubmitted)
    else if tee != p.value.tee then Some(NonExistentMission)
    else if p.value.verdict.Some? then Some(Submitted)
    else if !t.canVerify then Some(TeeNoPermission)
    else if !t.wellFormed then Some(MalformedSignature)
    else if !t.masterSignature then Some(VerifyTeeSigFailed)
    else None
  }

  predicate Passed(p: Option<Prove>) { p.Some? && p.value.verdict == Some(true) }

  datatype IdleReport = IdleReport(proofHash: string, space: SpaceProof, result: bool)

  /** A reported success counts only if the report matches the snapshot. */
  predicate IdleAccepted(c: Challenge, report: IdleReport)
    requires c.idle.Some?
  {
    report.result && report.space == c.snapshot.space && report.proofHash == c.idle.value.proof
  }

  function VerifiedIdle(s: Store, m: Miner, report: IdleReport, tee: Tee, t: TeeAnswers): Outcome
  {
    if m !in s.snapshots then Err(NoChallenge)
    else
      var c := s.snapshots[m];
      var error := MissionError(c.idle, tee, t);
      if error.Some? then Err(error.value)
      else if !t.workRecorded then Err(ExternalError)
      else
        var result := IdleAccepted(c, report);
        var rewarded := result && Passed(c.service);
        if rewarded && !t.snapshotRecorded then Err(ExternalError)
        else if c.snapshot.space.rear < c.snapshot.space.front then Err(Overflow)
        else if !t.credited then Err(ExternalError)
        else Ok(s.(snapshots := s.snapshots[m := c.(idle := Some(c.idle.value.(verdict := Some(result))))]), rewarded)
  }

  function VerifiedService(s: Store, m: Miner, result: bool, bloom: string, tee: Tee, t: TeeAnswers): Outcome
  {
    if m !in s.snapshots then Err(NoChallenge)
    else
      var c := s.snapshots[m];
      var error := MissionError(c.service, tee, t);
      if error.Some? then Err(error.value)
      else if bloom != c.snapshot.bloom then Err(BloomFilterError)
      else if !t.workRecorded then Err(ExternalError)
      else
        var rewarded := result && Passed(c.idle);
        var failed := if Counter(s.serviceFailed, m) + 1 > U32_MAX then SERVICE_FAULT_TOLERANT
                      else Counter(s.serviceFailed, m) + 1;
        if rewarded && !t.snapshotRecorded then Err(ExternalError)
        else if !result && failed >= SERVICE_FAULT_TOLERANT && !t.punished then Err(ExternalError)
        else if !t.credited then Err(ExternalError)
        else Ok(s.(snapshots := s.snapshots[m := c.(service := Some(c.service.value.(verdict := Some(result))))],
                   serviceFailed := s.serviceFailed[m := if result then 0 else failed]), rewarded)
  }
}
