/**
 When the two slip maps agree with the open challenges. Deadlines are cast to 32
 bits and added with saturation, so the agreement has a price: it survives an
 event exactly if the guards below hold, and it holds along a run exactly if they
 hold at every event.
 */
module AuditSlips {
  import opened Common
  import opened Audit
  import opened AuditRuns

  // ---- The agreement ----

  /** ChallengeSlip names open challenges at their later proof deadline, before verification ends unless it is this block's. */
  ghost predicate SlipsAgree(s: Store, expired: set<Miner>)
  {
    forall b, m :: (b, m) in s.challengeSlip ==>
      m in s.snapshots && b == Deadline(s.snapshots[m]) && (m in expired || b < s.snapshots[m].verifySlip)
  }

  /** Nothing is overdue except slips of this block that a hook has yet to handle. */
  ghost predicate Upcoming(s: Store, now: BlockNumber, expired: set<Miner>, missions: set<Miner>)
  {
    && (forall b, m :: (b, m) in s.challengeSlip ==> b > now || (b == now && m in expired))
    && (forall b, m :: (b, m) in s.verifySlip ==> b > now || (b == now && m in missions))
  }

  /** A proof deadline still ahead is noted. */
  ghost predicate DeadlinesNoted(s: Store, now: BlockNumber)
  {
    forall m :: m in s.snapshots && Deadline(s.snapshots[m]) > now ==> (Deadline(s.snapshots[m]), m) in s.challengeSlip
  }

  /** Proofs are due before verification ends. */
  ghost predicate ProofsFirst(s: Store, missions: set<Miner>)
  {
    forall m :: m in s.snapshots && m !in missions ==> Deadline(s.snapshots[m]) < s.snapshots[m].verifySlip
  }

  /** The agreement while the hooks of a block still have the given miners to handle. */
  ghost predicate SlipsOk(s: Store, now: BlockNumber, expired: set<Miner>, missions: set<Miner>)
  {
    && MissionsAgree(s) && Upcoming(s, now, expired, missions)
    && SlipsAgree(s, expired) && DeadlinesNoted(s, now) && ProofsFirst(s, missions)
  }

  ghost predicate Agreement(s: Store, now: BlockNumber)
  {
    SlipsOk(s, now, {}, {})
  }

  // ---- The guards ----

  function IdleLife(draw: Draw): nat
    requires draw.snapshot.Some?
  {
    AsU32(ProveLife(draw.snapshot.value.idleSpace, IDLE_PROVE_RATE))
  }

  function ServiceLife(draw: Draw): nat
    requires draw.snapshot.Some?
  {
    AsU32(ProveLife(draw.snapshot.value.serviceSpace, SERVICE_PROVE_RATE))
  }

  function ProofLife(draw: Draw): nat
    requires draw.snapshot.Some?
  {
    Max(IdleLife(draw), ServiceLife(draw))
  }

  function CheckLife(cfg: Config, draw: Draw): nat
    requires draw.snapshot.Some? && draw.tees > 0
  {
    AsU32(VerifyLife(draw.snapshot.value, draw.tees)) + cfg.oneHours
  }

  /** After the hooks of its block an opening needs time for proofs and for verification after them. */
  predicate CallGuard(cfg: Config, now: BlockNumber, draw: Draw)
    requires draw.snapshot.Some? && draw.tees > 0
  {
    0 < ProofLife(draw) && now + ProofLife(draw) < U32_MAX && 0 < CheckLife(cfg, draw)
  }

  /** Before the clearing hook a challenge without time for proofs is cleared at once, so only the rest matters. */
  predicate HookGuard(cfg: Config, now: BlockNumber, draw: Draw)
    requires draw.snapshot.Some? && draw.tees > 0
  {
    0 == ProofLife(draw) || now == U32_MAX || CallGuard(cfg, now, draw)
  }

  /** An extension needs a length. */
  predicate ExtensionGuard(cfg: Config, now: BlockNumber, c: Challenge)
  {
    Closes(c) || (0 < AsU32(Life(cfg, c)) && now < U32_MAX)
  }

  ghost predicate GuardsMet(cfg: Config, w: World, e: Event)
  {
    match e
    case Block(draw, _, _, missions) =>
      && (DrawsAt(cfg, w.now + 1) && Opens(w.store, draw) ==> HookGuard(cfg, w.now + 1, draw))
      && (forall m :: m in missions && m in w.store.snapshots ==> ExtensionGuard(cfg, w.now + 1, w.store.snapshots[m]))
    case PointMiner(draw) => Opens(w.store, draw) ==> CallGuard(cfg, w.now, draw)
    case _ => true
  }

  // ---- Opening ----

  lemma OpeningTimes(cfg: Config, now: BlockNumber, draw: Draw)
    requires draw.snapshot.Some? && draw.tees > 0 && now <= U32_MAX
    ensures var c := NewChallenge(cfg, now, draw.snapshot.value, draw.tees);
            && now <= Deadline(c) <= c.verifySlip
            && (Deadline(c) == now <==> 0 == ProofLife(draw) || now == U32_MAX)
            && (Deadline(c) < c.verifySlip <==> Deadline(c) < U32_MAX && 0 < CheckLife(cfg, draw))
            && (Deadline(c) < U32_MAX <==> now + ProofLife(draw) < U32_MAX)
  {
    hide ProveLife, VerifyLife, AsU32;
  }

  /** The root call, made after the hooks of its block, keeps the agreement exactly under its guard. */
  lemma OpeningByCallExact(cfg: Config, s: Store, now: BlockNumber, draw: Draw)
    requires Agreement(s, now) && Opens(s, draw) && now <= U32_MAX
    ensures Agreement(TryOpen(cfg, s, now, draw), now) <==> CallGuard(cfg, now, draw)
  {
    hide ProofLife, CheckLife;
    OpeningTimes(cfg, now, draw);
    hide NewChallenge, Deadline;
    var m, c := draw.miner.value, NewChallenge(cfg, now, draw.snapshot.value, draw.tees);
    var s' := TryOpen(cfg, s, now, draw);
    assert (Deadline(c), m) in s'.challengeSlip && (c.verifySlip, m) in s'.verifySlip;
  }

  /** What an opening in the hook leaves: the slips of this block to be handled, unless its guard fails. */
  lemma OpeningByHook(cfg: Config, s: Store, now: BlockNumber, draw: Draw, expired: set<Miner>, missions: set<Miner>)
    requires SlipsOk(s, now, expired, missions) && Opens(s, draw) && now <= U32_MAX && HookGuard(cfg, now, draw)
    requires var s' := TryOpen(cfg, s, now, draw);
             && ((now, draw.miner.value) in s'.challengeSlip ==> draw.miner.value in expired)
             && ((now, draw.miner.value) in s'.verifySlip ==> draw.miner.value in missions)
    ensures SlipsOk(TryOpen(cfg, s, now, draw), now, expired, missions)
  {
    hide ProofLife, CheckLife;
    OpeningTimes(cfg, now, draw);
    hide NewChallenge, Deadline;
    var m, c := draw.miner.value, NewChallenge(cfg, now, draw.snapshot.value, draw.tees);
    var s' := TryOpen(cfg, s, now, draw);
    assert (Deadline(c), m) in s'.challengeSlip && (c.verifySlip, m) in s'.verifySlip;
  }

  // ---- The clearing hook ----

  lemma ClearOne(s: Store, now: BlockNumber, m: Miner, expired: set<Miner>, missions: set<Miner>)
    requires SlipsOk(s, now, expired, missions)
    requires m in expired ==> forall b :: (b, m) in s.challengeSlip ==> b == now
    ensures SlipsOk(Cleared(s, now, m), now, expired - {m}, missions)
  {
  }

  /** An expired miner has no slip but the one of this block. */
  ghost predicate OnlyNow(s: Store, now: BlockNumber, ms: seq<Miner>)
  {
    forall b, m :: m in ms && (b, m) in s.challengeSlip ==> b == now
  }

  lemma {:induction false} ClearAll(s: Store, now: BlockNumber, ms: seq<Miner>, expired: set<Miner>, missions: set<Miner>)
    requires SlipsOk(s, now, expired, missions) && OnlyNow(s, now, ms)
    ensures SlipsOk(ClearedAll(s, now, ms), now, expired - (set m | m in ms), missions)
    ensures ClearedAll(s, now, ms).challengeSlip <= s.challengeSlip
  {
    hide SlipsOk;
    if ms == [] {
      assert expired - (set m | m in ms) == expired;
    } else {
      var init, last := ms[..|ms| - 1], ms[|ms| - 1];
      assert ms == init + [last];
      ClearAll(s, now, init, expired, missions);
      var rest := expired - (set m | m in init);
      ClearOne(ClearedAll(s, now, init), now, last, rest, missions);
      assert rest - {last} == expired - (set m | m in ms);
    }
  }

  // ---- The visiting hook ----

  /** The missions still to be visited are those whose slip is this block. */
  ghost predicate DueSet(s: Store, now: BlockNumber, missions: set<Miner>)
  {
    forall m :: m in missions <==> (now, m) in s.verifySlip
  }

  /** One visit keeps the agreement exactly if it closes the challenge or its extension has a length. */
  lemma VisitExact(cfg: Config, s: Store, now: BlockNumber, m: Miner, tee: Option<Tee>, missions: set<Miner>)
    requires SlipsOk(s, now, {}, missions) && DueSet(s, now, missions) && m in missions && now <= U32_MAX
    ensures m in s.snapshots
    ensures SlipsOk(Visited(cfg, s, now, m, tee), now, {}, missions - {m}) <==> ExtensionGuard(cfg, now, s.snapshots[m])
    ensures ExtensionGuard(cfg, now, s.snapshots[m]) ==> DueSet(Visited(cfg, s, now, m, tee), now, missions - {m})
  {
    assert (now, m) in s.verifySlip;
    var c := s.snapshots[m];
    DeadlinePassed(s, now, m, missions);
    if Closes(c) {
      CloseVisit(cfg, s, now, m, tee, missions);
    } else {
      ExtendVisit(cfg, s, now, m, tee, missions);
    }
  }

  lemma DeadlinePassed(s: Store, now: BlockNumber, m: Miner, missions: set<Miner>)
    requires SlipsOk(s, now, {}, missions) && m in s.snapshots && s.snapshots[m].verifySlip == now
    ensures Deadline(s.snapshots[m]) <= now && forall b :: (b, m) !in s.challengeSlip
  {
  }

  lemma CloseVisit(cfg: Config, s: Store, now: BlockNumber, m: Miner, tee: Option<Tee>, missions: set<Miner>)
    requires SlipsOk(s, now, {}, missions) && DueSet(s, now, missions) && m in missions
    requires m in s.snapshots && Closes(s.snapshots[m]) && forall b :: (b, m) !in s.challengeSlip
    ensures SlipsOk(Visited(cfg, s, now, m, tee), now, {}, missions - {m})
    ensures DueSet(Visited(cfg, s, now, m, tee), now, missions - {m})
  {
    hide Closes, Deadline;
  }

  lemma ExtensionSlip(cfg: Config, c: Challenge, now: BlockNumber, tee: Option<Tee>)
    requires now <= U32_MAX
    ensures var c' := Reassigned(cfg, c, now, tee);
            && Deadline(c') == Deadline(c) && c'.verifySlip >= now
            && (c'.verifySlip > now <==> 0 < AsU32(Life(cfg, c)) && now < U32_MAX)
  {
    hide AsU32;
  }

  lemma ExtendVisit(cfg: Config, s: Store, now: BlockNumber, m: Miner, tee: Option<Tee>, missions: set<Miner>)
    requires SlipsOk(s, now, {}, missions) && DueSet(s, now, missions) && m in missions && now <= U32_MAX
    requires m in s.snapshots && s.snapshots[m].verifySlip == now && !Closes(s.snapshots[m])
    requires Deadline(s.snapshots[m]) <= now && forall b :: (b, m) !in s.challengeSlip
    ensures SlipsOk(Visited(cfg, s, now, m, tee), now, {}, missions - {m}) <==> ExtensionGuard(cfg, now, s.snapshots[m])
    ensures ExtensionGuard(cfg, now, s.snapshots[m]) ==> DueSet(Visited(cfg, s, now, m, tee), now, missions - {m})
  {
    hide Closes, Deadline, Reassigned, Life;
    ExtensionSlip(cfg, s.snapshots[m], now, tee);
    var s', c' := Visited(cfg, s, now, m, tee), Reassigned(cfg, s.snapshots[m], now, tee);
    assert (c'.verifySlip, m) in s'.verifySlip;
  }

  lemma {:induction false} VisitAll(cfg: Config, s: Store, now: BlockNumber, ms: seq<Miner>, tee: Option<Tee>, missions: set<Miner>)
    requires SlipsOk(s, now, {}, missions) && DueSet(s, now, missions) && now <= U32_MAX
    requires (forall m :: m in ms ==> m in missions) && forall i, j :: 0 <= i < j < |ms| ==> ms[i] != ms[j]
    requires forall m :: m in ms && m in s.snapshots ==> ExtensionGuard(cfg, now, s.snapshots[m])
    ensures var s', rest := VisitedAll(cfg, s, now, ms, tee), missions - (set m | m in ms);
            SlipsOk(s', now, {}, rest) && DueSet(s', now, rest)
  {
    hide SlipsOk, DueSet, ExtensionGuard, Visited;
    if ms == [] {
      assert missions - (set m | m in ms) == missions;
    } else {
      var init, last := ms[..|ms| - 1], ms[|ms| - 1];
      assert ms == init + [last] && last !in init;
      VisitAll(cfg, s, now, init, tee, missions);
      VisitsElsewhere(cfg, s, now, init, tee, last);
      var rest := missions - (set m | m in init);
      VisitExact(cfg, VisitedAll(cfg, s, now, init, tee), now, last, tee, rest);
      assert rest - {last} == missions - (set m | m in ms);
    }
  }

  /** An undecided challenge that was due ends up with its extension, whoever else was visited. */
  lemma {:induction false} ExtensionStays(
    cfg: Config, s: Store, now: BlockNumber, ms: seq<Miner>, tee: Option<Tee>, m: Miner)
    requires m in ms && (forall i, j :: 0 <= i < j < |ms| ==> ms[i] != ms[j])
    requires m in s.snapshots && !Closes(s.snapshots[m])
    ensures (Reassigned(cfg, s.snapshots[m], now, tee).verifySlip, m) in VisitedAll(cfg, s, now, ms, tee).verifySlip
  {
    hide Reassigned, Closes;
    var init, last := ms[..|ms| - 1], ms[|ms| - 1];
    assert ms == init + [last] && last !in init;
    if m == last {
      VisitsElsewhere(cfg, s, now, init, tee, m);
    } else {
      ExtensionStays(cfg, s, now, init, tee, m);
    }
  }

  // ---- One block ----

  /** Moving to the next block leaves at most that block's slips to handle. */
  lemma Tick(s: Store, now: BlockNumber, d: Store, expired: set<Miner>, missions: set<Miner>)
    requires Agreement(s, now) && s.challengeSlip <= d.challengeSlip && s.verifySlip <= d.verifySlip
    requires forall m :: (now + 1, m) in d.challengeSlip ==> m in expired
    requires forall m :: (now + 1, m) in d.verifySlip ==> m in missions
    ensures SlipsOk(s, now + 1, expired, missions)
  {
    hide Deadline;
  }

  lemma OneSlipEach(s: Store, now: BlockNumber, expired: seq<Miner>, missions: set<Miner>)
    requires SlipsOk(s, now, (set m | m in expired), missions) && Enumerates(expired, s.challengeSlip, now)
    ensures OnlyNow(s, now, expired)
  {
    hide Deadline;
  }

  /** The generating hook followed by the clearing hook keeps the agreement, but for the due missions, exactly under the hook's guard. */
  lemma OpeningByHookExact(cfg: Config, s: Store, now: BlockNumber, draw: Draw, expired: seq<Miner>, missions: set<Miner>)
    requires Agreement(s, now) && now < U32_MAX
    requires Enumerates(expired, Generated(cfg, s, now + 1, draw).challengeSlip, now + 1)
    requires DueSet(Generated(cfg, s, now + 1, draw), now + 1, missions)
    ensures SlipsOk(ClearedAll(Generated(cfg, s, now + 1, draw), now + 1, expired), now + 1, {}, missions) <==>
            (DrawsAt(cfg, now + 1) && Opens(s, draw) ==> HookGuard(cfg, now + 1, draw))
  {
    var d := Generated(cfg, s, now + 1, draw);
    ClearKeepsMissions(d, now + 1, expired);
    if DrawsAt(cfg, now + 1) && Opens(s, draw) && !HookGuard(cfg, now + 1, draw) {
      BadOpening(cfg, s, now + 1, draw);
      hide *;
      BadStays(d, ClearedAll(d, now + 1, expired), now + 1, draw.miner.value, missions);
    } else {
      hide HookGuard, SlipsOk, TryOpen, ClearedAll;
      GoodOpening(cfg, s, now, draw, expired, missions);
    }
  }

  lemma GoodOpening(cfg: Config, s: Store, now: BlockNumber, draw: Draw, expired: seq<Miner>, missions: set<Miner>)
    requires Agreement(s, now) && now < U32_MAX
    requires Enumerates(expired, Generated(cfg, s, now + 1, draw).challengeSlip, now + 1)
    requires DueSet(Generated(cfg, s, now + 1, draw), now + 1, missions)
    requires DrawsAt(cfg, now + 1) && Opens(s, draw) ==> HookGuard(cfg, now + 1, draw)
    ensures SlipsOk(ClearedAll(Generated(cfg, s, now + 1, draw), now + 1, expired), now + 1, {}, missions)
  {
    hide HookGuard, SlipsOk, NewChallenge, ClearedAll;
    var d, es := Generated(cfg, s, now + 1, draw), set m | m in expired;
    Tick(s, now, d, es, missions);
    if DrawsAt(cfg, now + 1) && Opens(s, draw) {
      OpeningByHook(cfg, s, now + 1, draw, es, missions);
    }
    OneSlipEach(d, now + 1, expired, missions);
    ClearAll(d, now + 1, expired, es, missions);
    assert es - es == {};
  }

  /** A challenge whose proofs are due no sooner than verification ends, later than this block. */
  ghost predicate Hopeless(s: Store, now: BlockNumber, m: Miner)
  {
    m in s.snapshots && s.snapshots[m].verifySlip > now && Deadline(s.snapshots[m]) >= s.snapshots[m].verifySlip
  }

  lemma BadOpening(cfg: Config, s: Store, now: BlockNumber, draw: Draw)
    requires Opens(s, draw) && now <= U32_MAX && !HookGuard(cfg, now, draw)
    ensures Hopeless(TryOpen(cfg, s, now, draw), now, draw.miner.value)
  {
    hide ProofLife, CheckLife, NewChallenge;
    OpeningTimes(cfg, now, draw);
  }

  lemma BadStays(d: Store, c: Store, now: BlockNumber, m: Miner, missions: set<Miner>)
    requires Hopeless(d, now, m) && c.snapshots == d.snapshots && c.verifySlip == d.verifySlip && DueSet(d, now, missions)
    ensures !SlipsOk(c, now, {}, missions)
  {
  }

  lemma HopelessBreaks(s: Store, now: BlockNumber, m: Miner)
    requires Hopeless(s, now, m)
    ensures !Agreement(s, now)
  {
  }

  /** The storage after a block. */
  function AfterHooks(cfg: Config, w: World, e: Event): Store
    requires e.Block?
  {
    VisitedAll(cfg, ClearedAll(Generated(cfg, w.store, w.now + 1, e.draw), w.now + 1, e.expired), w.now + 1, e.missions, e.tee)
  }

  lemma BlockFollowsHooks(cfg: Config, w: World, e: Event)
    requires e.Block?
    ensures Step(cfg, w, e).store == AfterHooks(cfg, w, e) && Step(cfg, w, e).now == w.now + 1
  {
    VisitsFollow(cfg, BeforeVisits(cfg, w, e.draw, e.expired), e.missions, e.tee);
  }

  /** A whole block keeps the agreement exactly if its opening and all its extensions meet their guards. */
  lemma BlockExact(cfg: Config, w: World, e: Event)
    requires Agreement(w.store, w.now) && e.Block? && Enabled(cfg, w, e)
    ensures Agreement(AfterHooks(cfg, w, e), w.now + 1) <==> GuardsMet(cfg, w, e)
  {
    hide HookGuard, ExtensionGuard, SlipsOk, VisitedAll, ClearedAll, TryOpen;
    if GuardsMet(cfg, w, e) {
      GuardedBlock(cfg, w, e);
    } else if DrawsAt(cfg, w.now + 1) && Opens(w.store, e.draw) && !HookGuard(cfg, w.now + 1, e.draw) {
      UnguardedOpening(cfg, w, e);
    } else {
      var m :| m in e.missions && m in w.store.snapshots && !ExtensionGuard(cfg, w.now + 1, w.store.snapshots[m]);
      UnguardedExtension(cfg, w, e, m);
    }
  }

  lemma GuardedBlock(cfg: Config, w: World, e: Event)
    requires Agreement(w.store, w.now) && e.Block? && Enabled(cfg, w, e) && GuardsMet(cfg, w, e)
    ensures Agreement(AfterHooks(cfg, w, e), w.now + 1)
  {
    hide HookGuard, SlipsOk, VisitedAll, ClearedAll, NewChallenge;
    var now, vs := w.now + 1, set m | m in e.missions;
    var d := Generated(cfg, w.store, now, e.draw);
    GoodOpening(cfg, w.store, w.now, e.draw, e.expired, vs);
    ClearKeepsMissions(d, now, e.expired);
    var c := ClearedAll(d, now, e.expired);
    forall m | m in e.missions && m in c.snapshots
      ensures ExtensionGuard(cfg, now, c.snapshots[m])
    {
      if m !in w.store.snapshots {
        NewCloses(cfg, now, e.draw);
      }
    }
    VisitAll(cfg, c, now, e.missions, e.tee, vs);
    assert vs - vs == {};
  }

  lemma NewCloses(cfg: Config, now: BlockNumber, draw: Draw)
    requires draw.snapshot.Some? && draw.tees > 0
    ensures Closes(NewChallenge(cfg, now, draw.snapshot.value, draw.tees))
  {
  }

  lemma UnguardedOpening(cfg: Config, w: World, e: Event)
    requires Agreement(w.store, w.now) && e.Block? && Enabled(cfg, w, e)
    requires DrawsAt(cfg, w.now + 1) && Opens(w.store, e.draw) && !HookGuard(cfg, w.now + 1, e.draw)
    ensures !Agreement(AfterHooks(cfg, w, e), w.now + 1)
  {
    hide HookGuard, VisitedAll, ClearedAll, NewChallenge;
    var now, m := w.now + 1, e.draw.miner.value;
    var d := Generated(cfg, w.store, now, e.draw);
    BadOpening(cfg, w.store, now, e.draw);
    OpenKeepsMissions(cfg, w.store, now, e.draw);
    ClearKeepsMissions(d, now, e.expired);
    assert m !in e.missions;
    VisitsElsewhere(cfg, ClearedAll(d, now, e.expired), now, e.missions, e.tee, m);
    HopelessBreaks(AfterHooks(cfg, w, e), now, m);
  }

  lemma UnguardedExtension(cfg: Config, w: World, e: Event, m: Miner)
    requires Agreement(w.store, w.now) && e.Block? && Enabled(cfg, w, e)
    requires m in e.missions && m in w.store.snapshots && !ExtensionGuard(cfg, w.now + 1, w.store.snapshots[m])
    ensures !Agreement(AfterHooks(cfg, w, e), w.now + 1)
  {
    hide VisitedAll, ClearedAll, NewChallenge, Reassigned, Life, Closes;
    var now := w.now + 1;
    var d := Generated(cfg, w.store, now, e.draw);
    ClearKeepsMissions(d, now, e.expired);
    ExtensionStays(cfg, ClearedAll(d, now, e.expired), now, e.missions, e.tee, m);
    ExtensionSlip(cfg, w.store.snapshots[m], now, e.tee);
    assert (now, m) in AfterHooks(cfg, w, e).verifySlip;
  }

  // ---- Runs ----

  lemma CommitKeepsAgreement(w: World, m: Miner, o: Outcome)
    requires Agreement(w.store, w.now) && Modest(w.store, m, o)
    ensures Agreement(Commit(w, m, o).store, w.now)
  {
    hide BothPassed, Later;
  }

  /** Every event keeps the agreement exactly if it meets its guards. */
  lemma StepExact(cfg: Config, w: World, e: Event)
    requires Agreement(w.store, w.now) && Enabled(cfg, w, e) && w.now <= U32_MAX
    ensures Agreement(Step(cfg, w, e).store, Step(cfg, w, e).now) <==> GuardsMet(cfg, w, e)
  {
    hide SlipsOk, Modest, Extrinsic, TryOpen, AfterHooks, VisitSteps, HookGuard, ExtensionGuard, CallGuard;
    if e.Block? {
      BlockFollowsHooks(cfg, w, e);
      BlockExact(cfg, w, e);
    } else if e.PointMiner? {
      if Opens(w.store, e.draw) {
        OpeningByCallExact(cfg, w.store, w.now, e.draw);
      } else {
        NotOpened(cfg, w.store, w.now, e.draw);
      }
    } else if e.ResetCounter? {
      CounterKeepsAgreement(w.store, Step(cfg, w, e).store.countedClear, w.now);
    } else {
      ExtrinsicModest(w, e);
      CommitKeepsAgreement(w, e.miner, Extrinsic(w, e));
    }
  }

  lemma NotOpened(cfg: Config, s: Store, now: BlockNumber, draw: Draw)
    requires !Opens(s, draw)
    ensures TryOpen(cfg, s, now, draw) == s
  {
  }

  lemma CounterKeepsAgreement(s: Store, counted: map<Miner, nat>, now: BlockNumber)
    requires Agreement(s, now)
    ensures Agreement(s.(countedClear := counted), now)
  {
  }

  lemma {:induction false} ClockInRange(cfg: Config, worlds: seq<World>, events: seq<Event>, i: nat)
    requires Run(cfg, worlds, events) && i < |worlds|
    ensures worlds[i].now <= U32_MAX
  {
    hide VisitSteps, Extrinsic, TryOpen, ClearedAll, AfterHooks;
    if i > 0 {
      ClockInRange(cfg, worlds, events, i - 1);
      assert worlds[i] == Step(cfg, worlds[i - 1], events[i - 1]);
      if events[i - 1].Block? {
        BlockFollowsHooks(cfg, worlds[i - 1], events[i - 1]);
      }
    }
  }

  /** The slip maps agree with the open challenges after each of the first n events exactly if each of them met its guards. */
  lemma {:induction false} AgreementExactAlongRun(cfg: Config, worlds: seq<World>, events: seq<Event>, n: nat)
    requires Run(cfg, worlds, events) && n <= |events|
    ensures (forall i :: 0 <= i <= n ==> Agreement(worlds[i].store, worlds[i].now)) <==>
            (forall i :: 0 <= i < n ==> GuardsMet(cfg, worlds[i], events[i]))
  {
    hide Step, Enabled, Agreement, GuardsMet;
    if n == 0 {
      GenesisAgreement();
    } else {
      AgreementExactAlongRun(cfg, worlds, events, n - 1);
      ClockInRange(cfg, worlds, events, n - 1);
      assert worlds[n] == Step(cfg, worlds[n - 1], events[n - 1]);
      if Agreement(worlds[n - 1].store, worlds[n - 1].now) {
        StepExact(cfg, worlds[n - 1], events[n - 1]);
      }
    }
  }

  lemma GenesisAgreement()
    ensures Agreement(GENESIS.store, GENESIS.now)
  {
  }

  /** No cast of this event loses anything, nothing saturates, and an hour has a length. */
  ghost predicate Untruncated(cfg: Config, w: World, e: Event)
  {
    cfg.oneHours > 0 &&
    match e
    case Block(draw, _, _, missions) =>
      && w.now + 1 < U32_MAX && FitsDraw(w.now + 1, draw)
      && (forall m :: m in missions && m in w.store.snapshots ==> Life(cfg, w.store.snapshots[m]) <= U32_MAX)
    case PointMiner(draw) => FitsDraw(w.now, draw)
    case _ => true
  }

  predicate FitsDraw(now: BlockNumber, draw: Draw)
  {
    draw.snapshot.Some? ==>
      && now + ProveLife(draw.snapshot.value.idleSpace, IDLE_PROVE_RATE) < U32_MAX
      && now + ProveLife(draw.snapshot.value.serviceSpace, SERVICE_PROVE_RATE) < U32_MAX
  }

  lemma NoLoss(x: nat)
    ensures x <= U32_MAX ==> AsU32(x) == x
  {
  }

  /** Without truncation and saturation the guards are met. */
  lemma UntruncatedMeetsGuards(cfg: Config, w: World, e: Event)
    requires Untruncated(cfg, w, e)
    ensures GuardsMet(cfg, w, e)
  {
    hide AsU32, VerifyLife, Closes, DrawsAt;
    if (e.Block? || e.PointMiner?) && e.draw.snapshot.Some? {
      NoLoss(ProveLife(e.draw.snapshot.value.idleSpace, IDLE_PROVE_RATE));
      NoLoss(ProveLife(e.draw.snapshot.value.serviceSpace, SERVICE_PROVE_RATE));
    }
    if e.Block? {
      forall m | m in e.missions && m in w.store.snapshots
        ensures ExtensionGuard(cfg, w.now + 1, w.store.snapshots[m])
      {
        NoLoss(Life(cfg, w.store.snapshots[m]));
      }
    }
  }
}
