/**
 The heap statistics of `ces-allocator`: three atomic counters updated by any
 number of allocating threads while a reader takes the short-term peak and
 resets it. Every atomic operation of the source is one step; a run is any
 interleaving of steps.
 */
module Allocator {

  type ThreadId = nat

  /** Where a thread stands inside `add_alloced_size`. */
  datatype Adder =
    | Added(total: nat)               // fetch_add done, spike not loaded yet
    | Trying(total: nat, peak: nat)   // inside the compare-exchange loop

  /** Where a caller stands inside `stats`. */
  datatype Reader =
    | Swapped(spike: nat)             // spike taken and reset
    | Loaded(spike: nat, peak: nat)   // peak loaded, not stored yet

  datatype State = State(
    current: nat,
    spike: nat,
    peak: nat,
    adders: map<ThreadId, Adder>,
    readers: map<ThreadId, Reader>,
    highest: nat)                     // history: the largest value `current` ever had

  datatype Step =
    | FetchAdd(t: ThreadId, size: nat)
    | LoadSpike(t: ThreadId)
    | CompareExchange(t: ThreadId)
    | FetchSub(size: nat)
    | SwapSpike(t: ThreadId)
    | LoadPeak(t: ThreadId)
    | StorePeak(t: ThreadId)

  const INITIAL := State(0, 0, 0, map[], map[], 0)

  function Max(x: nat, y: nat): nat { if x < y then y else x }

  predicate Enabled(s: State, step: Step)
  {
    match step
    case FetchAdd(t, _) => t !in s.adders
    case LoadSpike(t) => t in s.adders && s.adders[t].Added?
    case CompareExchange(t) => t in s.adders && s.adders[t].Trying?
    case FetchSub(size) => size <= s.current
    case SwapSpike(t) => t !in s.readers
    case LoadPeak(t) => t in s.readers && s.readers[t].Swapped?
    case StorePeak(t) => t in s.readers && s.readers[t].Loaded?
  }

  /** One atomic step, together with the thread-local tests around it. */
  function Next(s: State, step: Step): State
    requires Enabled(s, step)
  {
    match step
    case FetchAdd(t, size) =>
      var total := s.current + size;
      s.(current := total, adders := s.adders[t := Added(total)], highest := Max(s.highest, total))
    case LoadSpike(t) =>
      Continue(s, t, s.adders[t].total, s.spike)
    case CompareExchange(t) =>
      var Trying(total, peak) := s.adders[t];
      if s.spike == peak then s.(spike := total, adders := s.adders - {t})
      else Continue(s, t, total, s.spike)
    case FetchSub(size) =>
      s.(current := s.current - size)
    case SwapSpike(t) =>
      s.(spike := 0, readers := s.readers[t := Swapped(s.spike)])
    case LoadPeak(t) =>
      s.(readers := s.readers[t := Loaded(s.readers[t].spike, s.peak)])
    case StorePeak(t) =>
      var Loaded(spike, peak) := s.readers[t];
      s.(peak := Max(peak, spike), readers := s.readers - {t})
  }

  /** The loop test: leave when the observed peak is high enough, else try. */
  function Continue(s: State, t: ThreadId, total: nat, peak: nat): State
  {
    if total <= peak then s.(adders := s.adders - {t})
    else s.(adders := s.adders[t := Trying(total, peak)])
  }

  ghost predicate Run(states: seq<State>, steps: seq<Step>)
  {
    && |states| == |steps| + 1
    && states[0] == INITIAL
    && forall i :: 0 <= i < |steps| ==> Enabled(states[i], steps[i]) && states[i + 1] == Next(states[i], steps[i])
  }

  ghost predicate Quiescent(s: State)
  {
    s.adders == map[] && s.readers == map[]
  }

  // ---- What holds with any number of readers ----

  /** Nothing exceeds the highest value, and a thread in the loop has seen less than it brings. */
  ghost predicate Bounded(s: State)
  {
    && s.current <= s.highest && s.spike <= s.highest && s.peak <= s.highest
    && (forall t :: t in s.readers ==> s.readers[t].spike <= s.highest)
    && (forall t :: t in s.readers && s.readers[t].Loaded? ==> s.readers[t].peak <= s.highest)
    && (forall t :: t in s.adders ==> s.adders[t].total <= s.highest)
    && (forall t :: t in s.adders && s.adders[t].Trying? ==> s.adders[t].peak < s.adders[t].total)
  }

  /** What a reader is about to store. */
  function Held(r: Reader): nat { if r.Loaded? then Max(r.peak, r.spike) else r.spike }

  /** The highest value is in a counter, with a reader, or with a thread about to record it. */
  ghost predicate Known(s: State)
  {
    || s.spike == s.highest || s.peak == s.highest
    || (exists t :: t in s.readers && Held(s.readers[t]) == s.highest)
    || (exists t :: t in s.adders && s.adders[t].total == s.highest)
  }

  /** The step is an allocation that reaches or exceeds the highest value. */
  predicate Tops(s: State, step: Step)
  {
    step.FetchAdd? && s.current + step.size >= s.highest
  }

  /** The step overwrites the only trace of the highest value by a smaller peak. */
  ghost predicate Forgets(s: State, step: Step)
    requires Enabled(s, step)
  {
    && step.StorePeak?
    && s.peak == s.highest && s.spike < s.highest
    && (forall t :: t in s.adders ==> s.adders[t].total < s.highest)
    && (forall t :: t in s.readers ==> Held(s.readers[t]) < s.highest)
  }

  lemma BoundedStep(s: State, step: Step)
    requires Enabled(s, step) && Bounded(s)
    ensures Bounded(Next(s, step))
  {
  }

  /** The highest value becomes unknown by a forgetting store only, and known again by being reached again only. */
  lemma KnownStep(s: State, step: Step)
    requires Enabled(s, step) && Bounded(s)
    ensures Known(Next(s, step)) <==> Tops(s, step) || (Known(s) && !Forgets(s, step))
  {
    var s' := Next(s, step);
    match step {
      case FetchAdd(t, _) =>
        assert t in s'.adders && forall x :: x in s.adders ==> x in s'.adders && s'.adders[x] == s.adders[x];
      case SwapSpike(t) =>
        assert t in s'.readers && forall x :: x in s.readers ==> x in s'.readers && s'.readers[x] == s.readers[x];
      case LoadPeak(t) =>
        assert forall x :: x in s.readers <==> x in s'.readers;
        assert forall x :: x in s.readers && x != t ==> s'.readers[x] == s.readers[x];
      case StorePeak(t) =>
        assert forall x :: x in s'.readers <==> x in s.readers && x != t;
      case FetchSub(_) =>
      case _ =>
        assert forall x :: x in s.adders && x != step.t ==> x in s'.adders && s'.adders[x] == s.adders[x];
        assert forall x :: x in s'.adders ==> x in s.adders && s'.adders[x].total == s.adders[x].total;
    }
  }

  /** Step n forgot the highest value and no allocation up to state i reached it again. */
  ghost predicate ForgottenSince(states: seq<State>, steps: seq<Step>, n: nat, i: nat)
    requires Run(states, steps) && n < i < |states|
  {
    Forgets(states[n], steps[n]) && forall k :: n < k < i ==> !Tops(states[k], steps[k])
  }

  lemma {:induction false} KnownAlongRun(states: seq<State>, steps: seq<Step>, i: nat)
    requires Run(states, steps) && i < |states|
    ensures Bounded(states[i])
    ensures Known(states[i]) <==> !exists n :: 0 <= n < i && ForgottenSince(states, steps, n, i)
  {
    hide Next, Bounded, Known, Forgets, Tops;
    if i == 0 {
      InitialKnown();
    } else {
      var s, step := states[i - 1], steps[i - 1];
      KnownAlongRun(states, steps, i - 1);
      assert states[i] == Next(s, step);
      BoundedStep(s, step);
      KnownStep(s, step);
      ForgetsIsNoTop(s, step);
      if Tops(s, step) || Forgets(s, step) {
        assert Forgets(s, step) ==> ForgottenSince(states, steps, i - 1, i);
        assert forall n :: 0 <= n < i - 1 && ForgottenSince(states, steps, n, i) ==> !Tops(s, step);
      } else {
        assert !ForgottenSince(states, steps, i - 1, i);
        assert forall n :: 0 <= n < i - 1 && ForgottenSince(states, steps, n, i) ==> ForgottenSince(states, steps, n, i - 1);
        if !Known(s) {
          var n :| 0 <= n < i - 1 && ForgottenSince(states, steps, n, i - 1);
          assert ForgottenSince(states, steps, n, i);
        }
      }
    }
  }

  lemma ForgetsIsNoTop(s: State, step: Step)
    requires Enabled(s, step)
    ensures !(Forgets(s, step) && Tops(s, step))
  {
  }

  lemma InitialKnown()
    ensures Bounded(INITIAL) && Known(INITIAL)
  {
  }

  /** The history variable is what its name says. */
  lemma {:induction false} HighestIsMaximum(states: seq<State>, steps: seq<Step>, i: nat)
    requires Run(states, steps) && i < |states|
    ensures forall j :: 0 <= j <= i ==> states[j].current <= states[i].highest
    ensures exists j :: 0 <= j <= i && states[j].current == states[i].highest
  {
    if i == 0 {
      assert states[0].current == states[0].highest;
    } else {
      HighestIsMaximum(states, steps, i - 1);
      var j :| 0 <= j <= i - 1 && states[j].current == states[i - 1].highest;
      assert states[i] == Next(states[i - 1], steps[i - 1]);
      assert states[i].highest == states[i].current || states[i].highest == states[j].current;
    }
  }

  /** The larger of the two peaks is the largest value that `current` had up to state i. */
  ghost predicate Exact(states: seq<State>, i: nat)
    requires i < |states|
  {
    && (forall j :: 0 <= j <= i ==> states[j].current <= Max(states[i].peak, states[i].spike))
    && exists j :: 0 <= j <= i && states[j].current == Max(states[i].peak, states[i].spike)
  }

  /** Whenever nothing is in flight, the two peaks hold the true maximum exactly if no store forgot it for good. */
  lemma WatermarkExactly(states: seq<State>, steps: seq<Step>, i: nat)
    requires Run(states, steps) && i < |states| && Quiescent(states[i])
    ensures Exact(states, i) <==> !exists n :: 0 <= n < i && ForgottenSince(states, steps, n, i)
  {
    hide Run, ForgottenSince;
    KnownAlongRun(states, steps, i);
    HighestIsMaximum(states, steps, i);
  }

  // ---- The short-term peak ----

  /** The steps from p up to i do not reset the short-term peak. */
  ghost predicate NoSwap(steps: seq<Step>, p: nat, i: nat)
    requires i <= |steps|
  {
    forall j :: p <= j < i ==> !steps[j].SwapSpike?
  }

  /** What an allocation brought is recorded, or its thread still carries it. */
  lemma {:induction false} SpikeCovers(states: seq<State>, steps: seq<Step>, p: nat, i: nat, j: nat)
    requires Run(states, steps) && p <= j < i < |states| && NoSwap(steps, p, i) && steps[j].FetchAdd?
    ensures var s, t := states[i], steps[j].t;
            states[j + 1].current <= s.spike || (t in s.adders && s.adders[t].total == states[j + 1].current)
  {
    assert states[i] == Next(states[i - 1], steps[i - 1]);
    if j < i - 1 {
      KnownAlongRun(states, steps, i - 1);
      SpikeCovers(states, steps, p, i - 1, j);
    }
  }

  /** Everything recorded or carried was brought by an allocation since p. */
  lemma {:induction false} SpikeComesFrom(states: seq<State>, steps: seq<Step>, p: nat, i: nat)
    requires Run(states, steps) && p <= i < |states| && NoSwap(steps, p, i)
    requires states[p].spike == 0 && states[p].adders == map[]
    ensures states[i].spike == 0 || Brought(states, steps, p, i, states[i].spike)
    ensures forall t :: t in states[i].adders ==> Brought(states, steps, p, i, states[i].adders[t].total)
  {
    hide Run, Next, Enabled, Brought;
    if p < i {
      RunLength(states, steps);
      SpikeComesFrom(states, steps, p, i - 1);
      RunStep(states, steps, i - 1);
      BroughtLater(states, steps, p, i - 1);
      CarriedStep(states[i - 1], steps[i - 1]);
      if steps[i - 1].FetchAdd? {
        BroughtNow(states, steps, p, i - 1);
      }
    }
  }

  lemma RunLength(states: seq<State>, steps: seq<Step>)
    requires Run(states, steps)
    ensures |states| == |steps| + 1
  {
  }

  lemma RunStep(states: seq<State>, steps: seq<Step>, i: nat)
    requires Run(states, steps) && i < |steps|
    ensures |states| == |steps| + 1 && Enabled(states[i], steps[i]) && states[i + 1] == Next(states[i], steps[i])
  {
  }

  /** A step records only what a thread carries, and only an allocation gives a thread something new to carry. */
  lemma CarriedStep(s: State, step: Step)
    requires Enabled(s, step) && !step.SwapSpike?
    ensures var s' := Next(s, step);
            && (s'.spike == s.spike || exists t :: t in s.adders && s'.spike == s.adders[t].total)
            && forall t :: t in s'.adders ==>
                 (t in s.adders && s'.adders[t].total == s.adders[t].total) || (step.FetchAdd? && s'.adders[t].total == s'.current)
  {
  }

  /** Some allocation from p up to i raised the total to this. */
  ghost predicate Brought(states: seq<State>, steps: seq<Step>, p: nat, i: nat, total: nat)
    requires |states| == |steps| + 1 && i <= |steps|
  {
    exists j :: p <= j < i && steps[j].FetchAdd? && states[j + 1].current == total
  }

  lemma BroughtLater(states: seq<State>, steps: seq<Step>, p: nat, i: nat)
    requires |states| == |steps| + 1 && i < |steps|
    ensures forall total :: Brought(states, steps, p, i, total) ==> Brought(states, steps, p, i + 1, total)
  {
  }

  lemma BroughtNow(states: seq<State>, steps: seq<Step>, p: nat, i: nat)
    requires |states| == |steps| + 1 && p <= i < |steps| && steps[i].FetchAdd?
    ensures Brought(states, steps, p, i + 1, states[i + 1].current)
  {
  }

  /**
   Between two resets with no thread inside an update, the short-term peak is the largest
   total that an allocation since the first of them reached, and 0 if there was none.
   */
  lemma SpikeIsExact(states: seq<State>, steps: seq<Step>, p: nat, i: nat)
    requires Run(states, steps) && p <= i < |states| && NoSwap(steps, p, i)
    requires p == 0 || steps[p - 1].SwapSpike?
    requires states[p].adders == map[] && states[i].adders == map[]
    ensures forall j :: p <= j < i && steps[j].FetchAdd? ==> states[j + 1].current <= states[i].spike
    ensures states[i].spike == 0 || exists j :: p <= j < i && steps[j].FetchAdd? && states[j + 1].current == states[i].spike
  {
    assert p > 0 ==> states[p] == Next(states[p - 1], steps[p - 1]);
    SpikeComesFrom(states, steps, p, i);
    forall j | p <= j < i && steps[j].FetchAdd?
      ensures states[j + 1].current <= states[i].spike
    {
      SpikeCovers(states, steps, p, i, j);
    }
  }

  // ---- Stores that do not overlap ----

  /** No two callers of `stats` are between loading and storing the peak. */
  ghost predicate OneStorer(s: State)
  {
    forall t, t' :: t in s.readers && t' in s.readers && s.readers[t].Loaded? && s.readers[t'].Loaded? ==> t == t'
  }

  ghost predicate LoadedFresh(s: State)
  {
    forall t :: t in s.readers && s.readers[t].Loaded? ==> s.readers[t].peak == s.peak
  }

  lemma {:induction false} FreshAlongRun(states: seq<State>, steps: seq<Step>, i: nat)
    requires Run(states, steps) && i < |states|
    requires forall j :: 0 <= j <= i ==> OneStorer(states[j])
    ensures LoadedFresh(states[i])
  {
    if i > 0 {
      FreshAlongRun(states, steps, i - 1);
      assert states[i] == Next(states[i - 1], steps[i - 1]);
      assert OneStorer(states[i - 1]);
    }
  }

  /** Any number of threads and of overlapping readers: exact if no two of them store a peak they loaded together. */
  lemma WatermarkIsExact(states: seq<State>, steps: seq<Step>, i: nat)
    requires Run(states, steps) && i < |states| && Quiescent(states[i])
    requires forall j :: 0 <= j <= i ==> OneStorer(states[j])
    ensures Exact(states, i)
  {
    forall n | 0 <= n < i
      ensures !ForgottenSince(states, steps, n, i)
    {
      FreshAlongRun(states, steps, n);
    }
    WatermarkExactly(states, steps, i);
  }

  /** Two stores that overlap can lose the maximum. */
  lemma TwoReadersLoseThePeak() returns (states: seq<State>, steps: seq<Step>)
    ensures Run(states, steps) && Quiescent(states[|steps|])
    ensures Max(states[|steps|].peak, states[|steps|].spike) < states[|steps|].highest
  {
    steps := [FetchAdd(0, 5), LoadSpike(0), CompareExchange(0), SwapSpike(1), SwapSpike(2),
                  LoadPeak(2), LoadPeak(1), StorePeak(1), StorePeak(2)];
    var s0 := INITIAL;
    var s1 := Next(s0, steps[0]);
    var s2 := Next(s1, steps[1]);
    var s3 := Next(s2, steps[2]);
    assert s3 == State(5, 5, 0, map[], map[], 5);
    var s4 := Next(s3, steps[3]);
    var s5 := Next(s4, steps[4]);
    var s6 := Next(s5, steps[5]);
    assert s6 == State(5, 0, 0, map[], map[1 := Swapped(5), 2 := Loaded(0, 0)], 5);
    var s7 := Next(s6, steps[6]);
    var s8 := Next(s7, steps[7]);
    var s9 := Next(s8, steps[8]);
    states := [s0, s1, s2, s3, s4, s5, s6, s7, s8, s9];
  }
}
