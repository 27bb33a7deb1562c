/**
 * The schedule builders that do not go through init_experiment: the
 * oddball grating sequence (with linear_prob) and the sparse and dense
 * noise schedules.  Random draws and the noise generators' event times are
 * inputs.
 */
module Schedules {
  import opened Wrappers
  import opened Values

  // ---------------------------------------------------------------------
  // linear_prob
  // ---------------------------------------------------------------------

  /** np.cumsum(np.arange(1, m + 1))[k] = 1 + 2 + ... + (k + 1). */
  function Cum(k: nat): (c: nat)
    ensures c >= k + 1
  {
    if k == 0 then 1 else Cum(k - 1) + k + 1
  }

  /** The cumulative sums are the triangular numbers. */
  lemma {:induction false} CumClosedForm(k: nat)
    ensures 2 * Cum(k) == (k + 1) * (k + 2)
  {
    if k > 0 {
      CumClosedForm(k - 1);
      assert (k + 1) * (k + 2) == k * (k + 1) + 2 * (k + 1);
    }
  }

  /** Entry k of array / array[-1] in linear_prob. */
  function Fraction(k: nat, m: nat): real
    requires m > 0
  {
    (Cum(k) as real) / (Cum(m - 1) as real)
  }

  function FirstWithin(rdm: real, m: nat, k: nat): (r: Result<nat>)
    requires m > 0
    ensures r.Success? ==> (k <= r.value < m && rdm <= Fraction(r.value, m) &&
      forall j :: k <= j < r.value ==> rdm > Fraction(j, m))
    ensures r.Failure? ==> r.error == IndexOutOfRange && forall j :: k <= j < m ==> rdm > Fraction(j, m)
    decreases m - k
  {
    if k >= m then Failure(IndexOutOfRange)
    else if rdm <= Fraction(k, m) then Success(k)
    else FirstWithin(rdm, m, k + 1)
  }

  /** rdm lies above the first k fractions of the cumulative sum. */
  predicate AllAbove(rdm: real, m: nat, k: nat)
    requires m > 0
  {
    forall j :: 0 <= j < k ==> rdm > Fraction(j, m)
  }

  /**
   * linear_prob (lines 682-686) with m = N_deviant + N_redundant -
   * Nmin-successive-redundant: the first k with rdm <= array[k] / array[-1].
   * An empty array or a draw above 1 leaves argwhere empty, and [0][0]
   * raises.
   */
  function LinearProb(rdm: real, m: int): (r: Result<nat>)
    ensures r.Success? <==> m > 0 && rdm <= 1.0
    ensures r.Success? ==> r.value < m && rdm <= Fraction(r.value, m) && AllAbove(rdm, m, r.value)
    ensures r.Failure? ==> r.error == IndexOutOfRange
  {
    if m <= 0 then Failure(IndexOutOfRange)
    else
      LastFraction(m);
      var r := FirstWithin(rdm, m, 0);
      if r.Success? then FractionAtMostOne(r.value, m); r else r
  }

  lemma {:induction false} CumMonotone(j: nat, k: nat)
    requires j <= k
    ensures Cum(j) <= Cum(k)
  {
    if j < k { CumMonotone(j, k - 1); }
  }

  lemma {:induction false} FractionAtMostOne(k: nat, m: nat)
    requires k < m
    ensures Fraction(k, m) <= 1.0
  {
    CumMonotone(k, m - 1);
    RatioAtMostOne(Cum(k) as real, Cum(m - 1) as real);
  }

  lemma {:induction false} RatioAtMostOne(a: real, b: real)
    requires 0.0 < b && a <= b
    ensures a / b <= 1.0
  {
    var q := a / b;
    assert q * b == a;
  }

  /**
   * The draws that pick offset k form a band of width (k + 1) / array[-1]:
   * the offset's probability grows linearly with k.
   */
  lemma {:induction false} LinearBands(m: nat, k: nat)
    requires 0 < k < m
    ensures Fraction(k, m) - Fraction(k - 1, m) == ((k + 1) as real) / (Cum(m - 1) as real)
  {
    var t := Cum(m - 1) as real;
    assert Cum(k) as real == Cum(k - 1) as real + (k + 1) as real;
    DivideSum(Cum(k - 1) as real, (k + 1) as real, t);
  }

  lemma {:induction false} DivideSum(a: real, b: real, t: real)
    requires t > 0.0
    ensures (a + b) / t - a / t == b / t
  {
  }

  lemma {:induction false} LastFraction(m: nat)
    requires m > 0
    ensures Fraction(m - 1, m) == 1.0
  {
    SelfRatio(Cum(m - 1) as real);
  }

  lemma {:induction false} SelfRatio(x: real)
    requires x > 0.0
    ensures x / x == 1.0
  {
  }

  // ---------------------------------------------------------------------
  // oddball_full_field_grating_stim
  // ---------------------------------------------------------------------

  datatype OddballProtocol = OddballProtocol(
    nDeviant: nat, nRedundant: nat, nMin: nat, nRepeat: nat,
    angleRedundant: real, angleDeviant: real, spatialFreq: real, contrast: real,
    meanInterstim: real, jitterInterstim: real, stimDuration: real, prestim: real)
  {
    /** Episodes per block. */
    function N(): nat { nDeviant + nRedundant }
    /** The number of offsets linear_prob chooses among. */
    function M(): int { N() - nMin }
    function Total(): nat { nRepeat * N() }
  }

  datatype Oddball = Oddball(
    index: seq<nat>, repeat: seq<nat>, runType: seq<string>, angle: seq<real>,
    spatialFreq: seq<real>, contrast: seq<real>, interstim: seq<real>,
    timeStart: seq<real>, timeStop: seq<real>, timeDuration: seq<real>)

  /** The deviant's offset in each block: Nmin-successive-redundant + linear_prob of the block's draw. */
  function DeviantOffsets(p: OddballProtocol, draws: seq<real>): (r: Result<seq<nat>>)
    ensures r.Success? ==> (|r.value| == |draws| &&
      forall i :: 0 <= i < |draws| ==> p.nMin <= r.value[i] < p.N())
  {
    if draws == [] then Success([])
    else
      match DeviantOffsets(p, draws[..|draws| - 1])
      case Failure(e) => Failure(e)
      case Success(offs) =>
        match LinearProb(draws[|draws| - 1], p.M())
        case Failure(e) => Failure(e)
        case Success(lp) => Success(offs + [p.nMin + lp])
  }

  /** The offsets fail exactly when one block's draw makes linear_prob raise. */
  lemma {:induction false} DeviantOffsetsFail(p: OddballProtocol, draws: seq<real>)
    ensures DeviantOffsets(p, draws).Failure? <==> exists i :: 0 <= i < |draws| && LinearProb(draws[i], p.M()).Failure?
  {
    if draws != [] {
      var d := draws[..|draws| - 1];
      DeviantOffsetsFail(p, d);
      assert forall i :: 0 <= i < |d| ==> d[i] == draws[i];
    }
  }

  /** np.cumsum. */
  function CumSum(xs: seq<real>): (r: seq<real>)
    ensures |r| == |xs| && forall k :: 0 <= k < |xs| ==> r[k] == Sum(xs[..k + 1])
  {
    if xs == [] then []
    else
      var r := CumSum(xs[..|xs| - 1]);
      forall k | 0 <= k < |xs| - 1 ensures r[k] == Sum(xs[..k + 1]) {
        assert xs[..|xs| - 1][..k + 1] == xs[..k + 1];
      }
      assert xs[..|xs|] == xs;
      r + [Sum(xs)]
  }

  /** The angle of episode k once the deviants of the blocks in offs are written. */
  function AngleAt(p: OddballProtocol, offs: seq<nat>, k: nat): real
  {
    if p.N() > 0 && k / p.N() < |offs| && k % p.N() == offs[k / p.N()] then p.angleDeviant else p.angleRedundant
  }

  /**
   * The schedule of lines 695-722 from the deviant offsets and the normal
   * draws: index k mod N, repeat k div N, interstim mean + draw * jitter,
   * start the cumulative sum of the prestim period and each episode's
   * duration plus interstim (all but the last), stop start + duration.
   */
  function OddballSpec(p: OddballProtocol, offs: seq<nat>, gauss: seq<real>): Oddball
    requires |offs| == p.nRepeat && |gauss| == p.Total()
  {
    var n := p.Total();
    var blocks := p.N();
    assert n > 0 ==> blocks > 0;
    var isi := seq(n, k requires 0 <= k < n => p.meanInterstim + gauss[k] * p.jitterInterstim);
    var start := CumSum(OddballSteps(p, isi));
    Oddball(
      seq(n, k requires 0 <= k < n => k % blocks),
      seq(n, k requires 0 <= k < n => DivFloor(k, blocks)),
      seq(n, k => "static"),
      Angles(p, offs),
      seq(n, k => p.spatialFreq),
      seq(n, k => p.contrast),
      isi,
      start,
      seq(|start|, k requires 0 <= k < |start| => p.stimDuration + start[k]),
      seq(n, k => p.stimDuration))
  }

  /** k div n for a positive block size n (0 otherwise, which no episode reaches). */
  function DivFloor(k: nat, n: nat): (q: nat)
    ensures n > 0 ==> q == k / n
  {
    if n > 0 then k / n else 0
  }

  /** The increments whose cumulative sum is time_start: the prestim period, then duration + interstim of all but the last episode. */
  function OddballSteps(p: OddballProtocol, isi: seq<real>): (steps: seq<real>)
    ensures |steps| == if |isi| > 0 then |isi| else 1
    ensures steps[0] == p.prestim && forall k :: 0 <= k < |isi| - 1 ==> steps[k + 1] == p.stimDuration + isi[k]
  {
    [p.prestim] + seq(if |isi| > 0 then |isi| - 1 else 0, k requires 0 <= k < |isi| - 1 => p.stimDuration + isi[k])
  }

  /** Episode k lies in block k div N, at offset k mod N. */
  lemma {:induction false} BlockOf(k: nat, n: nat, repeats: nat)
    requires k < repeats * n
    ensures n > 0 && k / n < repeats
  {
    assert n > 0;
    var q := k / n;
    if q >= repeats {
      MulMonotone(repeats, q, n);
      assert false;
    }
  }

  lemma {:induction false} MulMonotone(a: nat, b: nat, n: nat)
    requires a <= b
    ensures a * n <= b * n
  {
    assert b * n - a * n == (b - a) * n;
  }

  lemma {:induction false} DeviantIndex(i: nat, n: nat, repeats: nat, off: nat)
    requires i < repeats && off < n
    ensures i * n + off < repeats * n
  {
    MulMonotone(i + 1, repeats, n);
    assert (i + 1) * n == i * n + n;
  }

  /** Position i * N + off is offset off of block i. */
  lemma {:induction false} OffsetPosition(i: nat, n: nat, off: nat)
    requires off < n
    ensures (i * n + off) / n == i && (i * n + off) % n == off
  {
    QuotientAtMost(i, n, off);
    QuotientAtLeast(i, n, off);
  }

  lemma {:induction false} QuotientAtMost(i: nat, n: nat, off: nat)
    requires off < n
    ensures (i * n + off) / n <= i
  {
    var q := (i * n + off) / n;
    if q > i {
      MulMonotone(i + 1, q, n);
      assert false;
    }
  }

  lemma {:induction false} QuotientAtLeast(i: nat, n: nat, off: nat)
    requires off < n
    ensures (i * n + off) / n >= i
  {
    var q, r := (i * n + off) / n, (i * n + off) % n;
    if q < i {
      MulMonotone(q + 1, i, n);
      assert false;
    }
  }

  /** Writing the deviant of block i at offset off changes exactly that position. */
  lemma {:induction false} AngleStep(p: OddballProtocol, offs: seq<nat>, off: nat, k: nat)
    requires p.N() > 0 && off < p.N()
    ensures AngleAt(p, offs + [off], k) ==
      if k == |offs| * p.N() + off then p.angleDeviant else AngleAt(p, offs, k)
  {
    var n := p.N();
    var i := |offs|;
    OffsetPosition(i, n, off);
    if k / n < i {
      assert (offs + [off])[k / n] == offs[k / n];
    } else if k / n == i {
      assert k == (k / n) * n + k % n;
    }
  }

  /** The angle column once every block's deviant is written. */
  function Angles(p: OddballProtocol, offs: seq<nat>): seq<real>
  {
    seq(p.Total(), k requires 0 <= k < p.Total() => AngleAt(p, offs, k))
  }

  /**
   * The angle loop of oddball_full_field_grating_stim.__init__ (lines
   * 704-708): every episode starts redundant, then each block's deviant
   * position, picked by linear_prob, is overwritten in place.
   */
  method DeviantAngles(p: OddballProtocol, draws: seq<real>) returns (r: Result<seq<real>>)
    requires |draws| == p.nRepeat
    ensures r.Failure? <==> DeviantOffsets(p, draws).Failure?
    ensures r.Success? ==> r.value == Angles(p, DeviantOffsets(p, draws).value)
  {
    var n := p.Total();
    var angle := new real[n](_ => p.angleRedundant);
    NoDeviantYet(p, angle[..]);
    var i := 0;
    var offs: seq<nat> := [];
    while i < p.nRepeat
      invariant 0 <= i <= p.nRepeat
      invariant DeviantOffsets(p, draws[..i]) == Success(offs)
      invariant |offs| == i
      invariant angle.Length == n && angle[..] == Angles(p, offs)
    {
      var lp := LinearProb(draws[i], p.M());
      OffsetsStep(p, draws, i, offs, lp);
      if lp.Failure? {
        return Failure(lp.error);
      }
      var off: nat := p.nMin + lp.value;
      WriteDeviant(p, angle, offs, off);
      offs := offs + [off];
      i := i + 1;
    }
    assert draws[..p.nRepeat] == draws;
    return Success(angle[..]);
  }

  /** Before the loop every episode holds the redundant angle. */
  lemma {:induction false} NoDeviantYet(p: OddballProtocol, angle: seq<real>)
    requires |angle| == p.Total() && forall k :: 0 <= k < |angle| ==> angle[k] == p.angleRedundant
    ensures angle == Angles(p, [])
  {
  }

  /** One more draw extends the offsets by its linear_prob pick, or makes the whole list fail. */
  lemma {:induction false} OffsetsStep(p: OddballProtocol, draws: seq<real>, i: nat, offs: seq<nat>, lp: Result<nat>)
    requires i < |draws| && DeviantOffsets(p, draws[..i]) == Success(offs)
    requires lp == LinearProb(draws[i], p.M())
    ensures lp.Failure? ==> DeviantOffsets(p, draws).Failure?
    ensures lp.Success? ==> DeviantOffsets(p, draws[..i + 1]) == Success(offs + [p.nMin + lp.value])
  {
    var d := draws[..i + 1];
    if lp.Failure? {
      assert DeviantOffsets(p, d).Failure? by {
        assert d[..|d| - 1] == draws[..i] && d[|d| - 1] == draws[i];
      }
      DeviantFailurePersists(p, draws, i + 1);
    } else {
      assert DeviantOffsets(p, d) == Success(offs + [p.nMin + lp.value]) by {
        assert d[..|d| - 1] == draws[..i] && d[|d| - 1] == draws[i];
      }
    }
  }

  /** One pass of the angle loop: block |offs|'s deviant, at offset off, is written in place. */
  method WriteDeviant(p: OddballProtocol, angle: array<real>, offs: seq<nat>, off: nat)
    requires angle.Length == p.Total() && |offs| < p.nRepeat && off < p.N()
    requires angle[..] == Angles(p, offs)
    modifies angle
    ensures angle[..] == Angles(p, offs + [off])
  {
    var inew := |offs| * p.N() + off;
    DeviantIndex(|offs|, p.N(), p.nRepeat, off);
    forall k | 0 <= k < angle.Length
      ensures AngleAt(p, offs + [off], k) == if k == inew then p.angleDeviant else AngleAt(p, offs, k)
    {
      AngleStep(p, offs, off, k);
    }
    assert forall k :: 0 <= k < angle.Length ==> angle[k] == AngleAt(p, offs, k);
    angle[inew] := p.angleDeviant;
  }

  /**
   * oddball_full_field_grating_stim.__init__ (lines 689-722): the hard-coded
   * columns of the sequence with the angle column the loop writes.
   */
  method BuildOddball(p: OddballProtocol, draws: seq<real>, gauss: seq<real>) returns (r: Result<Oddball>)
    requires |draws| == p.nRepeat && |gauss| == p.Total()
    ensures r.Failure? <==> DeviantOffsets(p, draws).Failure?
    ensures r.Success? ==> r.value == OddballSpec(p, DeviantOffsets(p, draws).value, gauss)
  {
    var angles := DeviantAngles(p, draws);
    if angles.Failure? {
      return Failure(angles.error);
    }
    var o := OddballSpec(p, DeviantOffsets(p, draws).value, gauss);
    return Success(o.(angle := angles.value));
  }

  lemma {:induction false} DeviantFailurePersists(p: OddballProtocol, draws: seq<real>, j: nat)
    requires j <= |draws| && DeviantOffsets(p, draws[..j]).Failure?
    ensures DeviantOffsets(p, draws).Failure?
  {
    DeviantOffsetsFail(p, draws[..j]);
    DeviantOffsetsFail(p, draws);
    var i :| 0 <= i < j && LinearProb(draws[..j][i], p.M()).Failure?;
    assert draws[i] == draws[..j][i];
  }

  /**
   * Every block of N episodes holds one deviant position, at an offset in
   * [Nmin-successive-redundant, N - 1]; every other position of the block
   * has the redundant angle.
   */
  lemma {:induction false} OneDeviantPerBlock(p: OddballProtocol, offs: seq<nat>, k: nat)
    requires |offs| == p.nRepeat && k < p.Total()
    requires forall i :: 0 <= i < |offs| ==> p.nMin <= offs[i] < p.N()
    ensures p.N() > 0 && k / p.N() < p.nRepeat
    ensures p.nMin <= offs[k / p.N()] < p.N()
    ensures Angles(p, offs)[k] == if k % p.N() == offs[k / p.N()] then p.angleDeviant else p.angleRedundant
  {
    BlockOf(k, p.N(), p.nRepeat);
    assert Angles(p, offs)[k] == AngleAt(p, offs, k);
  }

  /** index and repeat decompose the episode number: k = repeat * N + index with index < N. */
  lemma {:induction false} OddballIndexing(p: OddballProtocol, offs: seq<nat>, gauss: seq<real>, k: nat)
    requires |offs| == p.nRepeat && |gauss| == p.Total() && k < p.Total()
    ensures var o := OddballSpec(p, offs, gauss);
      o.index[k] < p.N() && o.repeat[k] < p.nRepeat && k == o.repeat[k] * p.N() + o.index[k]
  {
    BlockOf(k, p.N(), p.nRepeat);
  }

  /**
   * The oddball time axis opens at the prestim period and each episode
   * starts one interstim after the previous one stops.
   */
  lemma {:induction false} OddballTimes(p: OddballProtocol, offs: seq<nat>, gauss: seq<real>, k: nat)
    requires |offs| == p.nRepeat && |gauss| == p.Total() && k + 1 < p.Total()
    ensures var o := OddballSpec(p, offs, gauss);
      o.timeStart[0] == p.prestim &&
      o.timeStart[k + 1] == o.timeStop[k] + o.interstim[k] &&
      o.timeStop[k] - o.timeStart[k] == o.timeDuration[k]
  {
    var o := OddballSpec(p, offs, gauss);
    var n := p.Total();
    var isi := seq(n, j requires 0 <= j < n => p.meanInterstim + gauss[j] * p.jitterInterstim);
    var steps := [p.prestim] + seq(n - 1, j requires 0 <= j < n - 1 => p.stimDuration + isi[j]);
    assert o.timeStart == CumSum(steps);
    assert steps[..1] == [p.prestim];
    assert Sum([p.prestim]) == Sum([]) + p.prestim;
    assert steps[..k + 2][..k + 1] == steps[..k + 1];
    assert Sum(steps[..k + 2]) == Sum(steps[..k + 1]) + steps[k + 1];
  }

  /** With no episodes at all the start and stop lists still hold the prestim entry. */
  lemma {:induction false} EmptyOddball(p: OddballProtocol, offs: seq<nat>)
    requires |offs| == p.nRepeat && p.Total() == 0
    ensures var o := OddballSpec(p, offs, []); |o.index| == 0 && o.timeStart == [p.prestim] && |o.timeStop| == 1
  {
    assert Sum([p.prestim]) == Sum([]) + p.prestim;
  }

  // ---------------------------------------------------------------------
  // sparse_noise and dense_noise
  // ---------------------------------------------------------------------

  datatype Noise = Noise(
    index: seq<nat>, interstim: seq<real>, interstimScreen: seq<real>,
    timeStart: seq<real>, timeStop: seq<real>, runType: seq<string>, timeDuration: seq<real>)

  /**
   * The noise schedules (lines 1256-1263 and 1291-1298) from the
   * generator's change times: episode k runs from events[k] to events[k+1]
   * shifted by the prestim period, with no interstim.  np.zeros of a
   * negative length raises.  The dense schedule as written indexes
   * np.arange(len(events)) and lists one frame_run_type per index; the
   * corrected one stops at len(events) - 1 like the sparse schedule.
   */
  function NoiseSchedule(events: seq<real>, prestim: real, indexAll: bool): (r: Result<Noise>)
    ensures r.Failure? <==> events == []
    ensures r.Failure? ==> r.error == NegativeLength
  {
    if events == [] then Failure(NegativeLength)
    else
      var e := |events| - 1;
      var m := if indexAll then |events| else e;
      var start := seq(e, k requires 0 <= k < e => events[k] + prestim);
      var stop := seq(e, k requires 0 <= k < e => events[k + 1] + prestim);
      Success(Noise(Range(m), seq(e, k => 0.0), seq(e, k => 0.0), start, stop, seq(m, k => "image"),
        seq(e, k requires 0 <= k < e => stop[k] - start[k])))
  }

  function SparseNoise(events: seq<real>, prestim: real): Result<Noise> { NoiseSchedule(events, prestim, false) }

  function DenseNoise(events: seq<real>, prestim: real): Result<Noise> { NoiseSchedule(events, prestim, true) }

  /** Consecutive noise episodes abut, each lasting the time between two generator events. */
  lemma {:induction false} NoiseAbuts(events: seq<real>, prestim: real, indexAll: bool, k: nat)
    requires |events| >= 2 && k < |events| - 1
    ensures var s := NoiseSchedule(events, prestim, indexAll).value;
      |s.timeStart| == |s.timeStop| == |s.timeDuration| == |s.interstim| == |events| - 1 &&
      s.timeDuration[k] == events[k + 1] - events[k] && s.interstim[k] == 0.0 &&
      (k + 1 < |events| - 1 ==> s.timeStart[k + 1] == s.timeStop[k])
  {
  }

  /** The sparse schedule is rectangular: every column lists the |events| - 1 episodes. */
  lemma {:induction false} SparseRectangular(events: seq<real>, prestim: real)
    requires events != []
    ensures var s := SparseNoise(events, prestim).value;
      |s.index| == |s.runType| == |s.timeStart| == |s.timeStop| == |s.timeDuration| == |s.interstim| == |s.interstimScreen| == |events| - 1
  {
  }

  /** The duration a presentation loop reads for episode i, time_duration[i]. */
  function EpisodeDuration(s: Noise, i: nat): (r: Result<real>)
    ensures r.Success? <==> i < |s.timeDuration|
  {
    if i < |s.timeDuration| then Success(s.timeDuration[i]) else Failure(IndexOutOfRange)
  }

  /**
   * As written, the dense schedule lists one episode more in index than in
   * its time columns, so run reaches episode len(events) - 1, whose duration
   * lookup raises.
   */
  lemma {:induction false} DenseIndexMismatch(events: seq<real>, prestim: real)
    requires events != []
    ensures var s := DenseNoise(events, prestim).value;
      |s.index| == |s.timeDuration| + 1 &&
      EpisodeDuration(s, |s.index| - 1).Failure?
  {
  }

  /** Corrected, the dense schedule indexes exactly the episodes it has durations for. */
  lemma {:induction false} CorrectedDenseRectangular(events: seq<real>, prestim: real, i: nat)
    requires events != []
    ensures var s := NoiseSchedule(events, prestim, false).value;
      |s.index| == |s.timeDuration| && (i < |s.index| <==> EpisodeDuration(s, i).Success?)
  {
  }
}
