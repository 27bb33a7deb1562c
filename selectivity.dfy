/**
 * The orientation-selectivity analysis of a cell: trial counts, clipped
 * response integrals, the responsiveness test and the orientation
 * selectivity index.  A trace is a list of samples on a shared time grid;
 * the trial-averaged mean and standard deviation traces
 * (compute_repeated_trials' np.mean/np.std) are inputs.
 */
module Selectivity {
  import opened Wrappers
  import opened Values

  // ---------------------------------------------------------------------
  // numpy reductions
  // ---------------------------------------------------------------------

  /** np.argmax: the first index of the largest entry. */
  function ArgMax(s: seq<real>): (i: nat)
    requires s != []
    ensures i < |s| && (forall j :: 0 <= j < |s| ==> s[j] <= s[i])
    ensures forall j :: 0 <= j < i ==> s[j] < s[i]
  {
    if |s| == 1 then 0
    else
      var k := ArgMax(s[..|s| - 1]);
      assert forall j :: 0 <= j < |s| - 1 ==> s[..|s| - 1][j] == s[j];
      if s[|s| - 1] > s[k] then |s| - 1 else k
  }

  /** np.argmin: the first index of the smallest entry. */
  function ArgMin(s: seq<real>): (i: nat)
    requires s != []
    ensures i < |s| && (forall j :: 0 <= j < |s| ==> s[i] <= s[j])
    ensures forall j :: 0 <= j < i ==> s[i] < s[j]
  {
    if |s| == 1 then 0
    else
      var k := ArgMin(s[..|s| - 1]);
      assert forall j :: 0 <= j < |s| - 1 ==> s[..|s| - 1][j] == s[j];
      if s[|s| - 1] < s[k] then |s| - 1 else k
  }

  /** np.max, which raises on an empty array. */
  function Max(s: seq<real>): (m: real)
    requires s != []
    ensures m in s && forall j :: 0 <= j < |s| ==> s[j] <= m
  {
    s[ArgMax(s)]
  }

  /** np.mean; None where numpy returns NaN (an empty array). */
  function Mean(s: seq<real>): (m: Option<real>)
    ensures m.Some? <==> s != []
  {
    if s == [] then None else Some(Sum(s) / (|s| as real))
  }

  /** np.trapz with unit spacing: the trapezoid rule over consecutive samples. */
  function Trapz(y: seq<real>): real
  {
    if |y| < 2 then 0.0 else Trapz(y[..|y| - 1]) + (y[|y| - 2] + y[|y| - 1]) / 2.0
  }

  /** The trace minus a constant baseline. */
  function Shift(y: seq<real>, b: real): (z: seq<real>)
    ensures |z| == |y| && forall i :: 0 <= i < |y| ==> z[i] == y[i] - b
  {
    seq(|y|, i requires 0 <= i < |y| => y[i] - b)
  }

  /** Removing a baseline removes it once per unit interval of the trapezoid rule. */
  lemma {:induction false} TrapzShift(y: seq<real>, b: real)
    ensures Trapz(Shift(y, b)) == Trapz(y) - b * (if |y| < 2 then 0.0 else (|y| - 1) as real)
  {
    if |y| >= 2 {
      var z := Shift(y, b);
      assert z[..|z| - 1] == Shift(y[..|y| - 1], b);
      TrapzShift(y[..|y| - 1], b);
      assert (z[|z| - 2] + z[|z| - 1]) / 2.0 == (y[|y| - 2] + y[|y| - 1]) / 2.0 - b;
    }
  }

  /** np.clip of one value. */
  function Clip(x: real, lo: real, hi: real): (r: real)
    requires lo <= hi
    ensures lo <= r <= hi
    ensures lo <= x <= hi ==> r == x
  {
    if x < lo then lo else if x > hi then hi else x
  }

  // ---------------------------------------------------------------------
  // time windows of an episode
  // ---------------------------------------------------------------------

  /**
   * The sample masks of the analysis: the pre-stimulus window t <= 0 and
   * the stimulus window 0 < t <= duration (integrals) or 0 < t < duration
   * (responsiveness).
   */
  datatype Window = Pre | Stim(duration: real, closed: bool)

  predicate InWindow(w: Window, t: real)
  {
    match w
    case Pre => t <= 0.0
    case Stim(d, closed) => 0.0 < t && (if closed then t <= d else t < d)
  }

  /** Boolean-mask indexing y[cond]: the samples whose time lies in the window, in order. */
  function Select(y: seq<real>, t: seq<real>, w: Window): (s: seq<real>)
    requires |y| == |t|
    ensures |s| == Samples(t, w) <= |y|
    ensures s == [] <==> forall k :: 0 <= k < |t| ==> !InWindow(w, t[k])
    ensures forall x :: x in s ==> exists k :: 0 <= k < |y| && InWindow(w, t[k]) && y[k] == x
  {
    if y == [] then []
    else
      var init := Select(y[..|y| - 1], t[..|t| - 1], w);
      assert forall k :: 0 <= k < |t| - 1 ==> t[..|t| - 1][k] == t[k] && y[..|y| - 1][k] == y[k];
      if InWindow(w, t[|t| - 1]) then init + [y[|y| - 1]] else init
  }

  /** np.sum(cond) of a window's mask: how many times lie in the window. */
  function Samples(t: seq<real>, w: Window): nat
  {
    if t == [] then 0 else Samples(t[..|t| - 1], w) + if InWindow(w, t[|t| - 1]) then 1 else 0
  }

  // ---------------------------------------------------------------------
  // CellResponse: trial selection and integral responses
  // ---------------------------------------------------------------------

  /**
   * np.sum(cond): how many episodes have key value v.  Cells are compared as
   * values, so the episodes' keys and the varied values are taken to share
   * one constructor (the varied values are read from the same column).
   */
  function Count(keys: seq<Value>, v: Value): (n: nat)
    ensures n <= |keys|
  {
    if keys == [] then 0 else Count(keys[..|keys| - 1], v) + if keys[|keys| - 1] == v then 1 else 0
  }

  /** The count is the multiplicity of the value among the episodes' keys. */
  lemma {:induction false} CountIsMultiplicity(keys: seq<Value>, v: Value)
    ensures Count(keys, v) == multiset(keys)[v]
  {
    if keys != [] {
      CountIsMultiplicity(keys[..|keys| - 1], v);
      assert keys == keys[..|keys| - 1] + [keys[|keys| - 1]];
    }
  }

  /**
   * The third result of compute_repeated_trials (lines 39-41): the number of
   * episodes whose key equals the index-th varied value, a negative index
   * counting from the end, which raises outside the varied list.
   */
  function RepeatedTrialCount(keys: seq<Value>, varied: seq<Value>, index: int): (r: Result<nat>)
    ensures r.Failure? <==> !(-|varied| <= index < |varied|)
    ensures r.Success? ==> r.value == multiset(keys)[varied[PyIndex(index, |varied|).value]]
  {
    match PyIndex(index, |varied|)
    case None => Failure(IndexOutOfRange)
    case Some(k) =>
      CountIsMultiplicity(keys, varied[k]);
      Success(Count(keys, varied[k]))
  }

  /**
   * The integral of one mean response (line 49): the trapezoid rule over the
   * stimulus window after removing the pre-stimulus mean.  An empty
   * pre-stimulus window makes the baseline NaN, and the integral is NaN as
   * soon as the rule adds an interval; over fewer than two stimulus samples
   * np.trapz adds none and returns 0.
   */
  function Integral(mean: seq<real>, t: seq<real>, duration: real): (r: Option<real>)
    requires |mean| == |t|
    ensures r.Some? <==> Samples(t, Stim(duration, true)) < 2 || exists k :: 0 <= k < |t| && InWindow(Pre, t[k])
    ensures Samples(t, Stim(duration, true)) < 2 ==> r == Some(0.0)
  {
    var stim := Select(mean, t, Stim(duration, true));
    match Mean(Select(mean, t, Pre))
    case None => if |stim| < 2 then Some(0.0) else None
    case Some(b) => Some(Trapz(Shift(stim, b)))
  }

  const MaxIntegral: real := 1000000000000.0

  /**
   * compute_integral_responses (lines 43-50): the varied values, unchanged,
   * with one integral per value clipped into [0, 1e12].  means[i] is the
   * trial-averaged response to the i-th value and duration the first
   * episode's time_duration.  A NaN integral is reported as a failure.
   */
  method IntegralResponses(values: seq<Value>, means: seq<seq<real>>, t: seq<real>, duration: real)
    returns (vals: seq<Value>, r: Result<seq<real>>)
    requires |means| == |values| && forall i :: 0 <= i < |means| ==> |means[i]| == |t|
    ensures vals == values
    ensures r.Failure? <==>
      values != [] && Samples(t, Stim(duration, true)) >= 2 && forall k :: 0 <= k < |t| ==> t[k] > 0.0
    ensures r.Failure? ==> r.error == NotANumber
    ensures r.Success? ==> |r.value| == |values| && forall i :: 0 <= i < |values| ==>
      Integral(means[i], t, duration).Some? && r.value[i] == Clip(Integral(means[i], t, duration).value, 0.0, MaxIntegral)
  {
    var integrals: seq<real> := [];
    var i := 0;
    while i < |values|
      invariant 0 <= i <= |values| && |integrals| == i
      invariant forall j :: 0 <= j < i ==> Integral(means[j], t, duration) == Some(integrals[j])
    {
      var y := Integral(means[i], t, duration);
      if y.None? {
        return values, Failure(NotANumber);
      }
      integrals := integrals + [y.value];
      i := i + 1;
    }
    if values != [] {
      assert Integral(means[0], t, duration).Some?;
    }
    var clipped := seq(|integrals|, j requires 0 <= j < |integrals| => Clip(integrals[j], 0.0, MaxIntegral));
    return values, Success(clipped);
  }

  /** Every clipped integral lies in [0, 1e12], and one already in range is kept as computed. */
  lemma {:induction false} IntegralsClipped(x: real)
    ensures 0.0 <= Clip(x, 0.0, MaxIntegral) <= MaxIntegral
    ensures 0.0 <= x <= MaxIntegral ==> Clip(x, 0.0, MaxIntegral) == x
    ensures x < 0.0 ==> Clip(x, 0.0, MaxIntegral) == 0.0
  {
  }

  // ---------------------------------------------------------------------
  // responsiveness
  // ---------------------------------------------------------------------

  /**
   * The test of line 105 for one angle: the stimulus-window maximum of the
   * mean trace exceeds threshold times the mean pre-stimulus deviation (a
   * comparison with NaN, from an empty pre-stimulus window, is false).
   */
  predicate Exceeds(my: seq<real>, sy: seq<real>, t: seq<real>, duration: real, threshold: real)
    requires |my| == |t| && |sy| == |t|
  {
    var stim := Select(my, t, Stim(duration, false));
    var noise := Mean(Select(sy, t, Pre));
    stim != [] && noise.Some? && Max(stim) > threshold * noise.value
  }

  /** One pass of the responsiveness loop: the test of line 105, raising on an empty stimulus window. */
  function AngleResponsive(my: seq<real>, sy: seq<real>, t: seq<real>, duration: real, threshold: real): (r: Result<bool>)
    requires |my| == |t| && |sy| == |t|
    ensures r.Failure? <==> forall k :: 0 <= k < |t| ==> !InWindow(Stim(duration, false), t[k])
    ensures r.Failure? ==> r.error == EmptyReduction
    ensures r.Success? ==> (r.value <==> Exceeds(my, sy, t, duration, threshold))
  {
    var stim := Select(my, t, Stim(duration, false));
    if stim == [] then Failure(EmptyReduction)
    else
      var noise := Mean(Select(sy, t, Pre));
      Success(noise.Some? && Max(stim) > threshold * noise.value)
  }

  /**
   * responsiveness (lines 96-107): true iff some angle's mean response
   * exceeds its fluctuations.  np.max of an empty stimulus window raises.
   */
  method Responsiveness(my: seq<seq<real>>, sy: seq<seq<real>>, t: seq<real>, duration: real, threshold: real)
    returns (r: Result<bool>)
    requires |sy| == |my| && forall i :: 0 <= i < |my| ==> |my[i]| == |t| && |sy[i]| == |t|
    ensures r.Failure? <==> my != [] && forall k :: 0 <= k < |t| ==> !InWindow(Stim(duration, false), t[k])
    ensures r.Failure? ==> r.error == EmptyReduction
    ensures r.Success? ==> (r.value <==> exists i :: 0 <= i < |my| && Exceeds(my[i], sy[i], t, duration, threshold))
  {
    var responsive := false;
    for i := 0 to |my|
      invariant responsive == SomeExceeds(my, sy, t, duration, threshold, i)
      invariant i > 0 ==> exists k :: 0 <= k < |t| && InWindow(Stim(duration, false), t[k])
    {
      var test := AngleResponsive(my[i], sy[i], t, duration, threshold);
      if test.Failure? {
        return Failure(test.error);
      }
      if test.value {
        responsive := true;
      }
    }
    SomeExceedsIff(my, sy, t, duration, threshold, |my|);
    return Success(responsive);
  }

  /** Whether one of the first n angles passes the test of line 105. */
  predicate SomeExceeds(my: seq<seq<real>>, sy: seq<seq<real>>, t: seq<real>, duration: real, threshold: real, n: nat)
    requires n <= |my| && |sy| == |my| && forall i :: 0 <= i < |my| ==> |my[i]| == |t| && |sy[i]| == |t|
  {
    n > 0 && (SomeExceeds(my, sy, t, duration, threshold, n - 1) || Exceeds(my[n - 1], sy[n - 1], t, duration, threshold))
  }

  lemma {:induction false} SomeExceedsIff(my: seq<seq<real>>, sy: seq<seq<real>>, t: seq<real>, duration: real, threshold: real, n: nat)
    requires n <= |my| && |sy| == |my| && forall i :: 0 <= i < |my| ==> |my[i]| == |t| && |sy[i]| == |t|
    ensures SomeExceeds(my, sy, t, duration, threshold, n) <==> exists j :: 0 <= j < n && Exceeds(my[j], sy[j], t, duration, threshold)
  {
    if n > 0 {
      SomeExceedsIff(my, sy, t, duration, threshold, n - 1);
    }
  }

  // ---------------------------------------------------------------------
  // orientation_selectivity_index
  // ---------------------------------------------------------------------

  /** ((angles[imax] + 90) % 180 - angles)**2, elementwise. */
  function OppositeGaps(angles: seq<real>, preferred: real): (g: seq<real>)
    ensures |g| == |angles|
  {
    var opposite := FloatMod(preferred + 90.0, 180.0);
    seq(|angles|, j requires 0 <= j < |angles| => (opposite - angles[j]) * (opposite - angles[j]))
  }

  /** min([1, max([0, x])]). */
  function Clamp01(x: real): (r: real)
    ensures 0.0 <= r <= 1.0
    ensures 0.0 <= x <= 1.0 ==> r == x
  {
    if x <= 0.0 then 0.0 else if x >= 1.0 then 1.0 else x
  }

  /**
   * The ratio of line 113 for a preferred response a > 0 and an opposite
   * response b; a zero denominator gives numpy's +inf, which the clamp
   * turns into 1.
   */
  function Selectivity(a: real, b: real): real
  {
    if a + b == 0.0 then 1.0 else Clamp01((a - b) / (a + b))
  }

  /**
   * orientation_selectivity_index (lines 109-115): imax is the first index
   * of the largest response, iop the first angle closest to the orthogonal
   * of angles[imax]; the index is 0 unless resp[imax] > 0.  np.argmax of an
   * empty array raises; angles[imax] and resp[iop] raise past the end.
   */
  function OrientationSelectivityIndex(angles: seq<real>, resp: seq<real>): (r: Result<real>)
    ensures r.Failure? <==> (resp == [] || ArgMax(resp) >= |angles| ||
      (resp[ArgMax(resp)] > 0.0 && ArgMin(OppositeGaps(angles, angles[ArgMax(resp)])) >= |resp|))
    ensures r.Failure? ==> r.error == if resp == [] then EmptyReduction else IndexOutOfRange
    ensures r.Success? ==> 0.0 <= r.value <= 1.0
    ensures r.Success? ==> (resp[ArgMax(resp)] <= 0.0 ==> r.value == 0.0)
  {
    if resp == [] then Failure(EmptyReduction)
    else
      var imax := ArgMax(resp);
      if imax >= |angles| then Failure(IndexOutOfRange)
      else
        var iop := ArgMin(OppositeGaps(angles, angles[imax]));
        if resp[imax] > 0.0 then
          if iop >= |resp| then Failure(IndexOutOfRange)
          else Success(Selectivity(resp[imax], resp[iop]))
        else Success(0.0)
  }

  /**
   * For a positive preferred response and an opposite one between 0 and it,
   * the clamp leaves the ratio as computed; the index is 0 exactly when the
   * two responses are equal and 1 exactly when the opposite one is 0.
   */
  lemma {:induction false} SelectivityUnclamped(a: real, b: real)
    requires 0.0 <= b <= a && a > 0.0
    ensures Selectivity(a, b) == (a - b) / (a + b)
    ensures Selectivity(a, b) == 0.0 <==> b == a
    ensures Selectivity(a, b) == 1.0 <==> b == 0.0
  {
    var q := (a - b) / (a + b);
    assert q * (a + b) == a - b;
    if q > 1.0 {
      ScaleStrict(1.0, q, a + b);
      assert false;
    }
    if q < 0.0 {
      ScaleStrict(q, 0.0, a + b);
      assert false;
    }
  }

  /**
   * With non-negative responses and a positive preferred one, the clamp
   * never changes the index: it is (resp[imax] - resp[iop]) / (resp[imax] +
   * resp[iop]), 0 exactly when the opposite response is as large and 1
   * exactly when it is 0.
   */
  lemma {:induction false} UnclampedIndex(angles: seq<real>, resp: seq<real>)
    requires forall j :: 0 <= j < |resp| ==> resp[j] >= 0.0
    requires OrientationSelectivityIndex(angles, resp).Success?
    requires resp[ArgMax(resp)] > 0.0
    ensures var imax := ArgMax(resp);
      var iop := ArgMin(OppositeGaps(angles, angles[imax]));
      var a, b := resp[imax], resp[iop];
      var r := OrientationSelectivityIndex(angles, resp).value;
      r == (a - b) / (a + b) && (r == 0.0 <==> b == a) && (r == 1.0 <==> b == 0.0)
  {
    var imax := ArgMax(resp);
    var iop := ArgMin(OppositeGaps(angles, angles[imax]));
    assert iop < |resp|;
    SelectivityUnclamped(resp[imax], resp[iop]);
  }

  /** The opposite angle iop is a closest one to the orthogonal of the preferred angle, and the first such. */
  lemma {:induction false} OppositeIsClosest(angles: seq<real>, resp: seq<real>, j: nat)
    requires resp != [] && ArgMax(resp) < |angles| && j < |angles|
    ensures var g := OppositeGaps(angles, angles[ArgMax(resp)]);
      var iop := ArgMin(g);
      g[iop] <= g[j] && (j < iop ==> g[iop] < g[j])
  {
  }
}
