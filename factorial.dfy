/**
 * The factorial schedule builder of the stimulus scheduler
 * (visual_stim.init_experiment): per-factor value lists, their cartesian
 * product in itertools.product order, one optional shuffle of the
 * no-repeat order, tiling over the repeats, the resume offset
 * 'starting-index', and the contiguous time axis.
 */
module Factorial {
  import opened Wrappers
  import opened Values
  import opened Strings

  /** What a protocol says about one factor F: 'F-1', 'F-2' and 'N-F'. */
  datatype FactorRange = FactorRange(low: real, high: real, count: int)

  /** The protocol entries init_experiment reads. */
  datatype Protocol = Protocol(
    entries: seq<(string, Value)>,  // every key and value of the protocol, in dict order
    presentation: string,           // 'Presentation'
    prestim: real,                  // 'presentation-prestim-period'
    duration: real,                 // 'presentation-duration'
    interstim: real,                // 'presentation-interstim-period'
    interstimScreen: real,          // 'presentation-interstim-screen'
    nRepeat: int,                   // 'N-repeat'
    startingIndex: nat)             // 'starting-index'

  const SingleStimulus := "Single-Stimulus"
  const RandomizedSequence := "Randomized-Sequence"

  /** The columns every schedule built here holds besides the factor columns. */
  const ReservedColumns: set<string> :=
    {"index", "repeat", "time_start", "time_stop", "interstim", "time_duration",
     "interstim-screen", "frame_run_type"}

  /**
   * np.linspace(lo, hi, n) for n >= 2, in exact arithmetic: numpy computes
   * lo + k*step and stores hi itself as the last element.
   */
  function Linspace(lo: real, hi: real, n: nat): (r: seq<real>)
    requires n >= 2
    ensures |r| == n && r[0] == lo && r[n - 1] == hi
  {
    var step := (hi - lo) / (n - 1) as real;
    seq(n, k requires 0 <= k < n => if k == n - 1 then hi else lo + k as real * step)
  }

  /** Consecutive linspace values lie one step (hi - lo) / (n - 1) apart. */
  lemma {:induction false} LinspaceSteps(lo: real, hi: real, n: nat)
    requires n >= 2
    ensures forall k :: 0 <= k < n - 1 ==> Linspace(lo, hi, n)[k + 1] - Linspace(lo, hi, n)[k] == (hi - lo) / (n - 1) as real
  {
    var step := (hi - lo) / (n - 1) as real;
    var r := Linspace(lo, hi, n);
    forall k | 0 <= k < n - 1
      ensures r[k + 1] - r[k] == step
    {
      if k + 1 == n - 1 {
        assert (n - 1) as real * step == hi - lo;
        assert r[k] == lo + k as real * step;
        assert (k + 1) as real * step == k as real * step + step;
      } else {
        assert r[k + 1] == lo + (k + 1) as real * step;
        assert (k + 1) as real * step == k as real * step + step;
      }
    }
  }

  /** The value list of one factor: swept when N-F > 1, otherwise the single value F-2. */
  function FactorValues(f: FactorRange): (r: seq<real>)
    ensures f.count > 1 ==> |r| == f.count && r[0] == f.low && r[|r| - 1] == f.high
    ensures f.count <= 1 ==> r == [f.high]
    ensures |r| >= 1
  {
    if f.count > 1 then Linspace(f.low, f.high, f.count) else [f.high]
  }

  function Vecs(ranges: seq<FactorRange>): (r: seq<seq<real>>)
    ensures |r| == |ranges| && forall j :: 0 <= j < |ranges| ==> r[j] == FactorValues(ranges[j])
  {
    seq(|ranges|, j requires 0 <= j < |ranges| => FactorValues(ranges[j]))
  }

  function Sizes(vecs: seq<seq<real>>): (r: seq<nat>)
    ensures |r| == |vecs| && forall j :: 0 <= j < |vecs| ==> r[j] == |vecs[j]|
  {
    seq(|vecs|, j requires 0 <= j < |vecs| => |vecs[j]|)
  }

  function SizeProduct(sizes: seq<nat>): nat
  {
    if sizes == [] then 1 else sizes[0] * SizeProduct(sizes[1..])
  }

  /** [[x] + p for p in ps]. */
  function Prepend(x: real, ps: seq<seq<real>>): (r: seq<seq<real>>)
    ensures |r| == |ps| && forall k :: 0 <= k < |ps| ==> r[k] == [x] + ps[k]
  {
    seq(|ps|, k requires 0 <= k < |ps| => [x] + ps[k])
  }

  /** [[a] + p for a in v for p in ps]: the first factor varies slowest. */
  function Spread(v: seq<real>, ps: seq<seq<real>>): seq<seq<real>>
  {
    if v == [] then [] else Prepend(v[0], ps) + Spread(v[1..], ps)
  }

  /** list(itertools.product(*vecs)). */
  function Product(vecs: seq<seq<real>>): seq<seq<real>>
  {
    if vecs == [] then [[]] else Spread(vecs[0], Product(vecs[1..]))
  }

  lemma {:induction false} DivBelow(k: nat, a: nat, b: nat)
    requires k < a * b
    ensures b > 0 && k / b < a && k % b < b
  {
    if b == 0 {
      assert false;
    }
    var q := k / b;
    assert q * b + k % b == k;
    if q >= a {
      MulLeq(a, q, b);
      assert false;
    }
  }

  lemma {:induction false} MulLeq(x: nat, y: nat, k: nat)
    requires x <= y
    ensures x * k <= y * k
  {
    var d := y - x;
    assert y * k == x * k + d * k;
  }

  /** The leading mixed-radix digit of k: whole blocks of the size product of the rest. */
  function Lead(k: nat, sizes: seq<nat>): (d: nat)
    requires sizes != [] && k < SizeProduct(sizes)
    ensures SizeProduct(sizes[1..]) > 0 && d < sizes[0]
  {
    DivBelow(k, sizes[0], SizeProduct(sizes[1..]));
    k / SizeProduct(sizes[1..])
  }

  /** What is left of k once its leading digit is taken off. */
  function Rest(k: nat, sizes: seq<nat>): (m: nat)
    requires sizes != [] && k < SizeProduct(sizes)
    ensures m < SizeProduct(sizes[1..])
  {
    DivBelow(k, sizes[0], SizeProduct(sizes[1..]));
    k % SizeProduct(sizes[1..])
  }

  /**
   * The mixed-radix digits of k, most significant first: digit j is the
   * position of factor j's value in combination k.
   */
  function Digits(k: nat, sizes: seq<nat>): (r: seq<nat>)
    requires k < SizeProduct(sizes)
    ensures |r| == |sizes| && forall j :: 0 <= j < |sizes| ==> r[j] < sizes[j]
    decreases |sizes|
  {
    if sizes == [] then []
    else
      [Lead(k, sizes)] + Digits(Rest(k, sizes), sizes[1..])
  }

  lemma {:induction false} SpreadLength(v: seq<real>, ps: seq<seq<real>>)
    ensures |Spread(v, ps)| == |v| * |ps|
    decreases |v|
  {
    if v != [] {
      SpreadLength(v[1..], ps);
      assert |v| * |ps| == (|v| - 1) * |ps| + |ps|;
    }
  }

  lemma {:induction false} SmallDivMod(k: nat, n: nat)
    requires k < n
    ensures k / n == 0 && k % n == k
  {
    DivModUnique(k, n, 0, k);
  }

  lemma {:induction false} DivModShift(k: nat, n: nat)
    requires 0 < n <= k
    ensures k / n >= 1 && (k - n) / n == k / n - 1 && (k - n) % n == k % n
  {
    DivBelow(n, k / n + 1, n);
    assert k == (k / n) * n + k % n;
    assert k - n == (k / n - 1) * n + k % n;
    DivModUnique(k - n, n, k / n - 1, k % n);
  }

  /** Element k of the spread pairs element k div |ps| of v with element k mod |ps| of ps. */
  lemma {:induction false} SpreadAt(v: seq<real>, ps: seq<seq<real>>, k: nat)
    requires k < |v| * |ps|
    ensures |ps| > 0 && k / |ps| < |v|
    ensures k < |Spread(v, ps)| && Spread(v, ps)[k] == [v[k / |ps|]] + ps[k % |ps|]
    decreases |v|
  {
    SpreadLength(v, ps);
    DivBelow(k, |v|, |ps|);
    var n := |ps|;
    assert Spread(v, ps) == Prepend(v[0], ps) + Spread(v[1..], ps);
    if k < n {
      SmallDivMod(k, n);
    } else {
      DivModShift(k, n);
      assert k - n < (|v| - 1) * n by {
        assert (|v| - 1) * n == |v| * n - n;
      }
      SpreadAt(v[1..], ps, k - n);
      assert Spread(v, ps)[k] == Spread(v[1..], ps)[k - n];
    }
  }

  /** The product holds one combination per mixed-radix number below the size product. */
  lemma {:induction false} ProductLength(vecs: seq<seq<real>>)
    ensures |Product(vecs)| == SizeProduct(Sizes(vecs))
    decreases |vecs|
  {
    if vecs != [] {
      ProductLength(vecs[1..]);
      SpreadLength(vecs[0], Product(vecs[1..]));
      assert Sizes(vecs)[1..] == Sizes(vecs[1..]);
    }
  }

  /** The leading digit of k counts whole blocks of the size product of the rest. */
  lemma {:induction false} DigitsHead(sizes: seq<nat>, k: nat)
    requires sizes != [] && k < SizeProduct(sizes)
    ensures SizeProduct(sizes[1..]) > 0
    ensures Digits(k, sizes)[0] == k / SizeProduct(sizes[1..])
    ensures Digits(k, sizes)[1..] == Digits(k % SizeProduct(sizes[1..]), sizes[1..])
  {
    assert Digits(k, sizes) == [Lead(k, sizes)] + Digits(Rest(k, sizes), sizes[1..]);
  }

  /** Combination k begins with element k div K' of the first factor, K' the size of the rest. */
  lemma {:induction false} ProductHead(vecs: seq<seq<real>>, k: nat) returns (b: nat, m: nat)
    requires vecs != [] && k < SizeProduct(Sizes(vecs))
    ensures b < |vecs[0]| && m < SizeProduct(Sizes(vecs[1..])) == |Product(vecs[1..])|
    ensures k < |Product(vecs)| && Product(vecs)[k] == [vecs[0][b]] + Product(vecs[1..])[m]
    ensures Digits(k, Sizes(vecs))[0] == b && Digits(k, Sizes(vecs))[1..] == Digits(m, Sizes(vecs[1..]))
  {
    var rest := vecs[1..];
    var ps := Product(rest);
    ProductLength(vecs);
    ProductLength(rest);
    var sizes := Sizes(vecs);
    assert sizes[1..] == Sizes(rest);
    DigitsHead(sizes, k);
    assert k < |vecs[0]| * |ps|;
    SpreadAt(vecs[0], ps, k);
    b, m := k / |ps|, k % |ps|;
  }

  /**
   * Combination k of itertools.product takes from factor j the element at
   * mixed-radix digit j of k, the first listed factor varying slowest.
   */
  lemma {:induction false} ProductAt(vecs: seq<seq<real>>, k: nat)
    requires k < SizeProduct(Sizes(vecs))
    ensures k < |Product(vecs)|
    ensures |Product(vecs)[k]| == |vecs|
    ensures forall j :: 0 <= j < |vecs| ==> Product(vecs)[k][j] == vecs[j][Digits(k, Sizes(vecs))[j]]
    decreases |vecs|
  {
    ProductLength(vecs);
    if vecs != [] {
      var rest := vecs[1..];
      var b, m := ProductHead(vecs, k);
      ProductAt(rest, m);
      var row := Product(vecs)[k];
      var inner := Product(rest)[m];
      var d := Digits(k, Sizes(vecs));
      var d' := Digits(m, Sizes(rest));
      assert row == [vecs[0][b]] + inner;
      assert d[1..] == d';
      forall j | 1 <= j < |vecs|
        ensures row[j] == vecs[j][d[j]]
      {
        assert row[j] == inner[j - 1];
        assert d[j] == d[1..][j - 1];
        assert inner[j - 1] == rest[j - 1][d'[j - 1]];
      }
    }
  }

  /** Number of entries of the no-repeat index set: the product of the value-list lengths. */
  function NoRepeatCount(ranges: seq<FactorRange>): (k: nat)
    ensures k >= 1
  {
    PositiveProduct(Sizes(Vecs(ranges)));
    SizeProduct(Sizes(Vecs(ranges)))
  }

  lemma {:induction false} PositiveProduct(sizes: seq<nat>)
    requires forall j :: 0 <= j < |sizes| ==> sizes[j] >= 1
    ensures SizeProduct(sizes) >= 1
    decreases |sizes|
  {
    if sizes != [] {
      PositiveProduct(sizes[1..]);
    }
  }

  /** np.concatenate of R copies of order. */
  function Tiled(order: seq<nat>, copies: nat): (r: seq<nat>)
    ensures |r| == copies * |order|
  {
    if copies == 0 then [] else Tiled(order, copies - 1) + order
  }

  /** np.concatenate([r + 0*order for r in range(R)]): the copy number of every tiled entry. */
  function RepeatTags(k: nat, copies: nat): (r: seq<nat>)
    ensures |r| == copies * k
  {
    if copies == 0 then [] else RepeatTags(k, copies - 1) + seq(k, _ => copies - 1)
  }

  /** Tiled entry x is entry x mod K of the order, in copy x div K. */
  lemma {:induction false} TiledAt(order: seq<nat>, copies: nat, x: nat)
    requires x < copies * |order|
    ensures |order| > 0 && x / |order| < copies
    ensures Tiled(order, copies)[x] == order[x % |order|]
    ensures RepeatTags(|order|, copies)[x] == x / |order|
    decreases copies
  {
    var k := |order|;
    DivBelow(x, copies, k);
    var below := (copies - 1) * k;
    assert copies * k == below + k;
    assert Tiled(order, copies) == Tiled(order, copies - 1) + order;
    assert RepeatTags(k, copies) == RepeatTags(k, copies - 1) + seq(k, _ => copies - 1);
    if x < below {
      TiledAt(order, copies - 1, x);
    } else {
      DivModUnique(x, k, copies - 1, x - below);
    }
  }

  /** max([1, N-repeat]). */
  function Repeats(p: Protocol): (r: nat)
    ensures r >= 1 && (p.nRepeat >= 1 ==> r == p.nRepeat)
  {
    if p.nRepeat > 1 then p.nRepeat else 1
  }

  /** The no-repeat order: the seeded shuffle under Randomized-Sequence, the identity otherwise. */
  function NoRepeatOrder(p: Protocol, k: nat, perm: seq<nat>): seq<nat>
  {
    if p.presentation == RandomizedSequence then perm else Range(k)
  }

  /** The columns of a sequence-mode schedule, one entry per episode. */
  datatype SequenceColumns = SequenceColumns(
    factors: seq<seq<real>>,
    index: seq<nat>,
    repeat: seq<nat>,
    timeStart: seq<real>,
    timeStop: seq<real>,
    interstim: seq<real>,
    interstimScreen: seq<real>,
    timeDuration: seq<real>,
    frameRunType: seq<string>)

  /** Number of episodes left after dropping the first 'starting-index' tiled entries. */
  function EpisodeCount(p: Protocol, ranges: seq<FactorRange>): (e: nat)
    ensures e == if p.startingIndex <= Repeats(p) * NoRepeatCount(ranges)
                 then Repeats(p) * NoRepeatCount(ranges) - p.startingIndex else 0
  {
    var total := Repeats(p) * NoRepeatCount(ranges);
    if p.startingIndex <= total then total - p.startingIndex else 0
  }

  /** The no-repeat order has K entries, each below K. */
  lemma {:induction false} OrderFacts(p: Protocol, k: nat, perm: seq<nat>)
    requires p.presentation == RandomizedSequence ==> IsPermutation(perm, k)
    ensures |NoRepeatOrder(p, k, perm)| == k
    ensures forall m :: 0 <= m < k ==> NoRepeatOrder(p, k, perm)[m] < k
  {
  }

  /**
   * The schedule init_experiment builds outside Single-Stimulus mode, as a
   * value: episode n is tiled entry starting-index + n, that is entry
   * (starting-index + n) mod K of the no-repeat order in copy
   * (starting-index + n) div K; its factor values are read off the
   * mixed-radix digits of its index; the time axis starts at the prestim
   * period whatever the offset.
   */
  function SequenceSpec(p: Protocol, ranges: seq<FactorRange>, runType: string, perm: seq<nat>): SequenceColumns
    requires p.presentation == RandomizedSequence ==> IsPermutation(perm, NoRepeatCount(ranges))
  {
    var k := NoRepeatCount(ranges);
    OrderFacts(p, k, perm);
    var e := EpisodeCount(p, ranges);
    var index := IndexColumn(NoRepeatOrder(p, k, perm), p.startingIndex, e);
    SequenceColumns(
      FactorColumns(ranges, index),
      index,
      RepeatColumn(k, p.startingIndex, e),
      StartColumn(p, e),
      StopColumn(p, e),
      seq(e, _ => p.interstim),
      seq(e, _ => p.interstimScreen),
      seq(e, _ => p.duration),
      seq(e, _ => runType))
  }

  /** Entry n is the copy number (s + n) div K. */
  function RepeatColumn(k: nat, s: nat, e: nat): (r: seq<nat>)
    requires k >= 1
    ensures |r| == e
  {
    seq(e, n requires 0 <= n < e => (s + n) / k)
  }

  /** time_start: prestim + n*duration + n*interstim. */
  function StartColumn(p: Protocol, e: nat): (r: seq<real>)
    ensures |r| == e
  {
    seq(e, n requires 0 <= n < e => EpisodeStart(p, n))
  }

  /** The time_start value of episode n. */
  function EpisodeStart(p: Protocol, n: nat): real
  {
    p.prestim + n as real * p.duration + n as real * p.interstim
  }

  /** The time_stop value of episode n. */
  function EpisodeStop(p: Protocol, n: nat): real
  {
    p.prestim + (n + 1) as real * p.duration + n as real * p.interstim
  }

  /** time_stop: prestim + (n+1)*duration + n*interstim. */
  function StopColumn(p: Protocol, e: nat): (r: seq<real>)
    ensures |r| == e
  {
    seq(e, n requires 0 <= n < e => EpisodeStop(p, n))
  }

  /** Entry n is entry (s + n) mod K of the no-repeat order. */
  function IndexColumn(order: seq<nat>, s: nat, e: nat): (r: seq<nat>)
    requires |order| >= 1 && forall m :: 0 <= m < |order| ==> order[m] < |order|
    ensures |r| == e && forall n :: 0 <= n < e ==> r[n] < |order|
  {
    seq(e, n requires 0 <= n < e => order[(s + n) % |order|])
  }

  /** The value of factor j in combination i: its element at digit j of i. */
  function FactorAt(ranges: seq<FactorRange>, i: nat, j: nat): real
    requires i < NoRepeatCount(ranges) && j < |ranges|
  {
    var sizes := Sizes(Vecs(ranges));
    var d := Digits(i, sizes);
    assert d[j] < |FactorValues(ranges[j])|;
    FactorValues(ranges[j])[d[j]]
  }

  /** Column j gives, for every index, factor j's value in that combination. */
  function FactorColumns(ranges: seq<FactorRange>, index: seq<nat>): (r: seq<seq<real>>)
    requires forall n :: 0 <= n < |index| ==> index[n] < NoRepeatCount(ranges)
    ensures |r| == |ranges| && forall j :: 0 <= j < |ranges| ==> |r[j]| == |index|
  {
    seq(|ranges|, j requires 0 <= j < |ranges| =>
      seq(|index|, n requires 0 <= n < |index| => FactorAt(ranges, index[n], j)))
  }

  /**
   * Every column holds max(0, max(1, N-repeat) * K - starting-index) entries;
   * every index is a no-repeat index and every repeat tag a copy number.
   */
  lemma {:induction false} SequenceShape(p: Protocol, ranges: seq<FactorRange>, runType: string, perm: seq<nat>)
    requires p.presentation == RandomizedSequence ==> IsPermutation(perm, NoRepeatCount(ranges))
    ensures var c := SequenceSpec(p, ranges, runType, perm); var e := EpisodeCount(p, ranges);
      |c.index| == |c.repeat| == |c.timeStart| == |c.timeStop| == e &&
      |c.interstim| == |c.interstimScreen| == |c.timeDuration| == |c.frameRunType| == e &&
      |c.factors| == |ranges| && (forall j :: 0 <= j < |ranges| ==> |c.factors[j]| == e) &&
      (forall n :: 0 <= n < e ==> c.index[n] < NoRepeatCount(ranges) && c.repeat[n] < Repeats(p))
  {
    var c := SequenceSpec(p, ranges, runType, perm);
    var k := NoRepeatCount(ranges);
    OrderFacts(p, k, perm);
    forall n | 0 <= n < EpisodeCount(p, ranges)
      ensures c.repeat[n] < Repeats(p)
    {
      DivBelow(p.startingIndex + n, Repeats(p), k);
    }
  }

  /**
   * From the start, copy r of the schedule lists the no-repeat order once:
   * episode r*K + m shows combination order[m] and is tagged r.
   */
  lemma {:induction false} SequenceCopies(p: Protocol, ranges: seq<FactorRange>, runType: string, perm: seq<nat>, r: nat, m: nat)
    requires p.presentation == RandomizedSequence ==> IsPermutation(perm, NoRepeatCount(ranges))
    requires p.startingIndex == 0 && r < Repeats(p) && m < NoRepeatCount(ranges)
    ensures var c := SequenceSpec(p, ranges, runType, perm); var k := NoRepeatCount(ranges);
      r * k + m < |c.index| &&
      c.index[r * k + m] == NoRepeatOrder(p, k, perm)[m] && c.repeat[r * k + m] == r
  {
    var k := NoRepeatCount(ranges);
    CopyPosition(r, m, k, Repeats(p));
  }

  /** Position m of copy r lies below reps copies of k, and div/mod recover r and m. */
  lemma {:induction false} CopyPosition(r: nat, m: nat, k: nat, reps: nat)
    requires r < reps && m < k
    ensures r * k + m < reps * k && (r * k + m) / k == r && (r * k + m) % k == m
  {
    MulLeq(r + 1, reps, k);
    assert (r + 1) * k == r * k + k;
    DivModUnique(r * k + m, k, r, m);
  }

  lemma {:induction false} DivModUnique(x: nat, k: nat, r: nat, m: nat)
    requires x == r * k + m && m < k
    ensures x / k == r && x % k == m
  {
    var q, t := x / k, x % k;
    assert x == q * k + t;
    assert (q - r) * k == m - t;
    if q > r {
      MulAtLeast(q - r, k);
    } else if q < r {
      MulAtLeast(r - q, k);
    }
  }

  lemma {:induction false} MulAtLeast(a: int, k: int)
    requires a >= 1 && k >= 0
    ensures a * k >= k
  {
  }

  /** time_start entries as an arithmetic progression of step duration + interstim. */
  lemma {:induction false} StartColumnValues(p: Protocol, e: nat)
    ensures forall n :: 0 <= n < e ==> StartColumn(p, e)[n] == p.prestim + n as real * (p.duration + p.interstim)
  {
    forall n | 0 <= n < e
      ensures StartColumn(p, e)[n] == p.prestim + n as real * (p.duration + p.interstim)
    {
      var x := n as real;
      assert x * p.duration + x * p.interstim == x * (p.duration + p.interstim);
    }
  }

  /** Each time_stop is its time_start plus the duration. */
  lemma {:induction false} StopColumnValues(p: Protocol, e: nat)
    ensures forall n :: 0 <= n < e ==> StopColumn(p, e)[n] == StartColumn(p, e)[n] + p.duration
  {
    forall n | 0 <= n < e
      ensures StopColumn(p, e)[n] == StartColumn(p, e)[n] + p.duration
    {
      var x := n as real;
      assert (n + 1) as real * p.duration == x * p.duration + p.duration;
    }
  }

  /** The next episode starts one inter-stimulus period after the previous one stops. */
  lemma {:induction false} ColumnsContiguous(p: Protocol, e: nat)
    ensures forall n :: 0 <= n < e - 1 ==> StartColumn(p, e)[n + 1] == StopColumn(p, e)[n] + p.interstim
  {
    forall n | 0 <= n < e - 1
      ensures StartColumn(p, e)[n + 1] == StopColumn(p, e)[n] + p.interstim
    {
      var x := n as real;
      assert (n + 1) as real * p.interstim == x * p.interstim + p.interstim;
    }
  }

  /**
   * Episode n starts prestim + n*(duration + interstim) after the run starts
   * and lasts the duration; the next one starts one inter-stimulus period
   * after it stops.
   */
  lemma {:induction false} SequenceTimes(p: Protocol, ranges: seq<FactorRange>, runType: string, perm: seq<nat>)
    requires p.presentation == RandomizedSequence ==> IsPermutation(perm, NoRepeatCount(ranges))
    ensures var c := SequenceSpec(p, ranges, runType, perm);
      (forall n :: 0 <= n < |c.index| ==>
        c.timeStart[n] == p.prestim + n as real * (p.duration + p.interstim) &&
        c.timeStop[n] == c.timeStart[n] + p.duration &&
        c.timeDuration[n] == p.duration && c.interstim[n] == p.interstim &&
        c.interstimScreen[n] == p.interstimScreen && c.frameRunType[n] == runType) &&
      (forall n :: 0 <= n < |c.index| - 1 ==> c.timeStart[n + 1] == c.timeStop[n] + c.interstim[n])
  {
    var e := EpisodeCount(p, ranges);
    StartColumnValues(p, e);
    StopColumnValues(p, e);
    ColumnsContiguous(p, e);
  }

  /**
   * Resuming at starting-index s replays the tail of the full schedule:
   * the same combinations, factor values and repeat tags from episode s on,
   * on a time axis that starts again at the prestim period.
   */
  lemma {:induction false} ResumeIsSuffix(p: Protocol, ranges: seq<FactorRange>, runType: string, perm: seq<nat>, s: nat)
    requires p.presentation == RandomizedSequence ==> IsPermutation(perm, NoRepeatCount(ranges))
    requires s <= Repeats(p) * NoRepeatCount(ranges)
    ensures var full := SequenceSpec(p.(startingIndex := 0), ranges, runType, perm);
      var resumed := SequenceSpec(p.(startingIndex := s), ranges, runType, perm);
      resumed.index == full.index[s..] && resumed.repeat == full.repeat[s..] &&
      (forall j :: 0 <= j < |ranges| ==> resumed.factors[j] == full.factors[j][s..]) &&
      resumed.timeStart == full.timeStart[..|resumed.index|]
  {
    var k := NoRepeatCount(ranges);
    var total := Repeats(p) * k;
    var order := NoRepeatOrder(p, k, perm);
    OrderFacts(p, k, perm);
    IndexColumnShift(order, s, total - s);
    RepeatColumnShift(k, s, total - s);
    var index := IndexColumn(order, 0, total);
    FactorColumnsShift(ranges, index, s);
    StartColumnPrefix(p.(startingIndex := s), p.(startingIndex := 0), total - s, total);
  }

  lemma {:induction false} IndexColumnShift(order: seq<nat>, s: nat, e: nat)
    requires |order| >= 1 && forall m :: 0 <= m < |order| ==> order[m] < |order|
    ensures IndexColumn(order, s, e) == IndexColumn(order, 0, s + e)[s..]
  {
    var a, b := IndexColumn(order, s, e), IndexColumn(order, 0, s + e)[s..];
    forall n | 0 <= n < e
      ensures a[n] == b[n]
    {
    }
  }

  lemma {:induction false} RepeatColumnShift(k: nat, s: nat, e: nat)
    requires k >= 1
    ensures RepeatColumn(k, s, e) == RepeatColumn(k, 0, s + e)[s..]
  {
    var a, b := RepeatColumn(k, s, e), RepeatColumn(k, 0, s + e)[s..];
    forall n | 0 <= n < e
      ensures a[n] == b[n]
    {
    }
  }

  lemma {:induction false} FactorColumnsShift(ranges: seq<FactorRange>, index: seq<nat>, s: nat)
    requires forall n :: 0 <= n < |index| ==> index[n] < NoRepeatCount(ranges)
    requires s <= |index|
    ensures forall j :: 0 <= j < |ranges| ==>
      FactorColumns(ranges, index[s..])[j] == FactorColumns(ranges, index)[j][s..]
  {
    forall j | 0 <= j < |ranges|
      ensures FactorColumns(ranges, index[s..])[j] == FactorColumns(ranges, index)[j][s..]
    {
      FactorColumnShift(ranges, index, s, j);
    }
  }

  lemma {:induction false} FactorColumnShift(ranges: seq<FactorRange>, index: seq<nat>, s: nat, j: nat)
    requires forall n :: 0 <= n < |index| ==> index[n] < NoRepeatCount(ranges)
    requires s <= |index| && j < |ranges|
    ensures FactorColumns(ranges, index[s..])[j] == FactorColumns(ranges, index)[j][s..]
  {
    var col, tail := FactorColumns(ranges, index)[j], FactorColumns(ranges, index[s..])[j];
    forall n | 0 <= n < |tail|
      ensures tail[n] == col[s + n]
    {
      assert index[s..][n] == index[s + n];
      SameCombination(ranges, index[s..], index, j, n, s + n);
    }
    assert tail == col[s..];
  }

  /** Two episodes showing the same combination show the same factor values. */
  lemma {:induction false} SameCombination(ranges: seq<FactorRange>, a: seq<nat>, b: seq<nat>, j: nat, n: nat, m: nat)
    requires forall x :: 0 <= x < |a| ==> a[x] < NoRepeatCount(ranges)
    requires forall x :: 0 <= x < |b| ==> b[x] < NoRepeatCount(ranges)
    requires j < |ranges| && n < |a| && m < |b| && a[n] == b[m]
    ensures FactorColumns(ranges, a)[j][n] == FactorColumns(ranges, b)[j][m]
  {
  }

  lemma {:induction false} StartColumnPrefix(p: Protocol, q: Protocol, e: nat, f: nat)
    requires p.prestim == q.prestim && p.duration == q.duration && p.interstim == q.interstim
    requires e <= f
    ensures StartColumn(p, e) == StartColumn(q, f)[..e]
  {
    forall n | 0 <= n < e
      ensures StartColumn(p, e)[n] == StartColumn(q, f)[n]
    {
      assert EpisodeStart(p, n) == EpisodeStart(q, n);
    }
  }

  /** Every product combination has one entry per factor. */
  lemma {:induction false} ProductRows(vecs: seq<seq<real>>)
    ensures |Product(vecs)| == SizeProduct(Sizes(vecs))
    ensures forall m :: 0 <= m < |Product(vecs)| ==> |Product(vecs)[m]| == |vecs|
  {
    ProductLength(vecs);
    forall m | 0 <= m < |Product(vecs)|
      ensures |Product(vecs)[m]| == |vecs|
    {
      ProductAt(vecs, m);
    }
  }

  /** The tiled list and its repeat tags, entry by entry. */
  lemma {:induction false} TiledEntries(order: seq<nat>, copies: nat)
    requires |order| >= 1
    ensures forall x :: 0 <= x < copies * |order| ==>
      Tiled(order, copies)[x] == order[x % |order|] && RepeatTags(|order|, copies)[x] == x / |order|
  {
    forall x | 0 <= x < copies * |order|
      ensures Tiled(order, copies)[x] == order[x % |order|] && RepeatTags(|order|, copies)[x] == x / |order|
    {
      TiledAt(order, copies, x);
    }
  }

  /** [fs[f] + [row[f]] for every column f]. */
  function AppendRow(fs: seq<seq<real>>, row: seq<real>): (r: seq<seq<real>>)
    requires |row| >= |fs|
    ensures |r| == |fs| && forall f :: 0 <= f < |fs| ==> r[f] == fs[f] + [row[f]]
  {
    seq(|fs|, f requires 0 <= f < |fs| => fs[f] + [row[f]])
  }

  /** The per-factor value lists, in the order the factor keys are listed. */
  method ValueLists(ranges: seq<FactorRange>) returns (vecs: seq<seq<real>>)
    ensures vecs == Vecs(ranges)
  {
    vecs := [];
    var j := 0;
    while j < |ranges|
      invariant 0 <= j <= |ranges|
      invariant vecs == Vecs(ranges)[..j]
    {
      vecs := vecs + [FactorValues(ranges[j])];
      j := j + 1;
    }
  }

  /** full stores the combinations of the product of vecs column by column: full[f][m] is factor f of combination m. */
  predicate ProductTable(vecs: seq<seq<real>>, full: seq<seq<real>>)
  {
    |full| == |vecs| &&
    (forall m :: 0 <= m < |Product(vecs)| ==> |Product(vecs)[m]| == |vecs|) &&
    (forall f :: 0 <= f < |vecs| ==> |full[f]| == |Product(vecs)|) &&
    (forall f, m :: 0 <= f < |vecs| && 0 <= m < |Product(vecs)| ==> full[f][m] == Product(vecs)[m][f])
  }

  /** The itertools.product of the value lists, stored column by column (FULL_VECS). */
  method ProductColumns(vecs: seq<seq<real>>) returns (full: seq<seq<real>>)
    ensures ProductTable(vecs, full)
  {
    var prod := Product(vecs);
    ProductRows(vecs);
    full := seq(|vecs|, _ => []);
    var k := 0;
    while k < |prod|
      invariant 0 <= k <= |prod|
      invariant |full| == |vecs|
      invariant forall f :: 0 <= f < |vecs| ==> |full[f]| == k
      invariant forall f, m :: 0 <= f < |vecs| && 0 <= m < k ==> full[f][m] == prod[m][f]
    {
      full := AppendRow(full, prod[k]);
      k := k + 1;
    }
  }

  /**
   * What the episode loop leaves: one entry per tiled index from
   * 'starting-index' on, each factor column reading its FULL_VECS column at
   * that index, and the time axis of StartColumn and StopColumn.
   */
  predicate EpisodeColumns(p: Protocol, full: seq<seq<real>>, tiled: seq<nat>, tags: seq<nat>, runType: string,
                           c: SequenceColumns)
    requires |tags| == |tiled|
    requires forall f, x :: 0 <= f < |full| && 0 <= x < |tiled| ==> tiled[x] < |full[f]|
  {
    var s := p.startingIndex; var e := if s <= |tiled| then |tiled| - s else 0;
    |c.index| == |c.repeat| == e && c.timeStart == StartColumn(p, e) && c.timeStop == StopColumn(p, e) &&
    c.interstim == seq(e, _ => p.interstim) && c.interstimScreen == seq(e, _ => p.interstimScreen) &&
    c.timeDuration == seq(e, _ => p.duration) && c.frameRunType == seq(e, _ => runType) &&
    (forall n :: 0 <= n < e ==> c.index[n] == tiled[s + n] && c.repeat[n] == tags[s + n]) &&
    |c.factors| == |full| &&
    (forall f :: 0 <= f < |full| ==> |c.factors[f]| == e) &&
    (forall f, n :: 0 <= f < |full| && 0 <= n < e ==> c.factors[f][n] == full[f][tiled[s + n]])
  }

  /**
   * The episode loop of init_experiment: one entry per tiled index from
   * 'starting-index' on, every factor column reading its FULL_VECS column at
   * that index.
   */
  method EpisodeLoop(p: Protocol, full: seq<seq<real>>, tiled: seq<nat>, tags: seq<nat>, runType: string)
    returns (c: SequenceColumns)
    requires |tags| == |tiled|
    requires forall f, x :: 0 <= f < |full| && 0 <= x < |tiled| ==> tiled[x] < |full[f]|
    ensures EpisodeColumns(p, full, tiled, tags, runType, c)
  {
    var s := p.startingIndex;
    var e := if s <= |tiled| then |tiled| - s else 0;
    ghost var gStart, gStop := StartColumn(p, e), StopColumn(p, e);
    var factors: seq<seq<real>> := seq(|full|, _ => []);
    var index: seq<nat> := [];
    var repeat: seq<nat> := [];
    var timeStart: seq<real> := [];
    var timeStop: seq<real> := [];
    var interstim: seq<real> := [];
    var interstimScreen: seq<real> := [];
    var timeDuration: seq<real> := [];
    var frameRunType: seq<string> := [];
    var n := 0;
    while n < e
      invariant 0 <= n <= e
      invariant |factors| == |full| && forall f :: 0 <= f < |full| ==> |factors[f]| == n
      invariant forall f, m :: 0 <= f < |full| && 0 <= m < n ==> factors[f][m] == full[f][tiled[s + m]]
      invariant |index| == |repeat| == n
      invariant forall m :: 0 <= m < n ==> index[m] == tiled[s + m] && repeat[m] == tags[s + m]
      invariant |timeStart| == |timeStop| == n
      invariant forall m :: 0 <= m < n ==> timeStart[m] == gStart[m] && timeStop[m] == gStop[m]
      invariant |interstim| == |interstimScreen| == |timeDuration| == |frameRunType| == n
      invariant forall m :: 0 <= m < n ==> interstim[m] == p.interstim && interstimScreen[m] == p.interstimScreen
      invariant forall m :: 0 <= m < n ==> timeDuration[m] == p.duration && frameRunType[m] == runType
    {
      var i := tiled[s + n];
      var row := seq(|full|, f requires 0 <= f < |full| => full[f][i]);
      factors := AppendRow(factors, row);
      index := index + [i];
      repeat := repeat + [tags[s + n]];
      timeStart := timeStart + [EpisodeStart(p, n)];
      timeStop := timeStop + [EpisodeStop(p, n)];
      interstim := interstim + [p.interstim];
      interstimScreen := interstimScreen + [p.interstimScreen];
      timeDuration := timeDuration + [p.duration];
      frameRunType := frameRunType + [runType];
      n := n + 1;
    }
    assert timeStart == gStart && timeStop == gStop;
    assert interstim == seq(e, _ => p.interstim) && interstimScreen == seq(e, _ => p.interstimScreen);
    assert timeDuration == seq(e, _ => p.duration) && frameRunType == seq(e, _ => runType);
    c := SequenceColumns(factors, index, repeat, timeStart, timeStop, interstim,
                         interstimScreen, timeDuration, frameRunType);
  }

  /**
   * init_experiment outside Single-Stimulus mode: builds the value lists, their
   * itertools.product column by column, the (possibly shuffled) no-repeat
   * order tiled over the repeats, then runs the episode loop.
   */
  method BuildSequence(p: Protocol, ranges: seq<FactorRange>, runType: string, perm: seq<nat>)
    returns (c: SequenceColumns)
    requires p.presentation == RandomizedSequence ==> IsPermutation(perm, NoRepeatCount(ranges))
    ensures c == SequenceSpec(p, ranges, runType, perm)
  {
    var vecs := ValueLists(ranges);
    var full := ProductColumns(vecs);
    ProductLength(vecs);
    var count := |Product(vecs)|;
    assert count == NoRepeatCount(ranges);
    // the no-repeat order, tiled over the repeats
    var order := Range(count);
    if p.presentation == RandomizedSequence {
      order := perm;
    }
    assert order == NoRepeatOrder(p, count, perm);
    var copies := if p.nRepeat > 1 then p.nRepeat else 1;
    var tiled := Tiled(order, copies);
    var tags := RepeatTags(count, copies);
    TiledBounded(p, count, perm, copies);
    c := EpisodeLoop(p, full, tiled, tags, runType);
    SequenceAgrees(p, ranges, runType, perm, vecs, full, c);
  }

  /** What the episode loop returns is the schedule SequenceSpec describes. */
  lemma {:induction false} SequenceAgrees(p: Protocol, ranges: seq<FactorRange>, runType: string, perm: seq<nat>,
                       vecs: seq<seq<real>>, full: seq<seq<real>>, c: SequenceColumns)
    requires p.presentation == RandomizedSequence ==> IsPermutation(perm, NoRepeatCount(ranges))
    requires vecs == Vecs(ranges) && ProductTable(vecs, full)
    requires var k := NoRepeatCount(ranges);
      var tiled, tags := Tiled(NoRepeatOrder(p, k, perm), Repeats(p)), RepeatTags(k, Repeats(p));
      |tags| == |tiled| && (forall f, x :: 0 <= f < |full| && 0 <= x < |tiled| ==> tiled[x] < |full[f]|) &&
      EpisodeColumns(p, full, tiled, tags, runType, c)
    ensures c == SequenceSpec(p, ranges, runType, perm)
  {
    var count := NoRepeatCount(ranges);
    var order := NoRepeatOrder(p, count, perm);
    OrderFacts(p, count, perm);
    var copies := Repeats(p);
    var s := p.startingIndex;
    ProductLength(vecs);
    TiledBounded(p, count, perm, copies);
    var spec := SequenceSpec(p, ranges, runType, perm);
    assert c.index == spec.index by {
      IndexAgrees(order, copies, s, c.index);
    }
    assert c.repeat == spec.repeat by {
      RepeatAgrees(count, copies, s, c.repeat);
    }
    assert c.factors == spec.factors by {
      FactorsAgrees(ranges, vecs, full, c.index, c.factors);
    }
    assert c.timeStart == spec.timeStart && c.timeStop == spec.timeStop;
  }

  lemma {:induction false} TiledBounded(p: Protocol, count: nat, perm: seq<nat>, copies: nat)
    requires count >= 1
    requires p.presentation == RandomizedSequence ==> IsPermutation(perm, count)
    ensures var order := NoRepeatOrder(p, count, perm);
      |RepeatTags(count, copies)| == |Tiled(order, copies)| &&
      forall x :: 0 <= x < |Tiled(order, copies)| ==> Tiled(order, copies)[x] < count
  {
    var order := NoRepeatOrder(p, count, perm);
    OrderFacts(p, count, perm);
    TiledEntries(order, copies);
  }

  lemma {:induction false} IndexAgrees(order: seq<nat>, copies: nat, s: nat, index: seq<nat>)
    requires |order| >= 1 && forall m :: 0 <= m < |order| ==> order[m] < |order|
    requires var tiled := Tiled(order, copies);
      |index| == (if s <= |tiled| then |tiled| - s else 0) &&
      forall n :: 0 <= n < |index| ==> index[n] == tiled[s + n]
    ensures index == IndexColumn(order, s, |index|)
  {
    TiledEntries(order, copies);
    var spec := IndexColumn(order, s, |index|);
    forall n | 0 <= n < |index|
      ensures index[n] == spec[n]
    {
    }
  }

  lemma {:induction false} RepeatAgrees(k: nat, copies: nat, s: nat, repeat: seq<nat>)
    requires k >= 1
    requires var tags := RepeatTags(k, copies);
      |repeat| == (if s <= |tags| then |tags| - s else 0) &&
      forall n :: 0 <= n < |repeat| ==> repeat[n] == tags[s + n]
    ensures repeat == RepeatColumn(k, s, |repeat|)
  {
    TiledEntries(Range(k), copies);
    var spec := RepeatColumn(k, s, |repeat|);
    forall n | 0 <= n < |repeat|
      ensures repeat[n] == spec[n]
    {
    }
  }

  lemma {:induction false} FactorsAgrees(ranges: seq<FactorRange>, vecs: seq<seq<real>>, full: seq<seq<real>>,
                      index: seq<nat>, factors: seq<seq<real>>)
    requires vecs == Vecs(ranges) && ProductTable(vecs, full)
    requires forall n :: 0 <= n < |index| ==> index[n] < |Product(vecs)|
    requires |factors| == |full| && forall f :: 0 <= f < |full| ==> |factors[f]| == |index|
    requires forall f, n :: 0 <= f < |full| && 0 <= n < |index| && index[n] < |full[f]| ==>
      factors[f][n] == full[f][index[n]]
    ensures forall n :: 0 <= n < |index| ==> index[n] < NoRepeatCount(ranges)
    ensures factors == FactorColumns(ranges, index)
  {
    ProductLength(vecs);
    var spec := FactorColumns(ranges, index);
    forall f | 0 <= f < |ranges|
      ensures factors[f] == spec[f]
    {
      forall n | 0 <= n < |index|
        ensures factors[f][n] == spec[f][n]
      {
        ProductAt(vecs, index[n]);
      }
    }
  }
}
