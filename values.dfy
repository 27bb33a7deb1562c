/**
 * The values stored in a protocol and in an experiment schedule, and the
 * Python/numpy arithmetic the code relies on (int() truncation, floor modulo).
 */
module Values {
  import opened Wrappers

  /** A cell of a schedule column or of a protocol entry. */
  datatype Value = Int(i: int) | Num(x: real) | Text(s: string) | Bool(b: bool) | Null

  /** An experiment schedule: each named column is a list of cells, one per episode. */
  type Experiment = map<string, seq<Value>>

  /** The number a cell holds, if it holds one (Python's bool is a number too). */
  function AsReal(v: Value): (r: Option<real>)
    ensures v.Num? ==> r == Some(v.x)
    ensures v.Int? ==> r == Some(v.i as real)
    ensures (v.Text? || v.Null?) ==> r == None
  {
    match v
    case Int(i) => Some(i as real)
    case Num(x) => Some(x)
    case Bool(b) => Some(if b then 1.0 else 0.0)
    case Text(_) => None
    case Null => None
  }

  /** Python's int() applied to a float: truncation toward zero. */
  function Trunc(x: real): (r: int)
    ensures x >= 0.0 ==> r as real <= x < r as real + 1.0
    ensures x < 0.0 ==> r as real - 1.0 < x <= r as real
  {
    if x >= 0.0 then x.Floor else -((-x).Floor)
  }

  lemma {:induction false} TruncMonotone(x: real, y: real)
    requires x <= y
    ensures Trunc(x) <= Trunc(y)
  {
  }

  /** Python's float modulus with a positive divisor: x - d*floor(x/d). */
  function FloatMod(x: real, d: real): (r: real)
    requires d > 0.0
    ensures 0.0 <= r < d
  {
    FloorBounds(x, d);
    x - ((x / d).Floor as real) * d
  }

  /** d * floor(x / d) is the multiple of d at or below x, by less than d. */
  lemma {:induction false} FloorBounds(x: real, d: real)
    requires d > 0.0
    ensures ((x / d).Floor as real) * d <= x < ((x / d).Floor as real) * d + d
  {
    var y := x / d;
    var q := y.Floor as real;
    assert q <= y < q + 1.0;
    assert y * d == x;
    ScaleWeak(q, y, d);
    ScaleStrict(y, q + 1.0, d);
    assert x < (q + 1.0) * d;
    assert (q + 1.0) * d == q * d + d;
    assert x < q * d + d;
  }

  lemma {:induction false} ScaleStrict(a: real, b: real, d: real)
    requires a < b && d > 0.0
    ensures a * d < b * d
  {
    assert (b - a) * d > 0.0;
  }

  lemma {:induction false} ScaleWeak(a: real, b: real, d: real)
    requires a <= b && d > 0.0
    ensures a * d <= b * d
  {
    assert (b - a) * d >= 0.0;
  }

  /** Where Python's s[start:] begins for a list of length n. */
  function SliceStart(start: int, n: nat): (r: nat)
    ensures r <= n
    ensures start >= 0 ==> r == if start <= n then start else n
    ensures start < 0 ==> r == if n + start >= 0 then n + start else 0
  {
    if start >= 0 then (if start <= n then start else n)
    else if n + start >= 0 then n + start else 0
  }

  /** The position Python's l[i] reads in a list of length n, negative i counting from the end. */
  function PyIndex(i: int, n: nat): (r: Option<nat>)
    ensures r.Some? <==> 0 <= n + i && i < n
    ensures r.Some? ==> r.value < n && (i >= 0 ==> r.value == i) && (i < 0 ==> r.value == n + i)
  {
    if 0 <= i < n then Some(i) else if 0 <= n + i && i < 0 then Some(n + i) else None
  }

  function Nums(s: seq<real>): (r: seq<Value>)
    ensures |r| == |s| && forall n :: 0 <= n < |s| ==> r[n] == Num(s[n])
  {
    seq(|s|, n requires 0 <= n < |s| => Num(s[n]))
  }

  function Ints(s: seq<int>): (r: seq<Value>)
    ensures |r| == |s| && forall n :: 0 <= n < |s| ==> r[n] == Int(s[n])
  {
    seq(|s|, n requires 0 <= n < |s| => Int(s[n]))
  }

  function Texts(s: seq<string>): (r: seq<Value>)
    ensures |r| == |s| && forall n :: 0 <= n < |s| ==> r[n] == Text(s[n])
  {
    seq(|s|, n requires 0 <= n < |s| => Text(s[n]))
  }

  /** numpy's np.arange(n) for n >= 0. */
  function Range(n: nat): (r: seq<nat>)
    ensures |r| == n && forall k :: 0 <= k < n ==> r[k] == k
  {
    seq(n, k requires 0 <= k < n => k)
  }

  /** p lists each of 0..n-1 exactly once: what np.random.shuffle makes of np.arange(n). */
  ghost predicate IsPermutation(p: seq<nat>, n: nat)
  {
    |p| == n &&
    (forall k :: 0 <= k < n ==> p[k] < n) &&
    (forall j, k :: 0 <= j < k < n ==> p[j] != p[k])
  }

  /** The sum of a list of reals, np.sum. */
  function Sum(s: seq<real>): real
  {
    if s == [] then 0.0 else Sum(s[..|s| - 1]) + s[|s| - 1]
  }
}
