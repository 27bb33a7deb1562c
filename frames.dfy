/**
 * The frame tables of the movie-like stimuli: the time-index table and the
 * frame list of gaussian_blobs.get_frames_sequence, the saccade table of
 * natural_image_vse.get_frames_sequence, natural_image_vse.get_seed and
 * natural_image_vse.compute_shifted_image.  Image contents are abstract:
 * a frame is named by what it shows.
 */
module Frames {
  import opened Wrappers
  import opened Values

  // ---------------------------------------------------------------------
  // gaussian_blobs.get_frames_sequence
  // ---------------------------------------------------------------------

  /** The time step window of a blob and the length of its table. */
  datatype BlobWindow = BlobWindow(itstart: nat, itend: int, length: int)

  /**
   * Lines 1071-1075: itstart = max(0, int((t0 - threshold*sT) * freq)),
   * itend = min(int(interval * freq), int((t0 + threshold*sT) * freq)) and
   * the table holds int(1.2 * interval * freq) entries.
   */
  function WindowOf(t0: real, sT: real, threshold: real, freq: real, interval: real): (w: BlobWindow)
    ensures (t0 - threshold * sT) * freq >= 0.0 ==> w.itstart as real <= (t0 - threshold * sT) * freq
    ensures (t0 - threshold * sT) * freq < 1.0 ==> w.itstart == 0
    ensures w.itend <= Trunc(interval * freq) && w.itend <= Trunc((t0 + threshold * sT) * freq)
  {
    var lo := Trunc((t0 - threshold * sT) * freq);
    var hi := Trunc((t0 + threshold * sT) * freq);
    var end := Trunc(interval * freq);
    BlobWindow(if lo > 0 then lo else 0, if end < hi then end else hi, Trunc(1.2 * interval * freq))
  }

  /** With a non-negative interval and rate the loop's last write lies inside the table. */
  lemma {:induction false} WindowFits(t0: real, sT: real, threshold: real, freq: real, interval: real)
    requires interval >= 0.0 && freq >= 0.0
    ensures var w := WindowOf(t0, sT, threshold, freq, interval); 0 <= w.length && w.itend <= w.length
  {
    assert interval * freq <= 1.2 * interval * freq;
    TruncMonotone(interval * freq, 1.2 * interval * freq);
  }

  /** What a frame of the blob movie shows: the background, or the blob at a time step. */
  datatype BlobFrame = Background | Blob(step: int)

  /** The number of time steps the loop of lines 1081-1085 visits. */
  function Steps(itstart: nat, itend: int): nat
  {
    if itend > itstart then itend - itstart else 0
  }

  /** FRAMES: the pre-time background, one blob per step of the window, the post-time background. */
  function BlobFrames(itstart: nat, itend: int): (fs: seq<BlobFrame>)
    ensures |fs| == Steps(itstart, itend) + 2
    ensures fs[0] == Background && fs[|fs| - 1] == Background
    ensures forall j :: 1 <= j <= Steps(itstart, itend) ==> fs[j] == Blob(itstart + j - 1)
  {
    [Background] + seq(Steps(itstart, itend), j requires 0 <= j => Blob(itstart + j)) + [Background]
  }

  /**
   * The table entry at step k once the three writes of lines 1080-1088 are
   * done: the post-time from itend on, the loop's iframe (plus the
   * corrected offset) inside the window, and 0 elsewhere.
   */
  function BlobEntry(n: nat, itstart: nat, itend: int, k: int, asWritten: bool): int
  {
    if k >= SliceStart(itend, n) then Steps(itstart, itend) + 1
    else if itstart <= k < itend then k - itstart + (if asWritten then 0 else 1)
    else 0
  }

  /** An entry while the post-time write of line 1088 has reached cell `upto`. */
  function Filled(itstart: nat, itend: int, from: int, upto: int, last: int, j: int, asWritten: bool): int
  {
    if from <= j < upto then last
    else if itstart <= j < itend then j - itstart + (if asWritten then 0 else 1)
    else 0
  }

  /**
   * get_frames_sequence's table (lines 1077-1088) in an array of n zeros:
   * zero the pre-time, write one entry per step of the window, then point
   * the post-time at the last frame.  A negative size is the ValueError of
   * np.zeros, a window reaching past the table numpy's IndexError.  The
   * corrected table points each step at FRAMES[iframe + 1], the image built
   * for it.
   */
  method BlobTable(size: int, itstart: nat, itend: int, asWritten: bool) returns (r: Result<seq<int>>)
    ensures r.Failure? <==> size < 0 || (itstart < itend && size < itend)
    ensures size < 0 ==> r == Failure(NegativeLength)
    ensures size >= 0 && r.Failure? ==> r.error == IndexOutOfRange
    ensures r.Success? ==> (size >= 0 && |r.value| == size &&
      forall k :: 0 <= k < size ==> r.value[k] == BlobEntry(size as nat, itstart, itend, k, asWritten))
  {
    if size < 0 {
      return Failure(NegativeLength);
    }
    var n: nat := size;
    if itstart < itend && n < itend {
      return Failure(IndexOutOfRange);
    }
    var times := new int[n](_ => 0);
    var pre := if itstart <= n then itstart else n;
    var k := 0;
    while k < pre
      invariant 0 <= k <= pre
      invariant forall j :: 0 <= j < n ==> times[j] == 0
    {
      times[k] := 0;
      k := k + 1;
    }
    var it := itstart;
    while it < itend
      invariant itstart <= it <= if itstart < itend then itend else itstart
      invariant forall j :: 0 <= j < n ==> times[j] == if itstart <= j < it then j - itstart + (if asWritten then 0 else 1) else 0
      decreases itend - it
    {
      times[it] := it - itstart + (if asWritten then 0 else 1);
      it := it + 1;
    }
    var last := Steps(itstart, itend) + 1;
    k := SliceStart(itend, n);

    while k < n
      invariant SliceStart(itend, n) <= k <= n
      invariant forall j :: 0 <= j < n ==> times[j] == Filled(itstart, itend, SliceStart(itend, n), k, last, j, asWritten)
    {
      times[k] := last;
      k := k + 1;
    }
    return Success(times[..]);
  }

  /** Every entry of either table names a frame of FRAMES. */
  lemma {:induction false} BlobEntryInRange(n: nat, itstart: nat, itend: int, k: int, asWritten: bool)
    requires 0 <= k < n && itend <= n
    ensures 0 <= BlobEntry(n, itstart, itend, k, asWritten) < |BlobFrames(itstart, itend)|
  {
  }

  /**
   * The corrected table shows the blob of step k at every step of the
   * window and the background before and after it.
   */
  lemma {:induction false} CorrectedBlobShown(n: nat, itstart: nat, itend: int, k: int)
    requires 0 <= k < n && itend <= n
    ensures BlobFrames(itstart, itend)[BlobEntry(n, itstart, itend, k, false)] ==
      if itstart <= k < itend then Blob(k) else Background
  {
    var fs := BlobFrames(itstart, itend);
    if itstart <= k < itend {
      assert SliceStart(itend, n) == itend;
      assert fs[k - itstart + 1] == Blob(k);
    }
  }

  /**
   * As written, the table lags the frames by one: the first step of the
   * window shows the background and every later step the blob of the step
   * before.
   */
  lemma {:induction false} AsWrittenBlobShown(n: nat, itstart: nat, itend: int, k: int)
    requires 0 <= k < n && itend <= n && itstart <= k < itend
    ensures BlobFrames(itstart, itend)[BlobEntry(n, itstart, itend, k, true)] ==
      if k == itstart then Background else Blob(k - 1)
  {
    assert SliceStart(itend, n) == itend;
  }

  /** As written, the blob of the window's last step is never shown. */
  lemma {:induction false} LastBlobNeverShown(n: nat, itstart: nat, itend: int, k: int)
    requires 0 <= k < n && itend <= n && itstart < itend
    ensures BlobFrames(itstart, itend)[BlobEntry(n, itstart, itend, k, true)] != Blob(itend - 1)
  {
    var fs := BlobFrames(itstart, itend);
    assert SliceStart(itend, n) == itend;
    if itstart <= k < itend {
      AsWrittenBlobShown(n, itstart, itend, k);
    }
  }

  // ---------------------------------------------------------------------
  // natural_image_vse
  // ---------------------------------------------------------------------

  /**
   * The index of the last saccade whose time is at or before x, or 0 when
   * none is: what the masked writes of lines 1225-1227 leave in a cell.
   */
  function LastAtOrBefore(ts: seq<real>, x: real): (r: nat)
    ensures r == 0 || r < |ts|
    ensures r < |ts| && r > 0 ==> ts[r] <= x
    ensures forall j :: r < j < |ts| ==> ts[j] > x
    ensures (r == 0 && (|ts| == 0 || ts[0] > x)) ==> forall j :: 0 <= j < |ts| ==> ts[j] > x
  {
    if ts == [] then 0
    else if ts[|ts| - 1] <= x then |ts| - 1
    else LastAtOrBefore(ts[..|ts| - 1], x)
  }

  /** The clock time of cell k of the table, Times[k] = k / movie_refresh_freq. */
  function CellTime(k: nat, freq: real): real
    requires freq != 0.0
  {
    (k as real) / freq
  }

  /** Times (line 1222): the clock time of every cell of the table. */
  function CellTimes(n: nat, freq: real): (r: seq<real>)
    requires n > 0 ==> freq != 0.0
    ensures |r| == n && forall k :: 0 <= k < n ==> r[k] == CellTime(k, freq)
  {
    seq(n, k requires 0 <= k < n => CellTime(k, freq))
  }

  /**
   * get_frames_sequence of natural_image_vse (lines 1220-1227): n zeros,
   * then for each saccade i in order, every cell whose time is at or after
   * t_i takes i; a negative size is the ValueError of np.zeros.  The code
   * does not guard freq: it is movie_refresh_freq, which the protocol sets
   * to 30 when absent (lines 1047-1048), and a zero rate makes the size at
   * line 1222 zero, so no cell time is ever divided out.
   */
  method VseTable(size: int, freq: real, ts: seq<real>) returns (r: Result<seq<int>>)
    requires size > 0 ==> freq != 0.0
    ensures r.Failure? <==> size < 0
    ensures r.Failure? ==> r.error == NegativeLength
    ensures r.Success? ==> (|r.value| == size &&
      forall k :: 0 <= k < size ==> r.value[k] == LastAtOrBefore(ts, CellTime(k, freq)))
  {
    if size < 0 {
      return Failure(NegativeLength);
    }
    var table := MarkSaccades(CellTimes(size, freq), ts);
    return Success(table);
  }

  /** The masked writes times[Times >= t] = i of lines 1224-1227, over the cell times given. */
  method MarkSaccades(cells: seq<real>, ts: seq<real>) returns (table: seq<int>)
    ensures |table| == |cells|
    ensures forall k :: 0 <= k < |cells| ==> table[k] == LastAtOrBefore(ts, cells[k])
  {
    var times := new int[|cells|](_ => 0);
    var i := 0;
    while i < |ts|
      invariant 0 <= i <= |ts|
      invariant forall k :: 0 <= k < |cells| ==> times[k] == LastBelow(ts, i, cells[k])
    {
      var k := 0;
      while k < |cells|
        invariant 0 <= k <= |cells|
        invariant forall j :: 0 <= j < |cells| ==> times[j] == LastBelow(ts, if j < k then i + 1 else i, cells[j])
      {
        if cells[k] >= ts[i] {
          times[k] := i;
        }
        k := k + 1;
      }
      i := i + 1;
    }
    table := times[..];
    forall k | 0 <= k < |cells| ensures table[k] == LastAtOrBefore(ts, cells[k]) {
      LastBelowAll(ts, cells[k]);
    }
  }

  /** The last of the first m saccades at or before x, or 0: the cell after m turns of the loop. */
  function LastBelow(ts: seq<real>, m: nat, x: real): nat
    requires m <= |ts|
  {
    if m == 0 then 0 else if ts[m - 1] <= x then m - 1 else LastBelow(ts, m - 1, x)
  }

  /** After every saccade the cell holds the last saccade at or before its time. */
  lemma {:induction false} LastBelowAll(ts: seq<real>, x: real)
    ensures LastBelow(ts, |ts|, x) == LastAtOrBefore(ts, x)
  {
    LastBelowPrefix(ts, |ts|, x);
    assert ts[..|ts|] == ts;
  }

  lemma {:induction false} LastBelowPrefix(ts: seq<real>, m: nat, x: real)
    requires m <= |ts|
    ensures LastBelow(ts, m, x) == LastAtOrBefore(ts[..m], x)
  {
    if m > 0 {
      LastBelowPrefix(ts, m - 1, x);
      assert ts[..m][..m - 1] == ts[..m - 1];
    }
  }

  /** The saccade times a generator produces start at 0 and never decrease. */
  ghost predicate Nondecreasing(ts: seq<real>)
  {
    forall i, j :: 0 <= i <= j < |ts| ==> ts[i] <= ts[j]
  }

  /** With nondecreasing saccade times, a later cell never shows an earlier saccade. */
  lemma {:induction false} VseMonotone(ts: seq<real>, x: real, y: real)
    requires Nondecreasing(ts) && x <= y
    ensures LastAtOrBefore(ts, x) <= LastAtOrBefore(ts, y)
  {
  }

  /** With nondecreasing times, the cell shows saccade i exactly over [t_i, t_(i+1)) for distinct times. */
  lemma {:induction false} VseWindow(ts: seq<real>, x: real, i: nat)
    requires Nondecreasing(ts) && 0 < i < |ts|
    requires ts[i] <= x && (i + 1 < |ts| ==> x < ts[i + 1])
    ensures LastAtOrBefore(ts, x) == i
  {
  }

  /**
   * get_seed (lines 1201-1206): with vary-VSE-with-Image set the seed is
   * int(VSE-seed + 1000 * Image-ID), otherwise int(VSE-seed).
   */
  function GetSeed(vary: real, seed: real, imageId: real): (s: int)
    ensures vary != 1.0 ==> s == Trunc(seed)
    ensures vary == 1.0 && seed >= 0.0 && imageId >= 0.0 ==> s as real <= seed + 1000.0 * imageId < s as real + 1.0
  {
    if vary == 1.0 then Trunc(seed + 1000.0 * imageId) else Trunc(seed)
  }

  /**
   * With integral seeds below 1000 and integral non-negative image ids,
   * varying the scene with the image gives every (seed, image) pair its own
   * seed.
   */
  lemma {:induction false} SeedsDistinct(seed1: nat, id1: nat, seed2: nat, id2: nat)
    requires seed1 < 1000 && seed2 < 1000
    requires GetSeed(1.0, seed1 as real, id1 as real) == GetSeed(1.0, seed2 as real, id2 as real)
    ensures seed1 == seed2 && id1 == id2
  {
    assert (seed1 + 1000 * id1) as real == seed1 as real + 1000.0 * id1 as real;
    assert (seed2 + 1000 * id2) as real == seed2 as real + 1000.0 * id2 as real;
    var a := seed1 + 1000 * id1;
    var b := seed2 + 1000 * id2;
    assert a == b;
  }
}
