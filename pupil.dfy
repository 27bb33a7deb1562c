/**
 * The pupil-tracking loop: which frames are fitted, how the fits are
 * gathered into the pupil record, and the thresholding and binarisation of
 * each frame before it is fitted.  The fitter (differential_evolution over
 * the ellipse or circle residual) is an oracle: a function from a frame
 * number to the coordinates and residual it returns.
 */
module Pupil {
  import opened Wrappers

  /** np.pi as a double. */
  const Pi: real := 3.141592653589793

  // ---------------------------------------------------------------------
  // the visited frames
  // ---------------------------------------------------------------------

  /** range(a, n)[::s] for a positive step: a, a + s, a + 2s, ... below n. */
  function Up(a: int, n: int, s: int): (r: seq<int>)
    requires s > 0
    decreases n - a
  {
    if a >= n then [] else [a] + Up(a + s, n, s)
  }

  /** range(a + 1)[::s] for a negative step: a, a + s, ... down to 0. */
  function Down(a: int, s: int): (r: seq<int>)
    requires s < 0
    decreases a + 1
  {
    if a < 0 then [] else [a] + Down(a + s, s)
  }

  /** range(n)[::s]; a zero step raises ValueError. */
  function Stepped(n: nat, s: int): Result<seq<int>>
  {
    if s == 0 then Failure(ZeroStep)
    else if s > 0 then Success(Up(0, n, s))
    else Success(Down(n - 1, s))
  }

  /**
   * The frames perform_loop visits (line 140):
   * list(range(nframes - 1)[::subsampling]) + [nframes - 1].
   */
  function VisitedFrames(nframes: nat, subsampling: int): (r: Result<seq<int>>)
    ensures r.Failure? <==> subsampling == 0
    ensures r.Success? ==> r.value != [] && r.value[|r.value| - 1] == nframes - 1
  {
    match Stepped(if nframes >= 1 then nframes - 1 else 0, subsampling)
    case Failure(e) => Failure(e)
    case Success(frames) => Success(frames + [nframes - 1])
  }

  /** The positive-step range starts at a, climbs by s, stays below n and ends within s of n. */
  lemma {:induction false} UpShape(a: int, n: int, s: int)
    requires s > 0
    ensures var r := Up(a, n, s);
      (r != [] <==> a < n) &&
      (r != [] ==> r[0] == a && r[|r| - 1] < n && r[|r| - 1] + s >= n) &&
      (forall i :: 0 <= i < |r| ==> a <= r[i] < n) &&
      (forall i :: 0 <= i < |r| - 1 ==> r[i + 1] == r[i] + s)
    decreases n - a
  {
    if a < n {
      UpShape(a + s, n, s);
      var r := Up(a, n, s);
      var rest := Up(a + s, n, s);
      assert r == [a] + rest;
      forall i | 0 <= i < |r| - 1 ensures r[i + 1] == r[i] + s {
        if i > 0 {
          assert r[i + 1] == rest[i] && r[i] == rest[i - 1];
        }
      }
    }
  }

  /**
   * With at least one frame and a positive subsampling, the visited frames
   * start at 0, rise strictly by the subsampling step except for the last
   * step, which is at most that large, stay in [0, nframes) and end at the
   * last frame.
   */
  lemma {:induction false} VisitedShape(nframes: nat, s: int)
    requires nframes >= 1 && s >= 1
    ensures var v := VisitedFrames(nframes, s).value;
      v[0] == 0 && v[|v| - 1] == nframes - 1 &&
      (forall i :: 0 <= i < |v| ==> 0 <= v[i] < nframes) &&
      (forall i :: 0 <= i < |v| - 2 ==> v[i + 1] == v[i] + s) &&
      (forall i :: 0 <= i < |v| - 1 ==> v[i] < v[i + 1] <= v[i] + s)
  {
    UpShape(0, nframes - 1, s);
    var u := Up(0, nframes - 1, s);
    var v := u + [nframes - 1];
    assert VisitedFrames(nframes, s).value == v;
    forall i | 0 <= i < |v| - 1 ensures v[i] < v[i + 1] <= v[i] + s {
      if i < |u| - 1 {
        assert v[i] == u[i] && v[i + 1] == u[i + 1];
      }
    }
  }

  /** The visited frames are strictly increasing. */
  lemma {:induction false} VisitedIncreasing(nframes: nat, s: int, i: nat, j: nat)
    requires nframes >= 1 && s >= 1
    requires i < j < |VisitedFrames(nframes, s).value|
    ensures VisitedFrames(nframes, s).value[i] < VisitedFrames(nframes, s).value[j]
    decreases j - i
  {
    VisitedShape(nframes, s);
    if i + 1 < j {
      VisitedIncreasing(nframes, s, i + 1, j);
    }
  }

  /** With no frame at all, range(-1) is empty and the loop visits frame -1 only. */
  lemma {:induction false} NoFrames(s: int)
    requires s != 0
    ensures VisitedFrames(0, s) == Success([-1])
  {
    if s > 0 {
      assert Up(0, 0, s) == [];
    } else {
      assert Down(-1, s) == [];
    }
    assert [] + [-1] == [-1];
  }

  // ---------------------------------------------------------------------
  // the pupil record
  // ---------------------------------------------------------------------

  /** What the fitter returns for a frame. */
  datatype Fit = Fit(coords: seq<real>, residual: real)

  /** The temp dictionary perform_loop returns, one list per key. */
  datatype PupilRecord = PupilRecord(
    frame: seq<int>, cx: seq<real>, cy: seq<real>, sx: seq<real>, sy: seq<real>,
    diameter: seq<real>, residual: seq<real>, blinking: seq<nat>)

  /** The diameter column, np.pi * sx * sy (the area of the fitted ellipse). */
  function Area(sx: real, sy: real): real
  {
    Pi * sx * sy
  }

  const EmptyRecord := PupilRecord([], [], [], [], [], [], [], [])

  /** Line 151: a circle fit is widened by repeating its last coordinate; coords[-1] raises on an empty fit. */
  function Widened(coords: seq<real>, shape: string): (r: Result<seq<real>>)
    ensures r.Failure? <==> shape == "circle" && coords == []
    ensures r.Success? ==> |r.value| == if shape == "circle" then |coords| + 1 else |coords|
    ensures r.Success? ==> forall i :: 0 <= i < |coords| ==> r.value[i] == coords[i]
    ensures r.Success? && shape == "circle" ==> r.value[|coords|] == coords[|coords| - 1]
  {
    if shape == "circle" then
      if coords == [] then Failure(IndexOutOfRange) else Success(coords + [coords[|coords| - 1]])
    else Success(coords)
  }

  /**
   * One pass of the loop (lines 150-156): the frame, the residual, cx, cy,
   * sx, sy from the first four coordinates and the area pi * sx * sy;
   * coords[2] and coords[3] raise on a fit with fewer than four.
   */
  function AddFit(rec: PupilRecord, frame: int, fit: Fit, shape: string): (r: Result<PupilRecord>)
  {
    match Widened(fit.coords, shape)
    case Failure(e) => Failure(e)
    case Success(c) =>
      if |c| < 4 then Failure(IndexOutOfRange)
      else Success(rec.(frame := rec.frame + [frame], residual := rec.residual + [fit.residual],
        cx := rec.cx + [c[0]], cy := rec.cy + [c[1]], sx := rec.sx + [c[2]], sy := rec.sy + [c[3]],
        diameter := rec.diameter + [Area(c[2], c[3])]))
  }

  /** The record after fitting the given frames in order. */
  function RecordOf(frames: seq<int>, shape: string, fitAt: int -> Fit): Result<PupilRecord>
  {
    if frames == [] then Success(EmptyRecord)
    else
      match RecordOf(frames[..|frames| - 1], shape, fitAt)
      case Failure(e) => Failure(e)
      case Success(rec) => AddFit(rec, frames[|frames| - 1], fitAt(frames[|frames| - 1]), shape)
  }

  /** A frame whose fit the loop can read: at least four coordinates once widened. */
  predicate Usable(fit: Fit, shape: string)
  {
    Widened(fit.coords, shape).Success? && |Widened(fit.coords, shape).value| >= 4
  }

  /** The record is built exactly when every visited frame's fit is usable. */
  lemma {:induction false} RecordSucceeds(frames: seq<int>, shape: string, fitAt: int -> Fit)
    ensures RecordOf(frames, shape, fitAt).Success? <==> forall i :: 0 <= i < |frames| ==> Usable(fitAt(frames[i]), shape)
  {
    if frames != [] {
      var init := frames[..|frames| - 1];
      RecordSucceeds(init, shape, fitAt);
      assert forall i :: 0 <= i < |init| ==> init[i] == frames[i];
    }
  }

  /** Entry i of every list of a record, read from the fit of frame i. */
  ghost predicate Holds(rec: PupilRecord, frames: seq<int>, shape: string, fitAt: int -> Fit)
  {
    rec.frame == frames && rec.blinking == [] &&
    |rec.cx| == |frames| && |rec.cy| == |frames| && |rec.sx| == |frames| && |rec.sy| == |frames| &&
    |rec.diameter| == |frames| && |rec.residual| == |frames| &&
    forall i :: 0 <= i < |frames| ==> Usable(fitAt(frames[i]), shape) && Entry(rec, i, fitAt(frames[i]), shape)
  }

  ghost predicate Entry(rec: PupilRecord, i: nat, fit: Fit, shape: string)
    requires Usable(fit, shape) && i < |rec.cx| && i < |rec.cy| && i < |rec.sx| && i < |rec.sy|
    requires i < |rec.diameter| && i < |rec.residual|
  {
    var c := Widened(fit.coords, shape).value;
    rec.cx[i] == c[0] && rec.cy[i] == c[1] && rec.sx[i] == c[2] && rec.sy[i] == c[3] &&
    rec.diameter[i] == Area(c[2], c[3]) && rec.residual[i] == fit.residual
  }

  /** Adding a usable fit keeps every earlier entry and adds the new frame's. */
  lemma {:induction false} AddFitHolds(rec: PupilRecord, frames: seq<int>, frame: int, shape: string, fitAt: int -> Fit)
    requires Holds(rec, frames, shape, fitAt) && Usable(fitAt(frame), shape)
    ensures AddFit(rec, frame, fitAt(frame), shape).Success?
    ensures Holds(AddFit(rec, frame, fitAt(frame), shape).value, frames + [frame], shape, fitAt)
  {
    var next := AddFit(rec, frame, fitAt(frame), shape).value;
    var fs := frames + [frame];
    forall i | 0 <= i < |fs| ensures Usable(fitAt(fs[i]), shape) && Entry(next, i, fitAt(fs[i]), shape) {
      if i < |frames| {
        assert fs[i] == frames[i];
        assert Entry(rec, i, fitAt(frames[i]), shape);
      }
    }
  }

  /**
   * The record holds one entry per fitted frame in every list, frame lists
   * the frames in order, and entry i is read from frame i's fit: cx, cy, sx,
   * sy its first four coordinates once widened, diameter pi * sx * sy.
   */
  lemma {:induction false} RecordColumns(frames: seq<int>, shape: string, fitAt: int -> Fit)
    requires RecordOf(frames, shape, fitAt).Success?
    ensures Holds(RecordOf(frames, shape, fitAt).value, frames, shape, fitAt)
  {
    if frames != [] {
      var init := frames[..|frames| - 1];
      var last := frames[|frames| - 1];
      assert init + [last] == frames;
      var prev := RecordOf(init, shape, fitAt);
      assert prev.Success?;
      RecordColumns(init, shape, fitAt);
      assert Usable(fitAt(last), shape) by {
        RecordSucceeds(frames, shape, fitAt);
      }
      AddFitHolds(prev.value, init, last, shape, fitAt);
      assert RecordOf(frames, shape, fitAt) == AddFit(prev.value, last, fitAt(last), shape);
    }
  }

  /** Line 151 makes a three-coordinate circle fit round: its sy is its sx. */
  lemma {:induction false} CircleIsRound(frames: seq<int>, fitAt: int -> Fit, i: nat)
    requires RecordOf(frames, "circle", fitAt).Success? && i < |frames|
    requires |fitAt(frames[i]).coords| == 3
    ensures var rec := RecordOf(frames, "circle", fitAt).value;
      i < |rec.sx| && i < |rec.sy| && rec.sy[i] == rec.sx[i]
  {
    RecordColumns(frames, "circle", fitAt);
    var rec := RecordOf(frames, "circle", fitAt).value;
    assert Entry(rec, i, fitAt(frames[i]), "circle");
  }

  /** Lines 165-167: the lists become arrays and blinking is all zeros, one per cx entry. */
  function WithBlinking(rec: PupilRecord): (r: PupilRecord)
    ensures r.(blinking := rec.blinking) == rec
    ensures |r.blinking| == |rec.cx| && forall i :: 0 <= i < |r.blinking| ==> r.blinking[i] == 0
  {
    rec.(blinking := seq(|rec.cx|, i => 0))
  }

  lemma {:induction false} PrefixFailurePersists(frames: seq<int>, j: nat, shape: string, fitAt: int -> Fit)
    requires j <= |frames| && RecordOf(frames[..j], shape, fitAt).Failure?
    ensures RecordOf(frames, shape, fitAt).Failure?
    decreases |frames| - j
  {
    if j < |frames| {
      assert frames[..j + 1][..j] == frames[..j];
      PrefixFailurePersists(frames, j + 1, shape, fitAt);
    } else {
      assert frames[..j] == frames;
    }
  }

  /** One more visited frame adds its fit to the record of the frames before it. */
  lemma {:induction false} PrefixStep(frames: seq<int>, j: nat, rec: PupilRecord, shape: string, fitAt: int -> Fit)
    requires j < |frames|
    ensures RecordOf(frames[..j], shape, fitAt) == Success(rec) ==>
      RecordOf(frames[..j + 1], shape, fitAt) == AddFit(rec, frames[j], fitAt(frames[j]), shape)
  {
    assert frames[..j + 1][..j] == frames[..j];
  }

  /** The object perform_loop works on: its frame count and the current frame it steps through. */
  class PupilTracker {
    const nframes: nat
    var cframe: int

    constructor(nframes: nat)
      ensures this.nframes == nframes && cframe == 0
    {
      this.nframes := nframes;
      cframe := 0;
    }

    /**
     * perform_loop (lines 126-168): parent.cframe steps through the visited
     * frames; each one's fit is added to the record, and the record gets its
     * blinking column.  After a complete loop cframe is the last frame.
     */
    method PerformLoop(subsampling: int, shape: string, fitAt: int -> Fit) returns (r: Result<PupilRecord>)
      modifies this
      ensures r.Failure? <==> (subsampling == 0 ||
        RecordOf(VisitedFrames(nframes, subsampling).value, shape, fitAt).Failure?)
      ensures subsampling == 0 ==> r == Failure(ZeroStep) && cframe == old(cframe)
      ensures r.Success? ==>
        r.value == WithBlinking(RecordOf(VisitedFrames(nframes, subsampling).value, shape, fitAt).value) &&
        cframe == nframes - 1
    {
      var visited := VisitedFrames(nframes, subsampling);
      if visited.Failure? {
        return Failure(visited.error);
      }
      var frames := visited.value;
      var rec := EmptyRecord;
      var j := 0;
      while j < |frames|
        invariant 0 <= j <= |frames|
        invariant RecordOf(frames[..j], shape, fitAt) == Success(rec)
        invariant j > 0 ==> cframe == frames[j - 1]
      {
        cframe := frames[j];
        PrefixStep(frames, j, rec, shape, fitAt);
        ghost var next := AddFit(rec, cframe, fitAt(cframe), shape);
        var coords := fitAt(cframe).coords;
        if shape == "circle" {
          if coords == [] {
            PrefixFailurePersists(frames, j + 1, shape, fitAt);
            return Failure(IndexOutOfRange);
          }
          coords := coords + [coords[|coords| - 1]];
        }
        assert Widened(fitAt(cframe).coords, shape) == Success(coords);
        if |coords| < 4 {
          PrefixFailurePersists(frames, j + 1, shape, fitAt);
          return Failure(IndexOutOfRange);
        }
        rec := rec.(frame := rec.frame + [cframe], residual := rec.residual + [fitAt(cframe).residual],
          cx := rec.cx + [coords[0]], cy := rec.cy + [coords[1]], sx := rec.sx + [coords[2]], sy := rec.sy + [coords[3]],
          diameter := rec.diameter + [Area(coords[2], coords[3])]);
        assert next == Success(rec);
        j := j + 1;
      }
      assert frames[..|frames|] == frames;
      return Success(WithBlinking(rec));
    }
  }

  // ---------------------------------------------------------------------
  // thresholding and binarisation
  // ---------------------------------------------------------------------

  /** A pixel after preprocess's thresholding (lines 269-271). */
  function Thresholded(v: real, inside: bool, saturation: real): (r: real)
    ensures r <= saturation
    ensures inside && v < saturation ==> r == v
  {
    var masked := if inside then v else saturation;
    if masked >= saturation then saturation else masked
  }

  /** A pixel of perform_fit's img_fit (lines 72-74). */
  function Binary(v: real, saturation: real): (r: real)
    ensures r == 1.0 <==> v < saturation
    ensures r == 0.0 <==> v >= saturation
  {
    if v < saturation then 1.0 else 0.0
  }

  /** Thresholding twice changes nothing more. */
  lemma {:induction false} ThresholdIdempotent(v: real, inside: bool, saturation: real)
    ensures Thresholded(Thresholded(v, inside, saturation), inside, saturation) == Thresholded(v, inside, saturation)
  {
  }

  /** After thresholding, the fitted pupil mask is exactly the fit area's pixels below saturation. */
  lemma {:induction false} BinaryAfterThreshold(v: real, inside: bool, saturation: real)
    ensures Binary(Thresholded(v, inside, saturation), saturation) == if inside && v < saturation then 1.0 else 0.0
  {
  }

  /** cls.img[~cls.fit_area] = saturation. */
  method MaskOutside(img: array2<real>, fitArea: array2<bool>, saturation: real)
    requires fitArea.Length0 == img.Length0 && fitArea.Length1 == img.Length1
    modifies img
    ensures forall r, c :: 0 <= r < img.Length0 && 0 <= c < img.Length1 ==>
      img[r, c] == if fitArea[r, c] then old(img[r, c]) else saturation
  {
    for r := 0 to img.Length0
      invariant forall i, j :: 0 <= i < img.Length0 && 0 <= j < img.Length1 ==>
        img[i, j] == if i < r && !fitArea[i, j] then saturation else old(img[i, j])
    {
      for c := 0 to img.Length1
        invariant forall i, j :: 0 <= i < img.Length0 && 0 <= j < img.Length1 ==>
          img[i, j] == if (i < r || (i == r && j < c)) && !fitArea[i, j] then saturation else old(img[i, j])
      {
        if !fitArea[r, c] {
          img[r, c] := saturation;
        }
      }
    }
  }

  /** cls.img[cls.img >= saturation] = saturation. */
  method ClipAbove(img: array2<real>, saturation: real)
    modifies img
    ensures forall r, c :: 0 <= r < img.Length0 && 0 <= c < img.Length1 ==>
      img[r, c] == if old(img[r, c]) >= saturation then saturation else old(img[r, c])
  {
    for r := 0 to img.Length0
      invariant forall i, j :: 0 <= i < img.Length0 && 0 <= j < img.Length1 ==>
        img[i, j] == if i < r && old(img[i, j]) >= saturation then saturation else old(img[i, j])
    {
      for c := 0 to img.Length1
        invariant forall i, j :: 0 <= i < img.Length0 && 0 <= j < img.Length1 ==>
          img[i, j] == if (i < r || (i == r && j < c)) && old(img[i, j]) >= saturation then saturation else old(img[i, j])
      {
        if img[r, c] >= saturation {
          img[r, c] := saturation;
        }
      }
    }
  }

  /**
   * The thresholding of preprocess (lines 268-271), in place: pixels outside
   * the fit area become saturation, then everything at or above saturation
   * is set to it; afterwards no pixel exceeds saturation.
   */
  method Threshold(img: array2<real>, fitArea: array2<bool>, saturation: real)
    requires fitArea.Length0 == img.Length0 && fitArea.Length1 == img.Length1
    modifies img
    ensures forall r, c :: 0 <= r < img.Length0 && 0 <= c < img.Length1 ==>
      img[r, c] == Thresholded(old(img[r, c]), fitArea[r, c], saturation)
    ensures forall r, c :: 0 <= r < img.Length0 && 0 <= c < img.Length1 ==> img[r, c] <= saturation
  {
    MaskOutside(img, fitArea, saturation);
    ClipAbove(img, saturation);
  }

  /** out[mask] = value where mask is (img < saturation) == below. */
  method SetWhere(out: array2<real>, img: array2<real>, below: bool, saturation: real, value: real)
    requires out != img && out.Length0 == img.Length0 && out.Length1 == img.Length1
    modifies out
    ensures forall r, c :: 0 <= r < out.Length0 && 0 <= c < out.Length1 ==>
      out[r, c] == if (img[r, c] < saturation) == below then value else old(out[r, c])
  {
    for r := 0 to out.Length0
      invariant forall i, j :: 0 <= i < out.Length0 && 0 <= j < out.Length1 ==>
        out[i, j] == if i < r && (img[i, j] < saturation) == below then value else old(out[i, j])
    {
      for c := 0 to out.Length1
        invariant forall i, j :: 0 <= i < out.Length0 && 0 <= j < out.Length1 ==>
          out[i, j] == if (i < r || (i == r && j < c)) && (img[i, j] < saturation) == below then value else old(out[i, j])
      {
        if (img[r, c] < saturation) == below {
          out[r, c] := value;
        }
      }
    }
  }

  /**
   * The binarisation of perform_fit (lines 72-74): a copy of the image, 1
   * where it is below saturation, then 0 where it is at or above.
   */
  method Binarize(img: array2<real>, saturation: real) returns (fit: array2<real>)
    ensures fresh(fit) && fit.Length0 == img.Length0 && fit.Length1 == img.Length1
    ensures forall r, c :: 0 <= r < img.Length0 && 0 <= c < img.Length1 ==> fit[r, c] == Binary(img[r, c], saturation)
  {
    fit := new real[img.Length0, img.Length1]((r, c) reads img requires 0 <= r < img.Length0 && 0 <= c < img.Length1 => img[r, c]);
    SetWhere(fit, img, true, saturation, 1.0);
    SetWhere(fit, img, false, saturation, 0.0);
  }

  // ---------------------------------------------------------------------
  // clip_to_finite_values
  // ---------------------------------------------------------------------

  /**
   * clip_to_finite_values (lines 232-238): the loop tests the type of each
   * key, a str, against ndarray and list; the test never holds, so every
   * column is kept and the dictionary is returned unchanged.
   */
  method ClipToFiniteValues(data: map<string, seq<real>>) returns (r: map<string, seq<real>>)
    ensures r == data
  {
    r := data;
    var keys := data.Keys;
    while keys != {}
      invariant keys <= data.Keys && r == data
      decreases keys
    {
      var key :| key in keys;
      keys := keys - {key};
    }
  }
}
