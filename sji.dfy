/**
 * Slit-jaw imager (SJI) cubes: the cube and cube-sequence classes with their
 * exposure-time correction and dust masking, and the level-2 FITS reader's
 * bookkeeping (sentinel replacement, single cube versus sequence, and the
 * same-observation check across files). FITS decoding, WCS, time coordinates
 * and plotting are outside the model; the reader takes each file's already
 * decoded image and header values as input.
 */
module Sji {
  import opened Wrappers
  import opened IrisTools

  /** Bad-pixel value of byte-scaled images. */
  const BAD_PIXEL_VALUE_SCALED: real := -200.0
  /** Bad-pixel value of unscaled (memory-mapped) images. */
  const BAD_PIXEL_VALUE_UNSCALED: real := -32768.0

  const MEMMAP_MESSAGE: string := "This method is not available as you are using memmap"
  const RANK_MESSAGE: string := "IRISMapCube dimensions must be 2 or 3"
  const OBSID_MESSAGE: string := "Inputed files must have the same Observation Identification"
  const PASSBAND_MESSAGE: string := "Inputed files must have the same passband"

  // ---------------------------------------------------------------------------
  // N-dimensional arrays, stored flat in row-major order
  // ---------------------------------------------------------------------------

  datatype NdArray = NdArray(shape: seq<nat>, values: seq<Pixel>)

  function Product(s: seq<nat>): nat
  {
    if s == [] then 1 else s[0] * Product(s[1..])
  }

  predicate WellShaped(a: NdArray)
  {
    |a.values| == Product(a.shape)
  }

  /** Number of pixels in one frame of axis 0. */
  function FrameSize(shape: seq<nat>): nat
    requires |shape| >= 1
  {
    Product(shape[1..])
  }

  lemma MulLe(a: int, b: int, c: nat)
    requires a <= b
    ensures a * c <= b * c
  {
    assert b * c - a * c == (b - a) * c;
  }

  /** Frames lo .. hi-1 of axis 0. */
  function SliceFrames(a: NdArray, lo: nat, hi: nat): (r: NdArray)
    requires WellShaped(a) && |a.shape| >= 1 && lo <= hi <= a.shape[0]
    ensures WellShaped(r) && |r.shape| == |a.shape| && r.shape[0] == hi - lo && r.shape[1..] == a.shape[1..]
    ensures lo * FrameSize(a.shape) <= hi * FrameSize(a.shape) <= |a.values|
    ensures r.values == a.values[lo * FrameSize(a.shape) .. hi * FrameSize(a.shape)]
  {
    var f := FrameSize(a.shape);
    MulLe(lo, hi, f);
    MulLe(hi, a.shape[0], f);
    var shape := [hi - lo] + a.shape[1..];
    assert shape[1..] == a.shape[1..];
    assert hi * f - lo * f == (hi - lo) * f;
    NdArray(shape, a.values[lo * f .. hi * f])
  }

  // ---------------------------------------------------------------------------
  // Exposure time and the exposure-time correction front end
  // ---------------------------------------------------------------------------

  /** The "exposure time" extra coordinate: a scalar, or one value per frame of axis 0. */
  datatype ExposureCoord = ScalarCoord(seconds: real) | VectorCoord(secondsPerFrame: seq<real>)

  predicate NonzeroCoord(e: ExposureCoord)
  {
    match e
    case ScalarCoord(s) => s != 0.0
    case VectorCoord(ss) => forall t :: 0 <= t < |ss| ==> ss[t] != 0.0
  }

  /**
   * What the array container guarantees of a cube: the data has its shape, the
   * uncertainty has the data's shape, and a vector exposure coordinate has one
   * entry per frame of axis 0.
   */
  predicate CubeArraysAgree(data: NdArray, uncertainty: Option<NdArray>, exposure: ExposureCoord)
  {
    && WellShaped(data)
    && (uncertainty.Some? ==> uncertainty.value.shape == data.shape && WellShaped(uncertainty.value))
    && (exposure.VectorCoord? && |data.shape| >= 1 ==> |exposure.secondsPerFrame| == data.shape[0])
  }

  /**
   * The reshape of apply_exposure_time_correction: a scalar is used as it is; a
   * vector is kept for 1-D data and given one or two trailing unit axes for 2-D
   * and 3-D data, so that numpy broadcasts entry t over frame t of axis 0. A
   * vector against data of any other rank raises ValueError.
   */
  function ReshapeExposure(shape: seq<nat>, exposure: ExposureCoord): (r: Result<ExposureTime>)
    ensures exposure.ScalarCoord? ==> r == Success(Scalar(exposure.seconds))
    ensures exposure.VectorCoord? ==> (r.Success? <==> 1 <= |shape| <= 3)
    ensures r.Failure? ==> r == Failure(ValueError(RANK_MESSAGE))
    ensures exposure.VectorCoord? && r.Success? ==>
              r.value.PerFrame? && r.value.frames == exposure.secondsPerFrame
  {
    match exposure
    case ScalarCoord(s) => Success(Scalar(s))
    case VectorCoord(e) =>
      if |shape| == 1 then Success(PerFrame(e, FrameSize(shape)))        // used as it is
      else if |shape| == 2 then Success(PerFrame(e, FrameSize(shape)))   // e[:, newaxis]
      else if |shape| == 3 then Success(PerFrame(e, FrameSize(shape)))   // e[:, newaxis, newaxis]
      else Failure(ValueError(RANK_MESSAGE))
  }

  /** The reshaped exposure broadcasts against the data and the uncertainty. */
  lemma ReshapedExposureFits(data: NdArray, uncertainty: NdArray, exposure: ExposureCoord)
    requires CubeArraysAgree(data, Some(uncertainty), exposure) && NonzeroCoord(exposure)
    requires ReshapeExposure(data.shape, exposure).Success?
    ensures ExposureFits([data.values, uncertainty.values], ReshapeExposure(data.shape, exposure).value)
  {
  }

  /** Data, uncertainty and unit of a corrected cube. */
  datatype Corrected = Corrected(data: NdArray, uncertainty: NdArray, unit: Unit)

  /**
   * The computation of IRISMapCube.apply_exposure_time_correction: the scaled
   * guard, the reshape, then the helper that applies (undo = false) or removes
   * (undo = true) the correction on data and uncertainty.
   */
  function CorrectExposure(scaled: Option<bool>, data: NdArray, uncertainty: Option<NdArray>, unit: Unit,
                           exposure: ExposureCoord, undo: bool, force: bool): (r: Result<Corrected>)
    requires CubeArraysAgree(data, uncertainty, exposure) && NonzeroCoord(exposure)
    ensures scaled != Some(true) ==> r == Failure(ValueError(MEMMAP_MESSAGE))
    ensures r.Success? <==>
              && scaled == Some(true)
              && (exposure.VectorCoord? ==> 1 <= |data.shape| <= 3)
              && uncertainty.Some?
              && (force || HasInverseTime(unit) == undo)
    ensures r.Success? ==>
              && r.value.data.shape == data.shape && r.value.uncertainty.shape == data.shape
              && CubeArraysAgree(r.value.data, Some(r.value.uncertainty), exposure)
              && r.value.unit == Unit(unit.base, if undo then unit.secondsPower + 1 else unit.secondsPower - 1)
  {
    if scaled != Some(true) then Failure(ValueError(MEMMAP_MESSAGE))
    else match ReshapeExposure(data.shape, exposure)
      case Failure(err) => Failure(err)
      case Success(e) =>
        if uncertainty.None? then Failure(AttributeError("array"))
        else
          var arrays := [data.values, uncertainty.value.values];
          ReshapedExposureFits(data, uncertainty.value, exposure);
          var helper := if undo then UncalculateExposureTimeCorrection(arrays, unit, e, force)
                        else CalculateExposureTimeCorrection(arrays, unit, e, force);
          match helper
          case Failure(err) => Failure(err)
          case Success(out) =>
            Success(Corrected(NdArray(data.shape, out.0[0]), NdArray(data.shape, out.0[1]), out.1))
  }

  /** Every corrected pixel is its data pixel divided (or, undoing, multiplied) by its frame's exposure time. */
  lemma CorrectedPixel(scaled: Option<bool>, data: NdArray, uncertainty: Option<NdArray>, unit: Unit,
                       exposure: ExposureCoord, undo: bool, force: bool, k: nat)
    requires CubeArraysAgree(data, uncertainty, exposure) && NonzeroCoord(exposure)
    requires CorrectExposure(scaled, data, uncertainty, unit, exposure, undo, force).Success?
    requires k < |data.values|
    ensures var e := ReshapeExposure(data.shape, exposure).value;
            var s := ExposureAt(e, |data.values|, k);
            var out := CorrectExposure(scaled, data, uncertainty, unit, exposure, undo, force).value;
            && k < |out.data.values| && k < |out.uncertainty.values|
            && out.data.values[k] == (if undo then Scale(data.values[k], s) else Divide(data.values[k], s))
            && out.uncertainty.values[k]
                 == (if undo then Scale(uncertainty.value.values[k], s) else Divide(uncertainty.value.values[k], s))
  {
  }

  /**
   * The broadcast of a per-frame exposure over 3-D data of shape (T, Y, X):
   * corrected[t, y, x] == data[t, y, x] / exposure[t].
   */
  lemma {:induction false} Broadcast3D(data: NdArray, uncertainty: Option<NdArray>, unit: Unit, e: seq<real>,
                                       force: bool, t: nat, y: nat, x: nat)
    requires CubeArraysAgree(data, uncertainty, VectorCoord(e)) && NonzeroCoord(VectorCoord(e))
    requires |data.shape| == 3 && t < data.shape[0] && y < data.shape[1] && x < data.shape[2]
    requires CorrectExposure(Some(true), data, uncertainty, unit, VectorCoord(e), false, force).Success?
    ensures var k := RowMajorIndex(t, y, x, data.shape[1], data.shape[2]);
            var out := CorrectExposure(Some(true), data, uncertainty, unit, VectorCoord(e), false, force).value;
            && k < |data.values| && k < |out.data.values|
            && out.data.values[k] == Divide(data.values[k], e[t])
  {
    var Y, X := data.shape[1], data.shape[2];
    var s := data.shape[1..];
    assert s == [Y, X] && s[1..] == [X] && [X][1..] == [];
    assert Product([X]) == X;
    assert FrameSize(data.shape) == Y * X;
    var k := RowMajorIndex(t, y, x, Y, X);
    FlatIndex3D(data.shape[0], Y, X, t, y, x);
    CorrectedPixel(Some(true), data, uncertainty, unit, VectorCoord(e), false, force, k);
  }

  /** The flat position of element (t, y, x) of a C-ordered array whose last two axes are Y and X long. */
  function RowMajorIndex(t: nat, y: nat, x: nat, Y: nat, X: nat): nat
  {
    (t * Y + y) * X + x
  }

  /** Row-major index (t, y, x) of a (T, Y, X) array lies in frame t. */
  lemma FlatIndex3D(T: nat, Y: nat, X: nat, t: nat, y: nat, x: nat)
    requires t < T && y < Y && x < X
    ensures RowMajorIndex(t, y, x, Y, X) < T * (Y * X)
    ensures FrameOf(RowMajorIndex(t, y, x, Y, X), Y * X) == t
  {
    RowMajor(t, Y, X, y);
    NextRowBound(y, Y, X);
    FrameOfFrame(t, Y * X, y * X + x);
    NextRowBound(t, T, Y * X);
  }

  /** (t * Y + y) * X regrouped as whole frames plus whole rows. */
  lemma RowMajor(t: nat, Y: nat, X: nat, y: nat)
    ensures (t * Y + y) * X == t * (Y * X) + y * X
  {
    assert (t * Y + y) * X == t * Y * X + y * X;
  }

  /** Row y of a Y-row array of X-wide rows ends within the array. */
  lemma NextRowBound(y: nat, Y: nat, X: nat)
    requires y < Y
    ensures y * X + X <= Y * X
  {
    MulLe(y + 1, Y, X);
    assert (y + 1) * X == y * X + X;
  }

  /** The same broadcast for 2-D data of shape (T, Y): corrected[t, y] == data[t, y] / exposure[t]. */
  lemma {:induction false} Broadcast2D(data: NdArray, uncertainty: Option<NdArray>, unit: Unit, e: seq<real>,
                                       force: bool, t: nat, y: nat)
    requires CubeArraysAgree(data, uncertainty, VectorCoord(e)) && NonzeroCoord(VectorCoord(e))
    requires |data.shape| == 2 && t < data.shape[0] && y < data.shape[1]
    requires CorrectExposure(Some(true), data, uncertainty, unit, VectorCoord(e), false, force).Success?
    ensures var k := t * data.shape[1] + y;
            var out := CorrectExposure(Some(true), data, uncertainty, unit, VectorCoord(e), false, force).value;
            && k < |data.values| && k < |out.data.values|
            && out.data.values[k] == Divide(data.values[k], e[t])
  {
    var Y := data.shape[1];
    var s := data.shape[1..];
    assert s == [Y] && s[1..] == [];
    assert Product(s) == Y * Product([]);
    assert FrameSize(data.shape) == Y;
    FrameOfFrame(t, Y, y);
    MulLe(t + 1, data.shape[0], Y);
    CorrectedPixel(Some(true), data, uncertainty, unit, VectorCoord(e), false, force, t * Y + y);
  }

  /**
   * Applying and then undoing the correction, both unforced, on a scaled cube
   * whose unit has no seconds, returns the original data, uncertainty and unit.
   */
  lemma {:induction false} CorrectionRoundTrip(data: NdArray, uncertainty: NdArray, unit: Unit, exposure: ExposureCoord)
    requires CubeArraysAgree(data, Some(uncertainty), exposure) && NonzeroCoord(exposure)
    requires unit.secondsPower == 0 && (exposure.VectorCoord? ==> 1 <= |data.shape| <= 3)
    ensures CorrectExposure(Some(true), data, Some(uncertainty), unit, exposure, false, false).Success?
    ensures var c := CorrectExposure(Some(true), data, Some(uncertainty), unit, exposure, false, false).value;
            CorrectExposure(Some(true), c.data, Some(c.uncertainty), c.unit, exposure, true, false)
              == Success(Corrected(data, uncertainty, unit))
  {
    var e := ReshapeExposure(data.shape, exposure).value;
    var arrays := [data.values, uncertainty.values];
    ReshapedExposureFits(data, uncertainty, exposure);
    UncalculateUndoesCalculate(arrays, unit, e);
    var c := CorrectExposure(Some(true), data, Some(uncertainty), unit, exposure, false, false).value;
    var out := CalculateExposureTimeCorrection(arrays, unit, e, false).value;
    assert [c.data.values, c.uncertainty.values] == out.0;
  }

  // ---------------------------------------------------------------------------
  // Dust mask
  // ---------------------------------------------------------------------------

  /** The mask after `mask[dust] := not undo`. */
  function DustMasked(mask: seq<bool>, dust: seq<bool>, undo: bool): (r: seq<bool>)
    requires |mask| == |dust|
    ensures |r| == |mask|
  {
    seq(|mask|, k requires 0 <= k < |mask| => if dust[k] then !undo else mask[k])
  }

  /** Applying the dust mask ORs it into the mask; undoing it clears the dust positions. */
  lemma DustMaskIsOrAndAndNot(mask: seq<bool>, dust: seq<bool>)
    requires |mask| == |dust|
    ensures forall k :: 0 <= k < |mask| ==> DustMasked(mask, dust, false)[k] == (mask[k] || dust[k])
    ensures forall k :: 0 <= k < |mask| ==> DustMasked(mask, dust, true)[k] == (mask[k] && !dust[k])
  {
  }

  /** Applying (or undoing) twice with the same dust positions is applying (undoing) once. */
  lemma DustMaskIdempotent(mask: seq<bool>, dust: seq<bool>, undo: bool)
    requires |mask| == |dust|
    ensures DustMasked(DustMasked(mask, dust, undo), dust, undo) == DustMasked(mask, dust, undo)
  {
  }

  /**
   * Undoing after applying does not restore the mask: it is the same as undoing
   * alone, so dust positions that were masked beforehand end up unmasked.
   */
  lemma DustUndoForgetsPriorMask(mask: seq<bool>, dust: seq<bool>)
    requires |mask| == |dust|
    ensures DustMasked(DustMasked(mask, dust, false), dust, true) == DustMasked(mask, dust, true)
    ensures DustMasked(DustMasked([true], [true], false), [true], true) == [false]
  {
  }

  // ---------------------------------------------------------------------------
  // IRISMapCube
  // ---------------------------------------------------------------------------

  /** The header values the modelled code reads back from a cube's meta. */
  datatype SjiMeta = SjiMeta(obsid: Option<string>, twave1: Option<real>, nbFrames: nat)

  /** Python slice bounds start:stop, clamped to an axis of length n. */
  function SliceBounds(n: nat, start: nat, stop: nat): (b: (nat, nat))
    ensures b.0 <= b.1 <= n
    ensures start <= n ==> b.0 == start
    ensures start <= stop <= n ==> b.1 == stop
  {
    var lo := if start < n then start else n;
    var hi := if stop < n then stop else n;
    (lo, if hi < lo then lo else hi)
  }

  class IrisMapCube {
    const data: NdArray
    const uncertainty: Option<NdArray>
    const unit: Unit
    const meta: SjiMeta
    /**
     * The array holding the mask (null when the cube was made without one).
     * The cube's mask is the view of maskLength entries from maskStart: a
     * slice of a cube views a block of its parent's array, so dust masking,
     * which updates the view in place, reaches every cube sharing the array.
     */
    const mask: array?<bool>
    const maskStart: nat
    const maskLength: nat
    const exposure: ExposureCoord
    const missingAxes: seq<bool>
    var scaled: Option<bool>
    var dustMasked: bool

    /** __init__: records `scaled` and starts with dust_masked False. */
    constructor (data: NdArray, uncertainty: Option<NdArray>, unit: Unit, meta: SjiMeta,
                 mask: array?<bool>, maskStart: nat, maskLength: nat,
                 exposure: ExposureCoord, missingAxes: seq<bool>, scaled: Option<bool>)
      requires mask != null ==> maskStart + maskLength <= mask.Length
      ensures this.data == data && this.uncertainty == uncertainty && this.unit == unit && this.meta == meta
      ensures this.mask == mask && this.maskStart == maskStart && this.maskLength == maskLength
      ensures this.exposure == exposure && this.missingAxes == missingAxes
      ensures this.scaled == scaled && !this.dustMasked
    {
      this.data := data;
      this.uncertainty := uncertainty;
      this.unit := unit;
      this.meta := meta;
      this.mask := mask;
      this.maskStart := maskStart;
      this.maskLength := maskLength;
      this.exposure := exposure;
      this.missingAxes := missingAxes;
      this.scaled := scaled;
      this.dustMasked := false;
    }

    /** The mask view lies inside its array, as a numpy view lies inside its base. */
    predicate MaskInBounds()
    {
      mask != null ==> maskStart + maskLength <= mask.Length
    }

    /** The cube's mask: its view of the mask array. */
    function MaskView(): (v: seq<bool>)
      reads mask
      requires mask != null && MaskInBounds()
      ensures |v| == maskLength
      ensures forall k :: 0 <= k < maskLength ==> v[k] == mask[maskStart + k]
    {
      mask[maskStart .. maskStart + maskLength]
    }

    predicate Valid()
    {
      CubeArraysAgree(data, uncertainty, exposure) && MaskInBounds() && (mask != null ==> maskLength == |data.values|)
    }

    /** The result apply_exposure_time_correction computes from this cube. */
    function Correction(undo: bool, force: bool): (r: Result<Corrected>)
      reads this
      requires Valid() && NonzeroCoord(exposure)
      ensures scaled != Some(true) ==> r == Failure(ValueError(MEMMAP_MESSAGE))
      ensures r.Success? ==> r.value.data.shape == data.shape
                             && r.value.unit == Unit(unit.base, if undo then unit.secondsPower + 1 else unit.secondsPower - 1)
    {
      CorrectExposure(scaled, data, uncertainty, unit, exposure, undo, force)
    }

    /**
     * __getitem__ for a slice start:stop of axis 0: the slice is built as a new
     * cube (so its dust_masked flag starts False) and then given this cube's
     * `scaled` value. Its mask views the block of this cube's mask array that
     * holds the sliced frames; nothing is copied.
     */
    method GetItem(start: nat, stop: nat) returns (r: IrisMapCube)
      requires Valid() && |data.shape| >= 1
      ensures fresh(r) && r.Valid()
      ensures r.scaled == scaled && !r.dustMasked
      ensures var (lo, hi) := SliceBounds(data.shape[0], start, stop);
              && r.data == SliceFrames(data, lo, hi)
              && (uncertainty.Some? ==> r.uncertainty == Some(SliceFrames(uncertainty.value, lo, hi)))
              && (exposure.VectorCoord? ==> r.exposure == VectorCoord(exposure.secondsPerFrame[lo..hi]))
              && (mask != null ==>
                    && r.mask == mask && r.maskStart == maskStart + lo * FrameSize(data.shape)
                    && r.maskLength == (hi - lo) * FrameSize(data.shape)
                    && r.MaskView() == MaskView()[lo * FrameSize(data.shape) .. hi * FrameSize(data.shape)])
      ensures uncertainty.None? ==> r.uncertainty.None?
      ensures exposure.ScalarCoord? ==> r.exposure == exposure
      ensures r.mask == mask
      ensures r.unit == unit && r.meta == meta && r.missingAxes == missingAxes
    {
      var (lo, hi) := SliceBounds(data.shape[0], start, stop);
      var d := SliceFrames(data, lo, hi);
      var u: Option<NdArray> := None;
      if uncertainty.Some? {
        u := Some(SliceFrames(uncertainty.value, lo, hi));
      }
      var e := exposure;
      if exposure.VectorCoord? {
        e := VectorCoord(exposure.secondsPerFrame[lo..hi]);
      }
      var f := FrameSize(data.shape);
      var start, length := maskStart, maskLength;
      if mask != null {
        start, length := maskStart + lo * f, (hi - lo) * f;
      }
      r := new IrisMapCube(d, u, unit, meta, mask, start, length, e, missingAxes, None);
      r.scaled := scaled;
    }

    /**
     * apply_exposure_time_correction: a new cube with the corrected data,
     * uncertainty and unit that shares this cube's meta, mask view, missing
     * axes, exposure coordinate and `scaled` value.
     */
    method ApplyExposureTimeCorrection(undo: bool, force: bool) returns (r: Result<IrisMapCube>)
      requires Valid() && NonzeroCoord(exposure)
      ensures Correction(undo, force).Failure? ==> r == Failure(Correction(undo, force).error)
      ensures Correction(undo, force).Success? ==> r.Success? && fresh(r.value) && CorrectedCopy(this, r.value, undo, force)
    {
      var c := CorrectExposure(scaled, data, uncertainty, unit, exposure, undo, force);
      if c.Failure? {
        return Failure(c.error);
      }
      var cube := new IrisMapCube(c.value.data, Some(c.value.uncertainty), c.value.unit, meta,
                                  mask, maskStart, maskLength, exposure, missingAxes, scaled);
      return Success(cube);
    }

    /**
     * apply_dust_mask: sets the mask to `not undo` at every dust position and
     * the dust_masked flag to `not undo`. The mask is a view, so the entries
     * are written into the shared array and entries outside the view keep
     * their values. A missing mask raises TypeError and a mask of the wrong
     * size IndexError, before anything changes.
     */
    method ApplyDustMask(dust: seq<bool>, undo: bool) returns (outcome: Outcome)
      requires |dust| == |data.values| && MaskInBounds()
      modifies this`dustMasked, mask
      ensures outcome.Pass? <==> Maskable(this, dust)
      ensures mask == null ==> outcome == Fail(TypeError)
      ensures mask != null && maskLength != |dust| ==> outcome == Fail(IndexError)
      ensures outcome.Fail? ==> unchanged(this) && (mask != null ==> unchanged(mask))
      ensures outcome.Pass? ==> MaskView() == DustMasked(old(MaskView()), dust, undo) && dustMasked == !undo
      ensures outcome.Pass? ==>
                forall k :: 0 <= k < mask.Length ==>
                  mask[k] == if maskStart <= k < maskStart + maskLength && dust[k - maskStart] then !undo else old(mask[k])
    {
      if mask == null {
        return Fail(TypeError);
      }
      if maskLength != |dust| {
        return Fail(IndexError);
      }
      forall k | maskStart <= k < maskStart + maskLength && dust[k - maskStart] {
        mask[k] := !undo;
      }
      dustMasked := !undo;
      outcome := Pass;
    }
  }

  /** The cube's mask exists and has one entry per dust-mask entry. */
  predicate Maskable(c: IrisMapCube, dust: seq<bool>)
  {
    c.mask != null && c.maskLength == |dust|
  }

  /** d is what c.apply_exposure_time_correction(undo, force) returns. */
  ghost predicate CorrectedCopy(c: IrisMapCube, d: IrisMapCube, undo: bool, force: bool)
    reads c, d
  {
    && c.Valid() && NonzeroCoord(c.exposure)
    && c.Correction(undo, force).Success?
    && d.uncertainty.Some?
    && c.Correction(undo, force).value == Corrected(d.data, d.uncertainty.value, d.unit)
    && d.meta == c.meta && d.mask == c.mask && d.maskStart == c.maskStart && d.maskLength == c.maskLength
    && d.missingAxes == c.missingAxes
    && d.exposure == c.exposure && d.scaled == c.scaled && !d.dustMasked
  }

  // ---------------------------------------------------------------------------
  // IRISMapCubeSequence
  // ---------------------------------------------------------------------------

  /** The index of the first cube that cannot take its dust mask, or |cubes| if there is none. */
  function FirstUnmaskable(cubes: seq<IrisMapCube>, dusts: seq<seq<bool>>): (n: nat)
    requires |dusts| == |cubes|
    ensures n <= |cubes|
    ensures forall i :: 0 <= i < n ==> Maskable(cubes[i], dusts[i])
    ensures n < |cubes| ==> !Maskable(cubes[n], dusts[n])
  {
    if cubes == [] then 0
    else if !Maskable(cubes[0], dusts[0]) then 0
    else 1 + FirstUnmaskable(cubes[1..], dusts[1..])
  }

  /** One of the first n cubes views mask array m and has dust over its entry k. */
  ghost predicate DustHit(cubes: seq<IrisMapCube>, dusts: seq<seq<bool>>, n: nat, m: array<bool>, k: nat)
    requires n <= |cubes| == |dusts|
  {
    n > 0 && (DustHit(cubes, dusts, n - 1, m, k) || DustOver(cubes[n - 1], dusts[n - 1], m, k))
  }

  /** Cube c views mask array m and its dust mask is set over entry k of m. */
  ghost predicate DustOver(c: IrisMapCube, dust: seq<bool>, m: array<bool>, k: nat)
  {
    c.mask == m && c.maskStart <= k < c.maskStart + |dust| && dust[k - c.maskStart]
  }

  /** Cube c is one of the first n cubes. */
  ghost predicate Visited(cubes: seq<IrisMapCube>, n: nat, c: IrisMapCube)
    requires n <= |cubes|
  {
    n > 0 && (Visited(cubes, n - 1, c) || cubes[n - 1] == c)
  }

  /** The contents of every cube's mask array (empty where there is no mask). */
  function MaskContents(cubes: seq<IrisMapCube>): seq<seq<bool>>
    reads set j | 0 <= j < |cubes| && cubes[j].mask != null :: cubes[j].mask
  {
    seq(|cubes|, j reads set j | 0 <= j < |cubes| && cubes[j].mask != null :: cubes[j].mask
                   requires 0 <= j < |cubes| => if cubes[j].mask == null then [] else cubes[j].mask[..])
  }

  /** The dust_masked flag of every cube. */
  function DustFlags(cubes: seq<IrisMapCube>): seq<bool>
    reads set j | 0 <= j < |cubes| :: cubes[j]
  {
    seq(|cubes|, j reads set j | 0 <= j < |cubes| :: cubes[j] requires 0 <= j < |cubes| => cubes[j].dustMasked)
  }

  /**
   * After the first n cubes took their dust masks, starting from the mask
   * contents `before`: an entry of a mask array is `not undo` where one of
   * those cubes views it and has dust over it, and keeps its starting value
   * elsewhere.
   */
  ghost predicate MasksDusted(cubes: seq<IrisMapCube>, dusts: seq<seq<bool>>, n: nat, undo: bool, before: seq<seq<bool>>)
    requires n <= |cubes| == |dusts| == |before|
    reads set j | 0 <= j < |cubes| && cubes[j].mask != null :: cubes[j].mask
  {
    forall j, k :: 0 <= j < |cubes| && cubes[j].mask != null && 0 <= k < cubes[j].mask.Length && k < |before[j]| ==>
      cubes[j].mask[k] == if DustHit(cubes, dusts, n, cubes[j].mask, k) then !undo else before[j][k]
  }

  /** After the first n cubes took their dust masks, exactly those have dust_masked set to `not undo`. */
  ghost predicate FlagsDusted(cubes: seq<IrisMapCube>, n: nat, undo: bool, flags: seq<bool>)
    requires n <= |cubes| == |flags|
    reads set j | 0 <= j < |cubes| :: cubes[j]
  {
    forall j :: 0 <= j < |cubes| ==> cubes[j].dustMasked == if Visited(cubes, n, cubes[j]) then !undo else flags[j]
  }

  /** One pass of apply_dust_mask's loop: cube i takes its dust mask. */
  method DustCube(cubes: seq<IrisMapCube>, i: nat, dusts: seq<seq<bool>>, undo: bool,
                  ghost before: seq<seq<bool>>, ghost flags: seq<bool>)
    returns (outcome: Outcome)
    requires |dusts| == |cubes| == |before| == |flags| && i < |cubes| && i <= FirstUnmaskable(cubes, dusts)
    requires |dusts[i]| == |cubes[i].data.values| && cubes[i].MaskInBounds()
    requires MasksDusted(cubes, dusts, i, undo, before) && FlagsDusted(cubes, i, undo, flags)
    modifies cubes[i], cubes[i].mask
    ensures outcome.Pass? <==> Maskable(cubes[i], dusts[i])
    ensures outcome.Pass? <==> i < FirstUnmaskable(cubes, dusts)
    ensures outcome.Fail? ==>
              && FirstUnmaskable(cubes, dusts) == i
              && outcome.error == (if cubes[i].mask == null then TypeError else IndexError)
              && MasksDusted(cubes, dusts, i, undo, before) && FlagsDusted(cubes, i, undo, flags)
    ensures outcome.Pass? ==> MasksDusted(cubes, dusts, i + 1, undo, before) && FlagsDusted(cubes, i + 1, undo, flags)
    ensures cubes[i].scaled == old(cubes[i].scaled)
  {
    outcome := cubes[i].ApplyDustMask(dusts[i], undo);
    if outcome.Pass? {
      var m := cubes[i].mask;
      forall j, k | 0 <= j < |cubes| && cubes[j].mask != null && 0 <= k < cubes[j].mask.Length && k < |before[j]|
        ensures cubes[j].mask[k] == if DustHit(cubes, dusts, i + 1, cubes[j].mask, k) then !undo else before[j][k]
      {
        if cubes[j].mask == m {
          assert DustHit(cubes, dusts, i + 1, m, k) == (DustHit(cubes, dusts, i, m, k) || DustOver(cubes[i], dusts[i], m, k));
        }
      }
    }
  }

  /** Every cube of dst is the corrected copy of the cube of src at the same position. */
  ghost predicate CorrectedCubes(src: seq<IrisMapCube>, dst: seq<IrisMapCube>, undo: bool, force: bool)
    reads set i | 0 <= i < |src| :: src[i]
    reads set i | 0 <= i < |dst| :: dst[i]
  {
    |src| == |dst| && forall i :: 0 <= i < |src| ==> CorrectedCopy(src[i], dst[i], undo, force)
  }

  /**
   * The loop of IRISMapCubeSequence.apply_exposure_time_correction: corrects
   * the cubes in order and stops at the first failure.
   */
  method CorrectCubes(cubes: seq<IrisMapCube>, undo: bool, force: bool) returns (r: Result<seq<IrisMapCube>>)
    requires forall i :: 0 <= i < |cubes| ==> cubes[i].Valid() && NonzeroCoord(cubes[i].exposure)
    ensures r.Failure? <==> exists i :: 0 <= i < |cubes| && cubes[i].Correction(undo, force).Failure?
    ensures r.Failure? ==>
              exists i :: 0 <= i < |cubes| && cubes[i].Correction(undo, force) == Failure(r.error)
                && forall j :: 0 <= j < i ==> cubes[j].Correction(undo, force).Success?
    ensures r.Success? ==> CorrectedCubes(cubes, r.value, undo, force)
    ensures r.Success? ==> forall i :: 0 <= i < |r.value| ==> fresh(r.value[i])
  {
    var corrected: seq<IrisMapCube> := [];
    var i := 0;
    while i < |cubes|
      invariant i <= |cubes| && |corrected| == i
      invariant forall j :: 0 <= j < i ==> fresh(corrected[j]) && CorrectedCopy(cubes[j], corrected[j], undo, force)
    {
      var c := cubes[i].ApplyExposureTimeCorrection(undo, force);
      if c.Failure? {
        return Failure(c.error);
      }
      corrected := corrected + [c.value];
      i := i + 1;
    }
    return Success(corrected);
  }

  class IrisMapCubeSequence {
    var data: seq<IrisMapCube>
    const meta: Option<SjiMeta>
    const commonAxis: int

    constructor (data: seq<IrisMapCube>, meta: Option<SjiMeta>, commonAxis: int)
      ensures this.data == data && this.meta == meta && this.commonAxis == commonAxis
    {
      this.data := data;
      this.meta := meta;
      this.commonAxis := commonAxis;
    }

    /**
     * apply_exposure_time_correction: corrects every cube in order; the first
     * failure propagates and changes nothing. With copy a new sequence is
     * returned and this one is left alone; without, this sequence's list is
     * replaced by the corrected cubes.
     */
    method ApplyExposureTimeCorrection(undo: bool, copy: bool, force: bool)
      returns (r: Result<Option<IrisMapCubeSequence>>)
      requires forall i :: 0 <= i < |data| ==> data[i].Valid() && NonzeroCoord(data[i].exposure)
      modifies this
      ensures r.Failure? <==> exists i :: 0 <= i < |old(data)| && old(data)[i].Correction(undo, force).Failure?
      ensures r.Failure? ==>
                (&& data == old(data)
                 && exists i :: 0 <= i < |data| && data[i].Correction(undo, force) == Failure(r.error)
                      && forall j :: 0 <= j < i ==> data[j].Correction(undo, force).Success?)
      ensures r.Success? && copy ==>
                && data == old(data) && r.value.Some? && fresh(r.value.value)
                && r.value.value.meta == meta && r.value.value.commonAxis == commonAxis
                && CorrectedCubes(data, r.value.value.data, undo, force)
                && forall i :: 0 <= i < |r.value.value.data| ==> fresh(r.value.value.data[i])
      ensures r.Success? && !copy ==>
                && r.value.None? && CorrectedCubes(old(data), data, undo, force)
                && forall i :: 0 <= i < |data| ==> fresh(data[i])
    {
      var corrected := CorrectCubes(data, undo, force);
      if corrected.Failure? {
        return Failure(corrected.error);
      }
      if copy {
        var s := new IrisMapCubeSequence(corrected.value, meta, commonAxis);
        return Success(Some(s));
      }
      data := corrected.value;
      return Success(None);
    }

    /**
     * apply_dust_mask: applies each cube's dust mask in order. A cube whose
     * mask cannot take it raises, leaving the cubes before it updated. Cubes
     * may share a mask array (a corrected cube keeps its original's view, a
     * slice views a block of its parent's), so an array entry ends up
     * `not undo` when any processed cube viewing it has dust there, and keeps
     * its old value otherwise.
     */
    method ApplyDustMask(dusts: seq<seq<bool>>, undo: bool) returns (outcome: Outcome)
      requires |dusts| == |data|
      requires forall i :: 0 <= i < |data| ==> |dusts[i]| == |data[i].data.values| && data[i].MaskInBounds()
      modifies set i | 0 <= i < |data| :: data[i]
      modifies set i | 0 <= i < |data| && data[i].mask != null :: data[i].mask
      ensures outcome.Pass? <==> FirstUnmaskable(data, dusts) == |data|
      ensures outcome.Fail? ==>
                outcome.error == if data[FirstUnmaskable(data, dusts)].mask == null then TypeError else IndexError
      ensures MasksDusted(data, dusts, FirstUnmaskable(data, dusts), undo, old(MaskContents(data)))
      ensures FlagsDusted(data, FirstUnmaskable(data, dusts), undo, old(DustFlags(data)))
      ensures forall i :: 0 <= i < |data| ==> data[i].scaled == old(data[i].scaled)
    {
      var cubes := data;
      var i := 0;
      while i < |cubes|
        invariant data == cubes && i <= FirstUnmaskable(cubes, dusts)
        invariant MasksDusted(cubes, dusts, i, undo, old(MaskContents(data)))
        invariant FlagsDusted(cubes, i, undo, old(DustFlags(data)))
        invariant forall j :: 0 <= j < |cubes| ==> cubes[j].scaled == old(cubes[j].scaled)
      {
        var o := DustCube(cubes, i, dusts, undo, old(MaskContents(data)), old(DustFlags(data)));
        if o.Fail? {
          return o;
        }
        i := i + 1;
      }
      outcome := Pass;
    }
  }

  // ---------------------------------------------------------------------------
  // read_iris_sji_level2_fits
  // ---------------------------------------------------------------------------

  /**
   * What the reader takes from one level-2 SJI file: the primary image (shape
   * and values), the OBSID and TWAVE1 header values, the exposure time of every
   * frame, and the per-pixel uncertainty the readout-noise formula yields (the
   * formula itself is not part of this model).
   */
  datatype SjiFile = SjiFile(shape: seq<nat>, values: seq<real>, obsid: Option<string>, twave1: Option<real>,
                             exposureTimes: seq<real>, uncertainty: seq<Pixel>)

  /** A FITS image has its shape, and the auxiliary table one row per frame. */
  predicate ValidFile(f: SjiFile)
  {
    |f.shape| >= 1 && |f.values| == Product(f.shape) && |f.exposureTimes| == f.shape[0]
    && |f.uncertainty| == |f.values|
  }

  /** One filename string, or a list of them. */
  datatype FileNames = OneName(file: SjiFile) | Names(files: seq<SjiFile>)

  function Files(names: FileNames): seq<SjiFile>
  {
    match names
    case OneName(f) => [f]
    case Names(fs) => fs
  }

  /** A single file gives one cube; a list of files a cube sequence. */
  datatype SjiRead = OneCube(cube: IrisMapCube) | CubeSequence(sequence: IrisMapCubeSequence)

  /** OBSID, TWAVE1 and NBFRAMES, the number of frames (one exposure time per frame). */
  function MetaOf(f: SjiFile): (m: SjiMeta)
    ensures ValidFile(f) ==> m.nbFrames == f.shape[0]
    ensures m.obsid == f.obsid && m.twave1 == f.twave1
  {
    SjiMeta(f.obsid, f.twave1, |f.exposureTimes|)
  }

  function RawPixels(values: seq<real>): (r: seq<Pixel>)
    ensures |r| == |values| && forall k :: 0 <= k < |r| ==> r[k] == Num(values[k])
  {
    seq(|values|, k requires 0 <= k < |values| => Num(values[k]))
  }

  /** `a[a == sentinel] = replacement`. */
  function Replaced(a: seq<Pixel>, sentinel: real, replacement: Pixel): (r: seq<Pixel>)
    ensures |r| == |a|
  {
    seq(|a|, k requires 0 <= k < |a| => if a[k] == Num(sentinel) then replacement else a[k])
  }

  /** After the replacement no pixel holds the sentinel, and only sentinel pixels changed. */
  lemma ReplacedRemovesSentinel(a: seq<Pixel>, sentinel: real, replacement: Pixel)
    requires replacement != Num(sentinel)
    ensures forall k :: 0 <= k < |a| ==> Replaced(a, sentinel, replacement)[k] != Num(sentinel)
    ensures forall k :: 0 <= k < |a| ==> (Replaced(a, sentinel, replacement)[k] != a[k] <==> a[k] == Num(sentinel))
  {
  }

  /** `values == sentinel`, pixel by pixel. */
  function SentinelMask(values: seq<real>, sentinel: real): (m: seq<bool>)
    ensures |m| == |values|
  {
    seq(|values|, k requires 0 <= k < |values| => values[k] == sentinel)
  }

  /**
   * The scaled reader's mask as written: `data_nan_masked == -200` evaluated
   * after the sentinel pixels of that same array were set to NaN.
   */
  function ScaledMaskAsWritten(replaced: seq<Pixel>): (m: seq<bool>)
    ensures |m| == |replaced|
  {
    seq(|replaced|, k requires 0 <= k < |replaced| => replaced[k] == Num(BAD_PIXEL_VALUE_SCALED))
  }

  /** As written, the scaled reader's mask flags no pixel at all. */
  lemma ScaledMaskAsWrittenIsEmpty(values: seq<real>)
    ensures var m := ScaledMaskAsWritten(Replaced(RawPixels(values), BAD_PIXEL_VALUE_SCALED, NaN));
            forall k :: 0 <= k < |m| ==> !m[k]
  {
  }

  /** A one-pixel image holding the bad-pixel value: the written mask misses it, the intended mask flags it. */
  lemma ScaledMaskAsWrittenMissesBadPixel()
    ensures ScaledMaskAsWritten(Replaced(RawPixels([BAD_PIXEL_VALUE_SCALED]), BAD_PIXEL_VALUE_SCALED, NaN)) == [false]
    ensures SentinelMask([BAD_PIXEL_VALUE_SCALED], BAD_PIXEL_VALUE_SCALED) == [true]
  {
  }

  /** The intended mask flags exactly the pixels that the reader replaces with NaN. */
  lemma SentinelMaskFlagsReplacedPixels(values: seq<real>)
    ensures var m := SentinelMask(values, BAD_PIXEL_VALUE_SCALED);
            var d := Replaced(RawPixels(values), BAD_PIXEL_VALUE_SCALED, NaN);
            forall k :: 0 <= k < |values| ==> (m[k] <==> d[k] == NaN)
  {
  }

  /** `data[data == sentinel] = replacement`, in place. */
  method ReplaceSentinel(a: array<Pixel>, sentinel: real, replacement: Pixel)
    modifies a
    ensures a[..] == Replaced(old(a[..]), sentinel, replacement)
  {
    var k := 0;
    while k < a.Length
      invariant 0 <= k <= a.Length
      invariant forall j :: 0 <= j < k ==> a[j] == (if old(a[j]) == Num(sentinel) then replacement else old(a[j]))
      invariant forall j :: k <= j < a.Length ==> a[j] == old(a[j])
    {
      if a[k] == Num(sentinel) {
        a[k] := replacement;
      }
      k := k + 1;
    }
  }

  /**
   * The OBSID and passband checks of a multi-file read: every cube must have
   * the first cube's OBSID, then every cube the first cube's TWAVE1.
   */
  function SameObservation(metas: seq<SjiMeta>): (o: Outcome)
    ensures o.Pass? <==> forall i, j :: 0 <= i < |metas| && 0 <= j < |metas| ==>
                           metas[i].obsid == metas[j].obsid && metas[i].twave1 == metas[j].twave1
    ensures (exists i :: 0 <= i < |metas| && metas[i].obsid != metas[0].obsid) ==> o == Fail(ValueError(OBSID_MESSAGE))
    ensures o.Fail? && (forall i :: 0 <= i < |metas| ==> metas[i].obsid == metas[0].obsid) ==>
              o == Fail(ValueError(PASSBAND_MESSAGE))
  {
    if exists i :: 0 <= i < |metas| && metas[i].obsid != metas[0].obsid then Fail(ValueError(OBSID_MESSAGE))
    else if exists i :: 0 <= i < |metas| && metas[i].twave1 != metas[0].twave1 then Fail(ValueError(PASSBAND_MESSAGE))
    else Pass
  }

  /** The cube the reader builds from file f. */
  ghost predicate ReadFrom(c: IrisMapCube, f: SjiFile, memmap: bool)
    reads c, c.mask
    requires ValidFile(f)
  {
    && c.scaled == Some(!memmap) && !c.dustMasked
    && c.meta == MetaOf(f) && c.exposure == VectorCoord(f.exposureTimes) && c.missingAxes == []
    && (memmap ==>
          && c.data == NdArray(f.shape, Replaced(RawPixels(f.values), BAD_PIXEL_VALUE_UNSCALED, Num(0.0)))
          && c.unit == Unit(DnSjiUnscaled, 0) && c.mask == null && c.uncertainty == None)
    && (!memmap ==>
          && c.data == NdArray(f.shape, Replaced(RawPixels(f.values), BAD_PIXEL_VALUE_SCALED, NaN))
          && c.unit == Unit(DnSji, 0)
          && c.mask != null && c.maskStart == 0 && c.maskLength == c.mask.Length
          && c.mask[..] == SentinelMask(f.values, BAD_PIXEL_VALUE_SCALED)
          && c.uncertainty == Some(NdArray(f.shape, f.uncertainty)))
  }

  /** The cube read from one file (one iteration of the reader's loop). */
  method ReadCube(f: SjiFile, memmap: bool) returns (c: IrisMapCube)
    requires ValidFile(f)
    ensures fresh(c) && (c.mask != null ==> fresh(c.mask))
    ensures ReadFrom(c, f, memmap) && c.Valid()
  {
    var image := new Pixel[|f.values|](k requires 0 <= k < |f.values| => Num(f.values[k]));
    assert image[..] == RawPixels(f.values);
    var mask: array?<bool> := null;
    var maskLength := 0;
    var unit: Unit;
    var uncertainty: Option<NdArray> := None;
    if memmap {
      ReplaceSentinel(image, BAD_PIXEL_VALUE_UNSCALED, Num(0.0));
      unit := DnUnit("SJI_UNSCALED").value;
    } else {
      // The mask is taken from the values as read, before the replacement.
      var flags := SentinelMask(f.values, BAD_PIXEL_VALUE_SCALED);
      mask := new bool[|flags|](k requires 0 <= k < |flags| => flags[k]);
      assert mask[..] == flags;
      maskLength := mask.Length;
      ReplaceSentinel(image, BAD_PIXEL_VALUE_SCALED, NaN);
      unit := DnUnit("SJI").value;
      uncertainty := Some(NdArray(f.shape, f.uncertainty));
    }
    c := new IrisMapCube(NdArray(f.shape, image[..]), uncertainty, unit, MetaOf(f), mask, 0, maskLength,
                         VectorCoord(f.exposureTimes), [], Some(!memmap));
  }

  /**
   * read_iris_sji_level2_fits: one cube per file, in order. One filename
   * (a bare string or a one-element list) gives that cube; several give a
   * sequence (with the last file's meta), provided all OBSIDs and then all
   * passbands agree. An empty list fails when the sequence is built, because
   * the meta variable was never assigned.
   */
  method ReadIrisSjiLevel2Fits(filenames: FileNames, memmap: bool) returns (r: Result<SjiRead>)
    requires forall i :: 0 <= i < |Files(filenames)| ==> ValidFile(Files(filenames)[i])
    ensures var files := Files(filenames);
            |files| == 1 ==> r.Success? && r.value.OneCube? && fresh(r.value.cube) && ReadFrom(r.value.cube, files[0], memmap)
    ensures var files := Files(filenames);
            var metas := seq(|files|, i requires 0 <= i < |files| => MetaOf(files[i]));
            |files| != 1 ==>
              && (r.Success? <==> |files| >= 2 && SameObservation(metas).Pass?)
              && (r.Failure? ==> r.error == if SameObservation(metas).Fail? then SameObservation(metas).error
                                            else UnboundLocalError("meta"))
    ensures var files := Files(filenames);
            r.Success? && |files| >= 2 ==>
              && r.value.CubeSequence? && fresh(r.value.sequence)
              && r.value.sequence.meta == Some(MetaOf(files[|files| - 1])) && r.value.sequence.commonAxis == 0
              && |r.value.sequence.data| == |files|
              && forall i :: 0 <= i < |files| ==> fresh(r.value.sequence.data[i]) && ReadFrom(r.value.sequence.data[i], files[i], memmap)
  {
    var files := Files(filenames);
    var cubes: seq<IrisMapCube> := [];
    var i := 0;
    while i < |files|
      invariant 0 <= i <= |files| && |cubes| == i
      invariant forall j :: 0 <= j < i ==> fresh(cubes[j]) && (cubes[j].mask != null ==> fresh(cubes[j].mask))
      invariant forall j :: 0 <= j < i ==> ReadFrom(cubes[j], files[j], memmap)
    {
      var c := ReadCube(files[i], memmap);
      cubes := cubes + [c];
      i := i + 1;
    }
    if |files| == 1 {
      return Success(OneCube(cubes[0]));
    }
    var metas := seq(|cubes|, j requires 0 <= j < |cubes| => cubes[j].meta);
    assert metas == seq(|files|, j requires 0 <= j < |files| => MetaOf(files[j]));
    var check := SameObservation(metas);
    if check.Fail? {
      return Failure(check.error);
    }
    if |files| == 0 {
      return Failure(UnboundLocalError("meta"));
    }
    var s := new IrisMapCubeSequence(cubes, Some(cubes[|cubes| - 1].meta), 0);
    return Success(CubeSequence(s));
  }
}
