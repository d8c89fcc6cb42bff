/**
 * The unit-conversion helpers of the instrument's tools module, as far as
 * their behaviour is pinned down by the repository's tests: the detector-type
 * lookup, the DN <-> photon conversion and the exposure-time correction with
 * its inverse. Data arrays are flat sequences of pixels; real arithmetic
 * stands for the floating-point arithmetic of numpy.
 */
module IrisTools {
  import opened Wrappers

  // ---------------------------------------------------------------------------
  // Pixels
  // ---------------------------------------------------------------------------

  /** A pixel as numpy holds it: a number or NaN (NaN absorbs every operation). */
  datatype Pixel = Num(v: real) | NaN

  function Scale(p: Pixel, factor: real): Pixel
  {
    match p
    case Num(v) => Num(v * factor)
    case NaN => NaN
  }

  function Divide(p: Pixel, divisor: real): Pixel
    requires divisor != 0.0
  {
    match p
    case Num(v) => Num(v / divisor)
    case NaN => NaN
  }

  /** Multiplying by a factor undoes dividing by it, and the other way round. */
  lemma ScaleDivideCancel(p: Pixel, s: real)
    requires s != 0.0
    ensures Scale(Divide(p, s), s) == p
    ensures Divide(Scale(p, s), s) == p
  {
    if p.Num? {
      assert p.v / s * s == p.v;
      assert p.v * s / s == p.v;
    }
  }

  /** Scaling by f and then by g is scaling by f * g. */
  lemma ScaleTwice(p: Pixel, f: real, g: real)
    ensures Scale(Scale(p, f), g) == Scale(p, f * g)
  {
    if p.Num? {
      assert p.v * f * g == p.v * (f * g);
    }
  }

  // ---------------------------------------------------------------------------
  // Units
  // ---------------------------------------------------------------------------

  /** The base of a unit: one of the instrument's DN units or the photon. */
  datatype Base = DnFuv | DnNuv | DnSji | DnSjiUnscaled | Photon

  /** A base times seconds to an integer power: photon/s is Unit(Photon, -1). */
  datatype Unit = Unit(base: Base, secondsPower: int)

  const PHOTON: Unit := Unit(Photon, 0)

  /** The DN_UNIT table of the tools module, indexed by detector name. */
  function DnUnit(key: string): (r: Result<Unit>)
    ensures r.Success? <==> key in {"FUV", "NUV", "SJI", "SJI_UNSCALED"}
    ensures r.Success? ==> r.value.secondsPower == 0 && r.value.base != Photon
  {
    if key == "FUV" then Success(Unit(DnFuv, 0))
    else if key == "NUV" then Success(Unit(DnNuv, 0))
    else if key == "SJI" then Success(Unit(DnSji, 0))
    else if key == "SJI_UNSCALED" then Success(Unit(DnSjiUnscaled, 0))
    else Failure(KeyError(key))
  }

  /**
   * Photons per unit of a base: one FUV DN is 4 photons, one NUV or SJI DN
   * is 18 photons. The unscaled SJI DN is a plain count with no photon
   * equivalent.
   */
  function PhotonsPer(b: Base): (r: Option<real>)
    ensures r.Some? <==> b != DnSjiUnscaled
    ensures r.Some? ==> r.value > 0.0
  {
    match b
    case DnFuv => Some(4.0)
    case DnNuv => Some(18.0)
    case DnSji => Some(18.0)
    case Photon => Some(1.0)
    case DnSjiUnscaled => None
  }

  /**
   * The factor by which converting a value from oldUnit to newUnit multiplies
   * it, or None when the two units are not convertible (different powers of
   * seconds, or a count that has no photon equivalent).
   */
  function ConversionFactor(oldUnit: Unit, newUnit: Unit): (f: Option<real>)
    ensures f.Some? ==> f.value > 0.0
    ensures f.Some? ==> oldUnit.secondsPower == newUnit.secondsPower
    ensures oldUnit == newUnit ==> f == Some(1.0)
  {
    if oldUnit.secondsPower != newUnit.secondsPower then None
    else if oldUnit.base == newUnit.base then Some(1.0)
    else match (PhotonsPer(oldUnit.base), PhotonsPer(newUnit.base))
      case (Some(a), Some(b)) => Some(a / b)
      case _ => None
  }

  /** Converting back multiplies by the reciprocal factor. */
  lemma ConversionFactorReciprocal(oldUnit: Unit, newUnit: Unit)
    requires ConversionFactor(oldUnit, newUnit).Some?
    ensures ConversionFactor(newUnit, oldUnit).Some?
    ensures ConversionFactor(oldUnit, newUnit).value * ConversionFactor(newUnit, oldUnit).value == 1.0
  {
    if oldUnit.base != newUnit.base {
      var a := PhotonsPer(oldUnit.base).value;
      var b := PhotonsPer(newUnit.base).value;
      assert (a / b) * (b / a) == 1.0;
    }
  }

  // ---------------------------------------------------------------------------
  // Detector type
  // ---------------------------------------------------------------------------

  const DETECTOR_TYPE_KEY: string := "detector type"

  /**
   * get_detector_type: every FUV detector name ("FUV", "FUV1", "FUV2") is
   * reported as "FUV"; any other name is reported unchanged. A missing key
   * raises KeyError.
   */
  function GetDetectorType(meta: map<string, string>): (r: Result<string>)
    ensures DETECTOR_TYPE_KEY !in meta <==> r == Failure(KeyError(DETECTOR_TYPE_KEY))
    ensures r.Success? ==> r.value <= meta[DETECTOR_TYPE_KEY]
    ensures r.Success? ==> ("FUV" <= r.value <==> "FUV" <= meta[DETECTOR_TYPE_KEY])
    ensures r.Success? && "FUV" <= r.value ==> r.value == "FUV"
    ensures r.Success? && !("FUV" <= meta[DETECTOR_TYPE_KEY]) ==> r.value == meta[DETECTOR_TYPE_KEY]
  {
    if DETECTOR_TYPE_KEY !in meta then Failure(KeyError(DETECTOR_TYPE_KEY))
    else
      var name := meta[DETECTOR_TYPE_KEY];
      if "FUV" <= name then Success("FUV") else Success(name)
  }

  /** A reported detector type is a fixed point: looking it up again gives it back. */
  lemma DetectorTypeIsFixedPoint(meta: map<string, string>)
    requires GetDetectorType(meta).Success?
    ensures GetDetectorType(map[DETECTOR_TYPE_KEY := GetDetectorType(meta).value]) == GetDetectorType(meta)
  {
  }

  /** The three parametrised cases of the detector-type test. */
  lemma DetectorTypeTestCases()
    ensures GetDetectorType(map[DETECTOR_TYPE_KEY := "FUV1"]) == Success("FUV")
    ensures GetDetectorType(map[DETECTOR_TYPE_KEY := "NUV"]) == Success("NUV")
    ensures GetDetectorType(map[DETECTOR_TYPE_KEY := "SJI"]) == Success("SJI")
  {
    assert "FUV1"[..3] == "FUV";
    assert "NUV"[0] != "FUV"[0];
    assert "SJI"[0] != "FUV"[0];
  }

  // ---------------------------------------------------------------------------
  // DN <-> photon conversion
  // ---------------------------------------------------------------------------

  /** Every pixel of every array multiplied by factor. */
  function ScaleArrays(arrays: seq<seq<Pixel>>, factor: real): (r: seq<seq<Pixel>>)
    ensures |r| == |arrays|
    ensures forall i :: 0 <= i < |r| ==> |r[i]| == |arrays[i]|
  {
    seq(|arrays|, i requires 0 <= i < |arrays| =>
      seq(|arrays[i]|, k requires 0 <= k < |arrays[i]| => Scale(arrays[i][k], factor)))
  }

  lemma ScaleArraysTwice(arrays: seq<seq<Pixel>>, f: real, g: real)
    ensures ScaleArrays(ScaleArrays(arrays, f), g) == ScaleArrays(arrays, f * g)
  {
    var lhs := ScaleArrays(ScaleArrays(arrays, f), g);
    var rhs := ScaleArrays(arrays, f * g);
    forall i | 0 <= i < |arrays| ensures lhs[i] == rhs[i] {
      forall k | 0 <= k < |arrays[i]| ensures lhs[i][k] == rhs[i][k] {
        ScaleTwice(arrays[i][k], f, g);
      }
    }
  }

  lemma ScaleArraysByOne(arrays: seq<seq<Pixel>>)
    ensures ScaleArrays(arrays, 1.0) == arrays
  {
    var r := ScaleArrays(arrays, 1.0);
    forall i | 0 <= i < |arrays| ensures r[i] == arrays[i] {
      forall k | 0 <= k < |arrays[i]| ensures r[i][k] == arrays[i][k] {
        assert arrays[i][k].Num? ==> arrays[i][k].v * 1.0 == arrays[i][k].v;
      }
    }
  }

  /**
   * convert_between_DN_and_photons: every array is expressed in newUnit, which
   * becomes the unit of the result. Units that cannot be converted raise.
   */
  function ConvertBetweenDnAndPhotons(arrays: seq<seq<Pixel>>, oldUnit: Unit, newUnit: Unit)
    : (r: Result<(seq<seq<Pixel>>, Unit)>)
    ensures r.Success? <==> ConversionFactor(oldUnit, newUnit).Some?
    ensures r.Failure? ==> r.error == UnitConversionError
    ensures r.Success? ==> r.value.1 == newUnit && |r.value.0| == |arrays|
  {
    match ConversionFactor(oldUnit, newUnit)
    case Some(f) => Success((ScaleArrays(arrays, f), newUnit))
    case None => Failure(UnitConversionError)
  }

  /** DN -> photon multiplies by 4 (FUV), 18 (NUV) and 18 (SJI), at any power of seconds. */
  lemma DnToPhotonScales(arrays: seq<seq<Pixel>>, p: int)
    ensures ConvertBetweenDnAndPhotons(arrays, Unit(DnFuv, p), Unit(Photon, p))
         == Success((ScaleArrays(arrays, 4.0), Unit(Photon, p)))
    ensures ConvertBetweenDnAndPhotons(arrays, Unit(DnNuv, p), Unit(Photon, p))
         == Success((ScaleArrays(arrays, 18.0), Unit(Photon, p)))
    ensures ConvertBetweenDnAndPhotons(arrays, Unit(DnSji, p), Unit(Photon, p))
         == Success((ScaleArrays(arrays, 18.0), Unit(Photon, p)))
    ensures ConvertBetweenDnAndPhotons(arrays, Unit(DnSjiUnscaled, p), Unit(Photon, p))
         == Failure(UnitConversionError)
  {
    assert 4.0 / 1.0 == 4.0 && 18.0 / 1.0 == 18.0;
  }

  /** Converting back to the old unit restores the arrays and the unit exactly. */
  lemma {:induction false} ConversionRoundTrip(arrays: seq<seq<Pixel>>, oldUnit: Unit, newUnit: Unit)
    requires ConvertBetweenDnAndPhotons(arrays, oldUnit, newUnit).Success?
    ensures var there := ConvertBetweenDnAndPhotons(arrays, oldUnit, newUnit).value;
            ConvertBetweenDnAndPhotons(there.0, there.1, oldUnit) == Success((arrays, oldUnit))
  {
    var f := ConversionFactor(oldUnit, newUnit).value;
    ConversionFactorReciprocal(oldUnit, newUnit);
    var g := ConversionFactor(newUnit, oldUnit).value;
    ScaleArraysTwice(arrays, f, g);
    ScaleArraysByOne(arrays);
  }

  /** The literal arrays of the conversion test, row by row flattened. */
  const SOURCE_DATA_DN: seq<Pixel> :=
    [Num(0.563), Num(1.132), Num(-1.343), Num(-0.719), Num(1.441), Num(1.566)]
  const SOURCE_DATA_DN_1: seq<Pixel> :=
    [Num(1.0), Num(2.0), Num(3.0), Num(4.0), Num(5.0), Num(6.0)]
  const SOURCE_DATA_PHOTONS_FUV: seq<Pixel> :=
    [Num(2.252), Num(4.528), Num(-5.372), Num(-2.876), Num(5.764), Num(6.264)]
  const SOURCE_DATA_PHOTONS_NUV: seq<Pixel> :=
    [Num(10.134), Num(20.376), Num(-24.174), Num(-12.942), Num(25.938), Num(28.188)]
  const SOURCE_DATA_PHOTONS_SJI_1: seq<Pixel> :=
    [Num(18.0), Num(36.0), Num(54.0), Num(72.0), Num(90.0), Num(108.0)]

  /** Scaling a pair of equal arrays by factor gives the pair of `scaled`. */
  lemma ScalePair(a: seq<Pixel>, factor: real, scaled: seq<Pixel>)
    requires |scaled| == |a| && forall k :: 0 <= k < |a| ==> Scale(a[k], factor) == scaled[k]
    ensures ScaleArrays([a, a], factor) == [scaled, scaled]
  {
    var r := ScaleArrays([a, a], factor);
    assert r[0] == scaled;
    assert r[1] == scaled;
  }

  /** The six parametrised cases of the conversion test, two arrays each, hold exactly. */
  lemma ConversionTestCases()
    ensures ConvertBetweenDnAndPhotons([SOURCE_DATA_DN, SOURCE_DATA_DN], Unit(DnFuv, 0), PHOTON)
         == Success(([SOURCE_DATA_PHOTONS_FUV, SOURCE_DATA_PHOTONS_FUV], PHOTON))
    ensures ConvertBetweenDnAndPhotons([SOURCE_DATA_DN, SOURCE_DATA_DN], Unit(DnNuv, 0), PHOTON)
         == Success(([SOURCE_DATA_PHOTONS_NUV, SOURCE_DATA_PHOTONS_NUV], PHOTON))
    ensures ConvertBetweenDnAndPhotons([SOURCE_DATA_DN_1, SOURCE_DATA_DN_1], Unit(DnSji, 0), PHOTON)
         == Success(([SOURCE_DATA_PHOTONS_SJI_1, SOURCE_DATA_PHOTONS_SJI_1], PHOTON))
    ensures ConvertBetweenDnAndPhotons([SOURCE_DATA_PHOTONS_FUV, SOURCE_DATA_PHOTONS_FUV], PHOTON, Unit(DnFuv, 0))
         == Success(([SOURCE_DATA_DN, SOURCE_DATA_DN], Unit(DnFuv, 0)))
    ensures ConvertBetweenDnAndPhotons([SOURCE_DATA_PHOTONS_NUV, SOURCE_DATA_PHOTONS_NUV], PHOTON, Unit(DnNuv, 0))
         == Success(([SOURCE_DATA_DN, SOURCE_DATA_DN], Unit(DnNuv, 0)))
    ensures ConvertBetweenDnAndPhotons([SOURCE_DATA_PHOTONS_SJI_1, SOURCE_DATA_PHOTONS_SJI_1], PHOTON, Unit(DnSji, 0))
         == Success(([SOURCE_DATA_DN_1, SOURCE_DATA_DN_1], Unit(DnSji, 0)))
  {
    ScalePair(SOURCE_DATA_DN, 4.0, SOURCE_DATA_PHOTONS_FUV);
    ScalePair(SOURCE_DATA_DN, 18.0, SOURCE_DATA_PHOTONS_NUV);
    ScalePair(SOURCE_DATA_DN_1, 18.0, SOURCE_DATA_PHOTONS_SJI_1);
    ScalePair(SOURCE_DATA_PHOTONS_FUV, 1.0 / 4.0, SOURCE_DATA_DN);
    ScalePair(SOURCE_DATA_PHOTONS_NUV, 1.0 / 18.0, SOURCE_DATA_DN);
    ScalePair(SOURCE_DATA_PHOTONS_SJI_1, 1.0 / 18.0, SOURCE_DATA_DN_1);
  }

  // ---------------------------------------------------------------------------
  // Exposure-time correction
  // ---------------------------------------------------------------------------

  /**
   * An exposure time as the helpers receive it: one value for the whole array,
   * or one value per frame of axis 0 (a vector reshaped so that numpy
   * broadcasts it along axis 0), each frame holding frameSize pixels.
   */
  datatype ExposureTime = Scalar(seconds: real) | PerFrame(frames: seq<real>, frameSize: nat)

  /** The exposure time broadcasts against a flat array of n pixels. */
  predicate FitsArray(e: ExposureTime, n: nat)
  {
    e.PerFrame? ==> n == |e.frames| * e.frameSize
  }

  /** No exposure time is zero (a zero would make numpy produce inf or NaN). */
  predicate NonzeroExposure(e: ExposureTime)
  {
    match e
    case Scalar(s) => s != 0.0
    case PerFrame(fs, _) => forall t :: 0 <= t < |fs| ==> fs[t] != 0.0
  }

  predicate ExposureFits(arrays: seq<seq<Pixel>>, e: ExposureTime)
  {
    NonzeroExposure(e) && forall i :: 0 <= i < |arrays| ==> FitsArray(e, |arrays[i]|)
  }

  /**
   * The frame that flat position k of a frame-major array lies in, when every
   * frame holds `size` pixels: the floor division k // size, by repeated
   * subtraction.
   */
  function FrameOf(k: nat, size: nat): nat
    requires size > 0
  {
    if k < size then 0 else 1 + FrameOf(k - size, size)
  }

  /** Position r of frame t lies in frame t. */
  lemma {:induction false} FrameOfFrame(t: nat, size: nat, r: nat)
    requires r < size
    ensures FrameOf(t * size + r, size) == t
  {
    if t > 0 {
      assert t * size + r - size == (t - 1) * size + r;
      FrameOfFrame(t - 1, size, r);
    }
  }

  /** Flat position k of a frame-major array of `frames` frames lies in one of them. */
  lemma {:induction false} FrameIndexInRange(k: nat, frames: nat, frameSize: nat)
    requires k < frames * frameSize
    ensures frameSize > 0 && FrameOf(k, frameSize) < frames
  {
    if frameSize > 0 && k >= frameSize {
      assert (frames - 1) * frameSize == frames * frameSize - frameSize;
      FrameIndexInRange(k - frameSize, frames - 1, frameSize);
    }
  }

  /** The exposure time numpy broadcasts onto flat position k of an n-pixel array. */
  function ExposureAt(e: ExposureTime, n: nat, k: nat): (s: real)
    requires FitsArray(e, n) && k < n
    ensures NonzeroExposure(e) ==> s != 0.0
    ensures e.PerFrame? ==> e.frameSize > 0 && FrameOf(k, e.frameSize) < |e.frames|
                            && s == e.frames[FrameOf(k, e.frameSize)]
  {
    match e
    case Scalar(s) => s
    case PerFrame(fs, size) =>
      FrameIndexInRange(k, |fs|, size);
      fs[FrameOf(k, size)]
  }

  predicate HasInverseTime(u: Unit)
  {
    u.secondsPower < 0
  }

  function DivideByExposure(arrays: seq<seq<Pixel>>, e: ExposureTime): (r: seq<seq<Pixel>>)
    requires ExposureFits(arrays, e)
    ensures |r| == |arrays|
    ensures forall i :: 0 <= i < |r| ==> |r[i]| == |arrays[i]|
  {
    seq(|arrays|, i requires 0 <= i < |arrays| =>
      seq(|arrays[i]|, k requires 0 <= k < |arrays[i]| =>
        Divide(arrays[i][k], ExposureAt(e, |arrays[i]|, k))))
  }

  function MultiplyByExposure(arrays: seq<seq<Pixel>>, e: ExposureTime): (r: seq<seq<Pixel>>)
    requires ExposureFits(arrays, e)
    ensures |r| == |arrays|
    ensures forall i :: 0 <= i < |r| ==> |r[i]| == |arrays[i]|
  {
    seq(|arrays|, i requires 0 <= i < |arrays| =>
      seq(|arrays[i]|, k requires 0 <= k < |arrays[i]| =>
        Scale(arrays[i][k], ExposureAt(e, |arrays[i]|, k))))
  }

  lemma MultiplyUndoesDivide(arrays: seq<seq<Pixel>>, e: ExposureTime)
    requires ExposureFits(arrays, e)
    ensures ExposureFits(DivideByExposure(arrays, e), e)
    ensures MultiplyByExposure(DivideByExposure(arrays, e), e) == arrays
  {
    var d := DivideByExposure(arrays, e);
    var m := MultiplyByExposure(d, e);
    forall i | 0 <= i < |arrays| ensures m[i] == arrays[i] {
      forall k | 0 <= k < |arrays[i]| ensures m[i][k] == arrays[i][k] {
        ScaleDivideCancel(arrays[i][k], ExposureAt(e, |arrays[i]|, k));
      }
    }
  }

  lemma DivideUndoesMultiply(arrays: seq<seq<Pixel>>, e: ExposureTime)
    requires ExposureFits(arrays, e)
    ensures ExposureFits(MultiplyByExposure(arrays, e), e)
    ensures DivideByExposure(MultiplyByExposure(arrays, e), e) == arrays
  {
    var m := MultiplyByExposure(arrays, e);
    var d := DivideByExposure(m, e);
    forall i | 0 <= i < |arrays| ensures d[i] == arrays[i] {
      forall k | 0 <= k < |arrays[i]| ensures d[i][k] == arrays[i][k] {
        ScaleDivideCancel(arrays[i][k], ExposureAt(e, |arrays[i]|, k));
      }
    }
  }

  /**
   * calculate_exposure_time_correction: divides every pixel by its exposure
   * time and adds a factor 1/s to the unit. Unless forced, a unit that already
   * carries inverse time raises ValueError.
   */
  function CalculateExposureTimeCorrection(arrays: seq<seq<Pixel>>, unit: Unit, e: ExposureTime, force: bool)
    : (r: Result<(seq<seq<Pixel>>, Unit)>)
    requires ExposureFits(arrays, e)
    ensures r.Failure? <==> !force && HasInverseTime(unit)
    ensures r.Failure? ==> r.error.ValueError?
    ensures r.Success? ==> r.value.1 == Unit(unit.base, unit.secondsPower - 1)
    ensures r.Success? ==> ExposureFits(r.value.0, e) && MultiplyByExposure(r.value.0, e) == arrays
  {
    if !force && HasInverseTime(unit) then
      Failure(ValueError("data already in units of exposure time"))
    else
      MultiplyUndoesDivide(arrays, e);
      Success((DivideByExposure(arrays, e), Unit(unit.base, unit.secondsPower - 1)))
  }

  /**
   * uncalculate_exposure_time_correction: multiplies every pixel by its
   * exposure time and removes a factor 1/s from the unit. Unless forced, a unit
   * without inverse time raises ValueError.
   */
  function UncalculateExposureTimeCorrection(arrays: seq<seq<Pixel>>, unit: Unit, e: ExposureTime, force: bool)
    : (r: Result<(seq<seq<Pixel>>, Unit)>)
    requires ExposureFits(arrays, e)
    ensures r.Failure? <==> !force && !HasInverseTime(unit)
    ensures r.Failure? ==> r.error.ValueError?
    ensures r.Success? ==> r.value.1 == Unit(unit.base, unit.secondsPower + 1)
    ensures r.Success? ==> ExposureFits(r.value.0, e) && DivideByExposure(r.value.0, e) == arrays
  {
    if !force && !HasInverseTime(unit) then
      Failure(ValueError("data not in units of exposure time"))
    else
      DivideUndoesMultiply(arrays, e);
      Success((MultiplyByExposure(arrays, e), Unit(unit.base, unit.secondsPower + 1)))
  }

  /** Applying and then undoing the correction, both unforced, from a unit without seconds restores data and unit. */
  lemma UncalculateUndoesCalculate(arrays: seq<seq<Pixel>>, unit: Unit, e: ExposureTime)
    requires ExposureFits(arrays, e) && unit.secondsPower == 0
    ensures CalculateExposureTimeCorrection(arrays, unit, e, false).Success?
    ensures var c := CalculateExposureTimeCorrection(arrays, unit, e, false).value;
            ExposureFits(c.0, e) && UncalculateExposureTimeCorrection(c.0, c.1, e, false) == Success((arrays, unit))
  {
  }

  /** Undoing and then re-applying, both unforced, from a rate unit (1/s) restores data and unit. */
  lemma CalculateUndoesUncalculate(arrays: seq<seq<Pixel>>, unit: Unit, e: ExposureTime)
    requires ExposureFits(arrays, e) && unit.secondsPower == -1
    ensures UncalculateExposureTimeCorrection(arrays, unit, e, false).Success?
    ensures var c := UncalculateExposureTimeCorrection(arrays, unit, e, false).value;
            ExposureFits(c.0, e) && CalculateExposureTimeCorrection(c.0, c.1, e, false) == Success((arrays, unit))
  {
  }

  /** Forced, the two corrections are inverse to each other whatever the unit. */
  lemma ForcedCorrectionsInvert(arrays: seq<seq<Pixel>>, unit: Unit, e: ExposureTime)
    requires ExposureFits(arrays, e)
    ensures var c := CalculateExposureTimeCorrection(arrays, unit, e, true).value;
            ExposureFits(c.0, e) && UncalculateExposureTimeCorrection(c.0, c.1, e, true) == Success((arrays, unit))
    ensures var u := UncalculateExposureTimeCorrection(arrays, unit, e, true).value;
            ExposureFits(u.0, e) && CalculateExposureTimeCorrection(u.0, u.1, e, true) == Success((arrays, unit))
  {
  }

  /** Correcting twice without force raises on the second call; forced, it gives s^-2. */
  lemma CorrectingTwice(arrays: seq<seq<Pixel>>, unit: Unit, e: ExposureTime)
    requires ExposureFits(arrays, e) && unit.secondsPower == 0
    ensures var c := CalculateExposureTimeCorrection(arrays, unit, e, false).value;
            ExposureFits(c.0, e) && CalculateExposureTimeCorrection(c.0, c.1, e, false).Failure?
    ensures var c := CalculateExposureTimeCorrection(arrays, unit, e, true).value;
            ExposureFits(c.0, e) && CalculateExposureTimeCorrection(c.0, c.1, e, true).value.1 == Unit(unit.base, -2)
  {
  }

  /** SOURCE_DATA_DN divided by and multiplied by the tests' exposure time of 2 s. */
  const SOURCE_DATA_DN_HALVED: seq<Pixel> :=
    [Num(0.2815), Num(0.566), Num(-0.6715), Num(-0.3595), Num(0.7205), Num(0.783)]
  const SOURCE_DATA_DN_DOUBLED: seq<Pixel> :=
    [Num(1.126), Num(2.264), Num(-2.686), Num(-1.438), Num(2.882), Num(3.132)]

  /** Over the tests' pair of DN arrays, the 2 s exposure halves and doubles every pixel. */
  lemma TestPairByExposure()
    ensures ExposureFits([SOURCE_DATA_DN, SOURCE_DATA_DN], Scalar(2.0))
    ensures DivideByExposure([SOURCE_DATA_DN, SOURCE_DATA_DN], Scalar(2.0))
         == [SOURCE_DATA_DN_HALVED, SOURCE_DATA_DN_HALVED]
    ensures MultiplyByExposure([SOURCE_DATA_DN, SOURCE_DATA_DN], Scalar(2.0))
         == [SOURCE_DATA_DN_DOUBLED, SOURCE_DATA_DN_DOUBLED]
  {
    var d := DivideByExposure([SOURCE_DATA_DN, SOURCE_DATA_DN], Scalar(2.0));
    assert d[0] == SOURCE_DATA_DN_HALVED;
    assert d[1] == SOURCE_DATA_DN_HALVED;
    var m := MultiplyByExposure([SOURCE_DATA_DN, SOURCE_DATA_DN], Scalar(2.0));
    assert m[0] == SOURCE_DATA_DN_DOUBLED;
    assert m[1] == SOURCE_DATA_DN_DOUBLED;
  }

  /**
   * The parametrised cases of the exposure-correction tests, two DN arrays
   * each, with every pixel's exposure time 2 s: the four applications and
   * their two errors, the four removals and their two errors.
   */
  lemma ExposureCorrectionTestCases()
    ensures CalculateExposureTimeCorrection([SOURCE_DATA_DN, SOURCE_DATA_DN], PHOTON, Scalar(2.0), false)
         == Success(([SOURCE_DATA_DN_HALVED, SOURCE_DATA_DN_HALVED], Unit(Photon, -1)))
    ensures CalculateExposureTimeCorrection([SOURCE_DATA_DN, SOURCE_DATA_DN], Unit(DnNuv, 0), Scalar(2.0), false)
         == Success(([SOURCE_DATA_DN_HALVED, SOURCE_DATA_DN_HALVED], Unit(DnNuv, -1)))
    ensures CalculateExposureTimeCorrection([SOURCE_DATA_DN, SOURCE_DATA_DN], Unit(Photon, -1), Scalar(2.0), true)
         == Success(([SOURCE_DATA_DN_HALVED, SOURCE_DATA_DN_HALVED], Unit(Photon, -2)))
    ensures CalculateExposureTimeCorrection([SOURCE_DATA_DN, SOURCE_DATA_DN], Unit(DnNuv, -1), Scalar(2.0), true)
         == Success(([SOURCE_DATA_DN_HALVED, SOURCE_DATA_DN_HALVED], Unit(DnNuv, -2)))
    ensures CalculateExposureTimeCorrection([SOURCE_DATA_DN, SOURCE_DATA_DN], Unit(Photon, -1), Scalar(2.0), false).Failure?
    ensures CalculateExposureTimeCorrection([SOURCE_DATA_DN, SOURCE_DATA_DN], Unit(DnNuv, -1), Scalar(2.0), false).Failure?
    ensures UncalculateExposureTimeCorrection([SOURCE_DATA_DN, SOURCE_DATA_DN], Unit(Photon, -1), Scalar(2.0), false)
         == Success(([SOURCE_DATA_DN_DOUBLED, SOURCE_DATA_DN_DOUBLED], PHOTON))
    ensures UncalculateExposureTimeCorrection([SOURCE_DATA_DN, SOURCE_DATA_DN], Unit(DnNuv, -1), Scalar(2.0), false)
         == Success(([SOURCE_DATA_DN_DOUBLED, SOURCE_DATA_DN_DOUBLED], Unit(DnNuv, 0)))
    ensures UncalculateExposureTimeCorrection([SOURCE_DATA_DN, SOURCE_DATA_DN], PHOTON, Scalar(2.0), true)
         == Success(([SOURCE_DATA_DN_DOUBLED, SOURCE_DATA_DN_DOUBLED], Unit(Photon, 1)))
    ensures UncalculateExposureTimeCorrection([SOURCE_DATA_DN, SOURCE_DATA_DN], Unit(DnFuv, 0), Scalar(2.0), true)
         == Success(([SOURCE_DATA_DN_DOUBLED, SOURCE_DATA_DN_DOUBLED], Unit(DnFuv, 1)))
    ensures UncalculateExposureTimeCorrection([SOURCE_DATA_DN, SOURCE_DATA_DN], PHOTON, Scalar(2.0), false).Failure?
    ensures UncalculateExposureTimeCorrection([SOURCE_DATA_DN, SOURCE_DATA_DN], Unit(DnNuv, 0), Scalar(2.0), false).Failure?
  {
    TestPairByExposure();
  }
}
