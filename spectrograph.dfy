/**
 * The IRIS spectrograph reader's bookkeeping: choosing spectral windows,
 * building one cube list per window across raster files, labelling every
 * raster position with its file, stacking the auxiliary arrays and building
 * the auxiliary-data table. FITS decoding and WCS are outside the model; each
 * raster file is given as the header values and arrays the code reads.
 */
module Spectrograph {
  import opened Wrappers
  import opened IrisTools
  import Sji

  // ---------------------------------------------------------------------------
  // Input files
  // ---------------------------------------------------------------------------

  /** TDESCi, TDETi, TWAVEi, TWMINi, TWMAXi of one spectral window in the primary header. */
  datatype WindowKeywords = WindowKeywords(tdesc: string, tdet: string, twave: real, twmin: real, twmax: real)

  /** A 2-D array of reals with `width` columns. */
  datatype Matrix = Matrix(width: nat, rows: seq<seq<real>>)

  predicate WellFormed(m: Matrix)
  {
    forall i :: 0 <= i < |m.rows| ==> |m.rows[i]| == m.width
  }

  /**
   * One level-2 raster file: its primary header (kept as the meta), the
   * keywords of its NWIN windows, the raw data of each window extension, NAXIS3
   * of the first window extension, and the auxiliary extension's header cards
   * (keyword and integer value, in header order) and data.
   */
  datatype SpecFile = SpecFile(header: map<string, string>, keywords: seq<WindowKeywords>,
                               windowData: seq<seq<real>>, naxis3: nat,
                               auxHeader: seq<(string, int)>, aux: Matrix)

  /** A raster file has one extension per window that NWIN announces. */
  predicate ValidSpecFile(f: SpecFile)
  {
    |f.keywords| == |f.windowData| && WellFormed(f.aux)
  }

  /** Files of one observation: the same windows in every file. */
  predicate ValidFiles(files: seq<SpecFile>)
  {
    forall f :: 0 <= f < |files| ==> ValidSpecFile(files[f]) && |files[f].windowData| == |files[0].windowData|
  }

  /** One filename string, or a list of them. */
  datatype SpecFileNames = OneFile(file: SpecFile) | FileList(files: seq<SpecFile>)

  function Files(names: SpecFileNames): seq<SpecFile>
  {
    match names
    case OneFile(f) => [f]
    case FileList(fs) => fs
  }

  // ---------------------------------------------------------------------------
  // Spectral window selection
  // ---------------------------------------------------------------------------

  /** The spectral_windows argument: one window name (or "All"), or a list of names. */
  datatype WindowRequest = Named(name: string) | Listed(names: seq<string>)

  const ALL_WINDOWS: WindowRequest := Named("All")
  const MISSING_WINDOWS_MESSAGE: string := "Spectral windows not in file"

  /** 1, 2, ..., n. */
  function OneTo(n: nat): (r: seq<nat>)
    ensures |r| == n && forall i :: 0 <= i < n ==> r[i] == i + 1
  {
    seq(n, i requires 0 <= i < n => i + 1)
  }

  /** The 1-based positions of the observation's windows whose name is wanted, in observation order. */
  function Positions(obs: seq<string>, wanted: seq<string>): (p: seq<nat>)
    ensures |p| <= |obs|
    ensures forall v :: v in p <==> 1 <= v <= |obs| && obs[v - 1] in wanted
    ensures forall i, j :: 0 <= i < j < |p| ==> p[i] < p[j]
  {
    if obs == [] then []
    else
      var rest := Positions(obs[..|obs| - 1], wanted);
      PositionsStep(obs, wanted, rest);
      rest + (if obs[|obs| - 1] in wanted then [|obs|] else [])
  }

  lemma PositionsStep(obs: seq<string>, wanted: seq<string>, rest: seq<nat>)
    requires obs != []
    requires forall v :: v in rest <==> 1 <= v <= |obs| - 1 && obs[..|obs| - 1][v - 1] in wanted
    requires forall i, j :: 0 <= i < j < |rest| ==> rest[i] < rest[j]
    ensures var p := rest + (if obs[|obs| - 1] in wanted then [|obs|] else []);
            && (forall v :: v in p <==> 1 <= v <= |obs| && obs[v - 1] in wanted)
            && (forall i, j :: 0 <= i < j < |p| ==> p[i] < p[j])
  {
    var p := rest + (if obs[|obs| - 1] in wanted then [|obs|] else []);
    forall v
      ensures v in p <==> 1 <= v <= |obs| && obs[v - 1] in wanted
    {
      if 1 <= v <= |obs| - 1 {
        assert obs[..|obs| - 1][v - 1] == obs[v - 1];
      }
    }
    forall i, j | 0 <= i < j < |p|
      ensures p[i] < p[j]
    {
      if j == |rest| {
        assert rest[i] in rest;
      }
    }
  }

  /** The names a request asks for (for a request other than "All"). */
  function Requested(request: WindowRequest): seq<string>
  {
    match request
    case Named(n) => [n]
    case Listed(ns) => ns
  }

  /**
   * The window selection as written: "All" takes every window extension; a
   * list request reaches the array conversion with the requested-names
   * variable never assigned; a missing window makes the error message index
   * the request string with a boolean array, which raises TypeError.
   */
  function SelectWindowsAsWritten(obs: seq<string>, request: WindowRequest, windowHdus: nat): (r: Result<seq<nat>>)
    ensures request == ALL_WINDOWS ==> r == Success(OneTo(windowHdus))
    ensures request.Listed? ==> r == Failure(UnboundLocalError("spectral_windows_req"))
    ensures request.Named? && request != ALL_WINDOWS ==>
              (r.Success? <==> request.name in obs) && (r.Failure? ==> r.error == TypeError)
    ensures request.Named? && request != ALL_WINDOWS && r.Success? ==>
              forall v :: v in r.value <==> 1 <= v <= |obs| && obs[v - 1] == request.name
  {
    if request == ALL_WINDOWS then Success(OneTo(windowHdus))
    else if request.Listed? then Failure(UnboundLocalError("spectral_windows_req"))
    else if request.name !in obs then Failure(TypeError)
    else Success(Positions(obs, [request.name]))
  }

  /**
   * The window selection as evidently intended: a name or a list of names is
   * accepted; any requested window missing from the observation raises
   * ValueError; otherwise the selected FITS indices are the 1-based positions
   * of the requested windows in observation order.
   */
  function SelectWindows(obs: seq<string>, request: WindowRequest, windowHdus: nat): (r: Result<seq<nat>>)
    ensures request == ALL_WINDOWS ==> r == Success(OneTo(windowHdus))
    ensures request != ALL_WINDOWS ==>
              (r.Success? <==> forall w :: w in Requested(request) ==> w in obs)
    ensures r.Failure? ==> r == Failure(ValueError(MISSING_WINDOWS_MESSAGE))
    ensures r.Success? ==> forall i, j :: 0 <= i < j < |r.value| ==> r.value[i] < r.value[j]
    ensures request != ALL_WINDOWS && r.Success? ==>
              forall v :: v in r.value <==> 1 <= v <= |obs| && obs[v - 1] in Requested(request)
  {
    if request == ALL_WINDOWS then Success(OneTo(windowHdus))
    else if exists w :: w in Requested(request) && w !in obs then Failure(ValueError(MISSING_WINDOWS_MESSAGE))
    else Success(Positions(obs, Requested(request)))
  }

  /** The two selections agree on "All" and on a single window name that the observation has. */
  lemma SelectionAgreesOnPresentNames(obs: seq<string>, request: WindowRequest, windowHdus: nat)
    requires request.Named? && (request == ALL_WINDOWS || request.name in obs)
    ensures SelectWindowsAsWritten(obs, request, windowHdus) == SelectWindows(obs, request, windowHdus)
  {
    if request != ALL_WINDOWS {
      assert Requested(request) == [request.name];
      assert forall w :: w in Requested(request) ==> w in obs;
    }
  }

  /** A list request: the written code fails where the intended selection succeeds. */
  lemma ListRequestAsWrittenFails()
    ensures SelectWindowsAsWritten(["Si IV 1403"], Listed(["Si IV 1403"]), 1)
              == Failure(UnboundLocalError("spectral_windows_req"))
    ensures SelectWindows(["Si IV 1403"], Listed(["Si IV 1403"]), 1) == Success([1])
  {
    var obs := ["Si IV 1403"];
    assert obs[..0] == [];
    assert Positions(obs, obs) == [1];
    assert forall w :: w in Requested(Listed(obs)) ==> w in obs;
  }

  /** A missing window: the written code raises TypeError instead of the intended ValueError. */
  lemma MissingWindowAsWrittenRaisesTypeError()
    ensures SelectWindowsAsWritten(["Si IV 1403"], Named("Mg II k 2796"), 1) == Failure(TypeError)
    ensures SelectWindows(["Si IV 1403"], Named("Mg II k 2796"), 1) == Failure(ValueError(MISSING_WINDOWS_MESSAGE))
  {
    assert "Mg II k 2796"[0] != "Si IV 1403"[0];
    assert "Mg II k 2796" in Requested(Named("Mg II k 2796"));
  }

  /** The TDESC names of a list of windows: those of the observation, or of the window table. */
  function ObservedWindows(keywords: seq<WindowKeywords>): (names: seq<string>)
    ensures |names| == |keywords| && forall i :: 0 <= i < |keywords| ==> names[i] == keywords[i].tdesc
  {
    seq(|keywords|, i requires 0 <= i < |keywords| => keywords[i].tdesc)
  }

  /** The spectral-window table: the keywords of every selected window, in index order. */
  function WindowTable(keywords: seq<WindowKeywords>, indices: seq<nat>): (t: seq<WindowKeywords>)
    requires forall i :: 0 <= i < |indices| ==> 1 <= indices[i] <= |keywords|
    ensures |t| == |indices| && forall i :: 0 <= i < |indices| ==> t[i] == keywords[indices[i] - 1]
  {
    seq(|indices|, i requires 0 <= i < |indices| => keywords[indices[i] - 1])
  }

  /** The selected indices name window extensions that exist. */
  lemma SelectedIndicesInRange(f: SpecFile, request: WindowRequest)
    requires ValidSpecFile(f)
    requires SelectWindows(ObservedWindows(f.keywords), request, |f.windowData|).Success?
    ensures var indices := SelectWindows(ObservedWindows(f.keywords), request, |f.windowData|).value;
            forall i :: 0 <= i < |indices| ==> 1 <= indices[i] <= |f.keywords|
  {
    var indices := SelectWindows(ObservedWindows(f.keywords), request, |f.windowData|).value;
    forall i | 0 <= i < |indices|
      ensures 1 <= indices[i] <= |f.keywords|
    {
      assert indices[i] in indices;
    }
  }

  // ---------------------------------------------------------------------------
  // Per-window cube lists
  // ---------------------------------------------------------------------------

  /** A window cube: NaN where the raw data hold the bad-pixel value, and a mask of exactly those pixels. */
  datatype SpecCube = SpecCube(data: seq<Pixel>, mask: seq<bool>, meta: map<string, string>)

  function CubeOf(raw: seq<real>, meta: map<string, string>): (c: SpecCube)
    ensures |c.data| == |raw| && |c.mask| == |raw| && c.meta == meta
    ensures forall k :: 0 <= k < |raw| ==> (c.mask[k] <==> raw[k] == Sji.BAD_PIXEL_VALUE_SCALED)
    ensures forall k :: 0 <= k < |raw| ==> c.data[k] == if raw[k] == Sji.BAD_PIXEL_VALUE_SCALED then NaN else Num(raw[k])
  {
    SpecCube(Sji.Replaced(Sji.RawPixels(raw), Sji.BAD_PIXEL_VALUE_SCALED, NaN),
             Sji.SentinelMask(raw, Sji.BAD_PIXEL_VALUE_SCALED), meta)
  }

  /** The cube file f contributes for the window at table position i. */
  function WindowCube(f: SpecFile, indices: seq<nat>, i: nat): SpecCube
    requires i < |indices| && 1 <= indices[i] <= |f.windowData|
  {
    CubeOf(f.windowData[indices[i] - 1], f.header)
  }

  /** Every selected index names a window extension of the file. */
  predicate IndicesFitFile(f: SpecFile, indices: seq<nat>)
  {
    forall i :: 0 <= i < |indices| ==> 1 <= indices[i] <= |f.windowData|
  }

  predicate IndicesFit(files: seq<SpecFile>, indices: seq<nat>)
  {
    forall f :: 0 <= f < |files| ==> IndicesFitFile(files[f], indices)
  }

  /** The cubes file f appends to window `name`'s list while visiting table positions 0 .. n-1. */
  function FileCubes(f: SpecFile, indices: seq<nat>, names: seq<string>, name: string, n: nat): (r: seq<SpecCube>)
    requires n <= |names| == |indices| && IndicesFitFile(f, indices)
    ensures |r| <= n
  {
    if n == 0 then []
    else FileCubes(f, indices, names, name, n - 1) + (if names[n - 1] == name then [WindowCube(f, indices, n - 1)] else [])
  }

  /** Window `name`'s cube list after files 0 .. f-1. */
  function WindowCubes(files: seq<SpecFile>, f: nat, indices: seq<nat>, names: seq<string>, name: string): (r: seq<SpecCube>)
    requires f <= |files| && |names| == |indices| && IndicesFit(files, indices)
    ensures |r| <= f * |names|
    ensures name !in names ==> r == []
  {
    if f == 0 then []
    else
      var before := WindowCubes(files, f - 1, indices, names, name);
      assert (f - 1) * |names| + |names| == f * |names|;
      assert name !in names ==> FileCubes(files[f - 1], indices, names, name, |names|) == [] by {
        if name !in names {
          FileCubesMissing(files[f - 1], indices, names, name, |names|);
        }
      }
      before + FileCubes(files[f - 1], indices, names, name, |names|)
  }

  /** A name missing from the table collects no cube. */
  lemma {:induction false} FileCubesMissing(f: SpecFile, indices: seq<nat>, names: seq<string>, name: string, n: nat)
    requires n <= |names| == |indices| && IndicesFitFile(f, indices) && name !in names
    ensures FileCubes(f, indices, names, name, n) == []
  {
    if n > 0 {
      FileCubesMissing(f, indices, names, name, n - 1);
    }
  }

  predicate NoDuplicates(s: seq<string>)
  {
    forall i, j :: 0 <= i < j < |s| ==> s[i] != s[j]
  }

  /** A file contributes exactly one cube to a window whose name appears once in the table. */
  lemma {:induction false} FileCubesUnique(f: SpecFile, indices: seq<nat>, names: seq<string>, p: nat, n: nat)
    requires n <= |names| == |indices| && p < |names| && IndicesFitFile(f, indices)
    requires forall k :: 0 <= k < |names| && k != p ==> names[k] != names[p]
    ensures FileCubes(f, indices, names, names[p], n) == if p < n then [WindowCube(f, indices, p)] else []
  {
    if n > 0 {
      FileCubesUnique(f, indices, names, p, n - 1);
      if n - 1 != p {
        assert names[n - 1] != names[p];
      }
    }
  }

  /**
   * When window p's name appears once in the table, its list holds exactly one
   * cube per file, in file order, made from that file's extension for the window.
   */
  lemma {:induction false} OneCubePerFile(files: seq<SpecFile>, f: nat, indices: seq<nat>, names: seq<string>, p: nat)
    requires f <= |files| && |names| == |indices| && IndicesFit(files, indices) && p < |names|
    requires forall k :: 0 <= k < |names| && k != p ==> names[k] != names[p]
    ensures var cubes := WindowCubes(files, f, indices, names, names[p]);
            |cubes| == f && forall g :: 0 <= g < f ==> cubes[g] == WindowCube(files[g], indices, p)
  {
    if f > 0 {
      OneCubePerFile(files, f - 1, indices, names, p);
      FileCubesUnique(files[f - 1], indices, names, p, |names|);
      var before := WindowCubes(files, f - 1, indices, names, names[p]);
      assert WindowCubes(files, f, indices, names, names[p]) == before + [WindowCube(files[f - 1], indices, p)];
    }
  }

  /** Appends file f's cube for every table position to its window's list (one pass of the window loop). */
  method AppendFileCubes(lists: map<string, seq<SpecCube>>, f: SpecFile, indices: seq<nat>, names: seq<string>)
    returns (out: map<string, seq<SpecCube>>)
    requires |names| == |indices| && IndicesFitFile(f, indices)
    requires forall n :: n in names ==> n in lists
    ensures out.Keys == lists.Keys
    ensures forall n :: n in names ==> out[n] == lists[n] + FileCubes(f, indices, names, n, |names|)
  {
    out := lists;
    var i := 0;
    while i < |names|
      invariant 0 <= i <= |names| && out.Keys == lists.Keys
      invariant forall n :: n in names ==> out[n] == lists[n] + FileCubes(f, indices, names, n, i)
    {
      var name := names[i];
      out := out[name := out[name] + [CubeOf(f.windowData[indices[i] - 1], f.header)]];
      i := i + 1;
    }
  }

  // ---------------------------------------------------------------------------
  // Scan labels
  // ---------------------------------------------------------------------------

  function DigitChar(d: nat): char
    requires d < 10
  {
    "0123456789"[d]
  }

  function DigitValue(c: char): nat
  {
    if '0' <= c <= '9' then (c - '0') as nat else 0
  }

  /** Decimal notation of n, as Python's str.format writes it. */
  function DecimalString(n: nat): (s: string)
    ensures |s| >= 1
  {
    if n < 10 then [DigitChar(n)] else DecimalString(n / 10) + [DigitChar(n % 10)]
  }

  function ParseDecimal(s: string): nat
  {
    if s == [] then 0 else ParseDecimal(s[..|s| - 1]) * 10 + DigitValue(s[|s| - 1])
  }

  lemma DigitRoundTrip(d: nat)
    requires d < 10
    ensures DigitValue(DigitChar(d)) == d
  {
  }

  /** Reading a decimal string back gives the number written. */
  lemma {:induction false} DecimalRoundTrip(n: nat)
    ensures ParseDecimal(DecimalString(n)) == n
  {
    if n < 10 {
      DigitRoundTrip(n);
      assert [DigitChar(n)][..0] == [];
    } else {
      var s := DecimalString(n);
      assert s[..|s| - 1] == DecimalString(n / 10);
      DecimalRoundTrip(n / 10);
      DigitRoundTrip(n % 10);
    }
  }

  /** "scan{f}". */
  function ScanLabel(f: nat): string
  {
    "scan" + DecimalString(f)
  }

  /** Different files get different scan labels. */
  lemma ScanLabelInjective(f: nat, g: nat)
    requires ScanLabel(f) == ScanLabel(g)
    ensures f == g
  {
    assert DecimalString(f) == ScanLabel(f)[4..];
    assert DecimalString(g) == ScanLabel(g)[4..];
    DecimalRoundTrip(f);
    DecimalRoundTrip(g);
  }

  function Repeat(x: string, n: nat): (r: seq<string>)
    ensures |r| == n && forall i :: 0 <= i < n ==> r[i] == x
  {
    seq(n, i requires 0 <= i < n => x)
  }

  function Sum(counts: seq<nat>): nat
  {
    if counts == [] then 0 else Sum(counts[..|counts| - 1]) + counts[|counts| - 1]
  }

  /** raster_index_to_file after files 0 .. |counts|-1 with those NAXIS3 values. */
  function ScanLabels(counts: seq<nat>): (r: seq<string>)
    ensures |r| == Sum(counts)
  {
    if counts == [] then [] else ScanLabels(counts[..|counts| - 1]) + Repeat(ScanLabel(|counts| - 1), counts[|counts| - 1])
  }

  /**
   * There is one label per raster position, and file f's NAXIS3 positions,
   * which follow those of the files before it, are all labelled with f.
   */
  lemma {:induction false} ScanLabelsLayout(counts: seq<nat>)
    ensures |ScanLabels(counts)| == Sum(counts)
    ensures forall f :: 0 <= f < |counts| ==>
              Sum(counts[..f]) + counts[f] <= Sum(counts)
              && ScanLabels(counts)[Sum(counts[..f]) .. Sum(counts[..f]) + counts[f]] == Repeat(ScanLabel(f), counts[f])
  {
    forall f | 0 <= f < |counts|
      ensures Sum(counts[..f]) + counts[f] <= Sum(counts)
      ensures ScanLabels(counts)[Sum(counts[..f]) .. Sum(counts[..f]) + counts[f]] == Repeat(ScanLabel(f), counts[f])
    {
      ScanLabelsBlock(counts, f);
    }
  }

  lemma {:induction false} ScanLabelsBlock(counts: seq<nat>, f: nat)
    requires f < |counts|
    ensures Sum(counts[..f]) + counts[f] <= Sum(counts)
    ensures |ScanLabels(counts)| == Sum(counts)
    ensures ScanLabels(counts)[Sum(counts[..f]) .. Sum(counts[..f]) + counts[f]] == Repeat(ScanLabel(f), counts[f])
  {
    var init := counts[..|counts| - 1];
    var front, back := ScanLabels(init), Repeat(ScanLabel(|counts| - 1), counts[|counts| - 1]);
    assert ScanLabels(counts) == front + back;
    SumPrefixBound(counts, f);
    var start := Sum(counts[..f]);
    if f < |counts| - 1 {
      ScanLabelsBlock(init, f);
      assert counts[..f] == init[..f];
      assert (front + back)[start .. start + counts[f]] == front[start .. start + counts[f]];
    } else {
      assert counts[..f] == init;
      assert (front + back)[start .. start + counts[f]] == back;
    }
  }

  lemma {:induction false} SumPrefixBound(counts: seq<nat>, f: nat)
    requires f < |counts|
    ensures Sum(counts[..f]) + counts[f] <= Sum(counts)
  {
    if f < |counts| - 1 {
      var init := counts[..|counts| - 1];
      assert counts[..f] == init[..f];
      SumPrefixBound(init, f);
    } else {
      assert counts[..f] == counts[..|counts| - 1];
    }
  }

  // ---------------------------------------------------------------------------
  // Auxiliary arrays
  // ---------------------------------------------------------------------------

  /** The auxiliary_data accumulator: never assigned, a 1-D array, or a 2-D array. */
  datatype AuxAccumulator = Unbound | Flat(values: seq<real>) | Stacked(m: Matrix)

  const DIMENSIONS_MESSAGE: string := "all the input arrays must have same number of dimensions"
  const WIDTH_MESSAGE: string := "all the input array dimensions except for the concatenation axis must match exactly"

  /**
   * One concatenation step: an accumulator that was never assigned takes the
   * file's block (the except branch); a 1-D accumulator cannot be joined with
   * a 2-D block; two 2-D arrays join along axis 0 when their widths agree.
   */
  function ConcatenateAux(acc: AuxAccumulator, block: Matrix): (r: Result<AuxAccumulator>)
    ensures acc.Unbound? ==> r == Success(Stacked(block))
    ensures acc.Flat? ==> r == Failure(ValueError(DIMENSIONS_MESSAGE))
    ensures acc.Stacked? ==> (r.Success? <==> acc.m.width == block.width)
    ensures acc.Stacked? && r.Failure? ==> r == Failure(ValueError(WIDTH_MESSAGE))
    ensures acc.Stacked? && r.Success? ==> r.value == Stacked(Matrix(block.width, acc.m.rows + block.rows))
  {
    match acc
    case Unbound => Success(Stacked(block))
    case Flat(_) => Failure(ValueError(DIMENSIONS_MESSAGE))
    case Stacked(m) =>
      if m.width != block.width then Failure(ValueError(WIDTH_MESSAGE))
      else Success(Stacked(Matrix(block.width, m.rows + block.rows)))
  }

  /** The accumulator after concatenating the blocks in order, starting from init. */
  function AccumulateAux(init: AuxAccumulator, blocks: seq<Matrix>): (r: Result<AuxAccumulator>)
    ensures blocks != [] && r.Success? ==> r.value.Stacked? && r.value.m.width == blocks[|blocks| - 1].width
    ensures r.Failure? ==> r.error in {ValueError(DIMENSIONS_MESSAGE), ValueError(WIDTH_MESSAGE)}
  {
    if blocks == [] then Success(init)
    else match AccumulateAux(init, blocks[..|blocks| - 1])
      case Failure(e) => Failure(e)
      case Success(acc) => ConcatenateAux(acc, blocks[|blocks| - 1])
  }

  /** The accumulator as written starts as an empty 1-D list. */
  const AUX_INITIAL_AS_WRITTEN: AuxAccumulator := Flat([])

  /** As written, concatenating the auxiliary data of one file or more always fails. */
  lemma {:induction false} AccumulateAuxAsWrittenFails(blocks: seq<Matrix>)
    requires blocks != []
    ensures AccumulateAux(AUX_INITIAL_AS_WRITTEN, blocks) == Failure(ValueError(DIMENSIONS_MESSAGE))
  {
    if |blocks| > 1 {
      AccumulateAuxAsWrittenFails(blocks[..|blocks| - 1]);
    }
  }

  function AuxBlocks(files: seq<SpecFile>): (blocks: seq<Matrix>)
    ensures |blocks| == |files| && forall f :: 0 <= f < |files| ==> blocks[f] == files[f].aux
  {
    seq(|files|, f requires 0 <= f < |files| => files[f].aux)
  }

  predicate UniformWidths(blocks: seq<Matrix>)
  {
    forall b :: 0 <= b < |blocks| ==> blocks[b].width == blocks[0].width
  }

  /** All rows of all blocks, in order. */
  function AllRows(blocks: seq<Matrix>): seq<seq<real>>
  {
    if blocks == [] then [] else AllRows(blocks[..|blocks| - 1]) + blocks[|blocks| - 1].rows
  }

  /**
   * Starting unassigned, the blocks stack exactly when they all have the first
   * block's width; the result is then every row of every block, in order, and
   * otherwise the width error.
   */
  lemma {:induction false} AccumulateAuxStacks(blocks: seq<Matrix>)
    requires blocks != []
    ensures AccumulateAux(Unbound, blocks).Success? <==> UniformWidths(blocks)
    ensures UniformWidths(blocks) ==> AccumulateAux(Unbound, blocks) == Success(Stacked(Matrix(blocks[0].width, AllRows(blocks))))
    ensures !UniformWidths(blocks) ==> AccumulateAux(Unbound, blocks) == Failure(ValueError(WIDTH_MESSAGE))
  {
    var init := blocks[..|blocks| - 1];
    if init == [] {
      assert AllRows(init) == [];
      assert AllRows(blocks) == blocks[0].rows;
      assert AccumulateAux(Unbound, init) == Success(Unbound);
      assert UniformWidths(blocks);
    } else {
      AccumulateAuxStacks(init);
      UniformWidthsSnoc(blocks);
    }
  }

  /** The blocks have one width exactly when all but the last do and the last has the first's width. */
  lemma UniformWidthsSnoc(blocks: seq<Matrix>)
    requires |blocks| >= 2
    ensures UniformWidths(blocks) <==>
              UniformWidths(blocks[..|blocks| - 1]) && blocks[|blocks| - 1].width == blocks[0].width
  {
    var init := blocks[..|blocks| - 1];
    assert init[0] == blocks[0];
    if UniformWidths(init) && blocks[|blocks| - 1].width == blocks[0].width {
      forall b | 0 <= b < |blocks|
        ensures blocks[b].width == blocks[0].width
      {
        if b < |init| {
          assert blocks[b] == init[b];
        }
      }
    }
  }

  /** Once the concatenation fails, later files do not change the error. */
  lemma {:induction false} AccumulateAuxFailureSticks(init: AuxAccumulator, blocks: seq<Matrix>, k: nat)
    requires k <= |blocks| && AccumulateAux(init, blocks[..k]).Failure?
    ensures AccumulateAux(init, blocks) == AccumulateAux(init, blocks[..k])
  {
    if k < |blocks| {
      var prefix := blocks[..|blocks| - 1];
      assert prefix[..k] == blocks[..k];
      AccumulateAuxFailureSticks(init, prefix, k);
    } else {
      assert blocks[..k] == blocks;
    }
  }

  /** Every stacked row has the common width. */
  lemma {:induction false} AllRowsWellFormed(blocks: seq<Matrix>)
    requires UniformWidths(blocks) && forall b :: 0 <= b < |blocks| ==> WellFormed(blocks[b])
    ensures blocks != [] ==> WellFormed(Matrix(blocks[0].width, AllRows(blocks)))
  {
    if |blocks| > 1 {
      var init := blocks[..|blocks| - 1];
      AllRowsWellFormed(init);
      assert init[0] == blocks[0];
    }
  }

  /** The auxiliary data of all files, stacked row by row. */
  function StackedAux(files: seq<SpecFile>): (m: Matrix)
    requires files != [] && ValidFiles(files) && UniformWidths(AuxBlocks(files))
    ensures WellFormed(m) && m.width == files[0].aux.width
  {
    AllRowsWellFormed(AuxBlocks(files));
    Matrix(files[0].aux.width, AllRows(AuxBlocks(files)))
  }

  // ---------------------------------------------------------------------------
  // Column-name lists
  // ---------------------------------------------------------------------------

  function Occurrences(s: seq<string>, x: string): nat
  {
    if s == [] then 0 else (if s[0] == x then 1 else 0) + Occurrences(s[1..], x)
  }

  lemma {:induction false} OccurrencesIn(s: seq<string>, x: string)
    ensures x in s <==> Occurrences(s, x) > 0
  {
    if s != [] {
      OccurrencesIn(s[1..], x);
      assert s == [s[0]] + s[1..];
    }
  }

  /** A name that occurs twice is a duplicate. */
  lemma {:induction false} RepeatedNameIsDuplicate(s: seq<string>, x: string)
    requires Occurrences(s, x) >= 2
    ensures !NoDuplicates(s)
  {
    if s[0] == x {
      OccurrencesIn(s[1..], x);
      var j :| 0 <= j < |s[1..]| && s[1..][j] == x;
      assert s[0] == s[j + 1];
    } else {
      RepeatedNameIsDuplicate(s[1..], x);
      var i, j :| 0 <= i < j < |s[1..]| && s[1..][i] == s[1..][j];
      assert s[i + 1] == s[j + 1];
    }
  }

  /** The first position of x. */
  function IndexOf(s: seq<string>, x: string): (i: nat)
    requires x in s
    ensures i < |s| && s[i] == x && forall j :: 0 <= j < i ==> s[j] != x
  {
    if s[0] == x then 0 else 1 + IndexOf(s[1..], x)
  }

  /** s without any x, the others in order. */
  function Remove(s: seq<string>, x: string): (r: seq<string>)
    ensures forall y :: y in r <==> y in s && y != x
  {
    if s == [] then []
    else
      var rest := Remove(s[1..], x);
      assert forall y :: y in s <==> y == s[0] || y in s[1..];
      (if s[0] == x then [] else [s[0]]) + rest
  }

  lemma {:induction false} RemoveOccurrences(s: seq<string>, x: string, y: string)
    ensures Occurrences(Remove(s, x), y) == if x == y then 0 else Occurrences(s, y)
  {
    if s != [] {
      RemoveOccurrences(s[1..], x, y);
      var head := if s[0] == x then [] else [s[0]];
      OccurrencesAppend(head, Remove(s[1..], x), y);
    }
  }

  lemma {:induction false} OccurrencesAppend(a: seq<string>, b: seq<string>, y: string)
    ensures Occurrences(a + b, y) == Occurrences(a, y) + Occurrences(b, y)
  {
    if a == [] {
      assert a + b == b;
    } else {
      assert (a + b)[0] == a[0] && (a + b)[1..] == a[1..] + b;
      OccurrencesAppend(a[1..], b, y);
    }
  }

  /** Popping the only occurrence of x removes x and keeps the rest in order. */
  lemma {:induction false} PopIsRemove(s: seq<string>, x: string, i: nat)
    requires i < |s| && s[i] == x && Occurrences(s, x) == 1
    ensures s[..i] + s[i + 1..] == Remove(s, x)
  {
    if i == 0 {
      OccurrencesIn(s[1..], x);
      RemoveAbsent(s[1..], x);
    } else {
      if s[0] == x {
        OccurrencesIn(s[1..], x);
        assert false;
      }
      PopIsRemove(s[1..], x, i - 1);
      assert s[..i] + s[i + 1..] == [s[0]] + (s[1..][..i - 1] + s[1..][i..]);
    }
  }

  lemma {:induction false} RemoveAbsent(s: seq<string>, x: string)
    requires x !in s
    ensures Remove(s, x) == s
  {
    if s != [] {
      RemoveAbsent(s[1..], x);
      assert s == [s[0]] + s[1..];
    }
  }

  /** s without any of the names in xs. */
  function RemoveEach(s: seq<string>, xs: seq<string>): seq<string>
  {
    if xs == [] then s else Remove(RemoveEach(s, xs[..|xs| - 1]), xs[|xs| - 1])
  }

  /** Removing the names of a one-longer prefix removes one more name. */
  lemma RemoveEachPrefix(s: seq<string>, xs: seq<string>, i: nat)
    requires i < |xs|
    ensures RemoveEach(s, xs[..i + 1]) == Remove(RemoveEach(s, xs[..i]), xs[i])
  {
    assert xs[..i + 1][..i] == xs[..i];
  }

  lemma {:induction false} RemoveEachOccurrences(s: seq<string>, xs: seq<string>, y: string)
    ensures Occurrences(RemoveEach(s, xs), y) == if y in xs then 0 else Occurrences(s, y)
  {
    if xs != [] {
      var init := xs[..|xs| - 1];
      RemoveEachOccurrences(s, init, y);
      RemoveOccurrences(RemoveEach(s, init), xs[|xs| - 1], y);
      assert xs == init + [xs[|xs| - 1]];
    }
  }

  lemma RemoveEachMembers(s: seq<string>, xs: seq<string>, y: string)
    ensures y in RemoveEach(s, xs) <==> y in s && y !in xs
  {
    RemoveEachOccurrences(s, xs, y);
    OccurrencesIn(s, y);
    OccurrencesIn(RemoveEach(s, xs), y);
  }

  // ---------------------------------------------------------------------------
  // Auxiliary header and columns
  // ---------------------------------------------------------------------------

  /** A FITS keyword: at most 8 characters, upper-case letters, digits, hyphen and underscore. */
  predicate FitsKeyword(k: string)
  {
    |k| <= 8 && forall i :: 0 <= i < |k| ==> ('A' <= k[i] <= 'Z') || ('0' <= k[i] <= '9') || k[i] == '-' || k[i] == '_'
  }

  predicate FitsHeader(header: seq<(string, int)>)
  {
    forall c :: 0 <= c < |header| ==> FitsKeyword(header[c].0)
  }

  /** The value of the first card with that keyword. */
  function HeaderValue(header: seq<(string, int)>, key: string): (v: Option<int>)
    ensures v.None? <==> forall c :: 0 <= c < |header| ==> header[c].0 != key
  {
    if header == [] then None
    else if header[0].0 == key then Some(header[0].1)
    else
      var v := HeaderValue(header[1..], key);
      assert forall c :: 1 <= c < |header| ==> header[c] == header[1..][c - 1];
      v
  }

  /** Every keyword of the auxiliary header after the seven structural ones, in header order. */
  function AuxColumnNames(header: seq<(string, int)>): (names: seq<string>)
    ensures |names| == if |header| <= 7 then 0 else |header| - 7
    ensures forall i :: 0 <= i < |names| ==> names[i] == header[i + 7].0
  {
    if |header| <= 7 then [] else seq(|header| - 7, i requires 0 <= i < |header| - 7 => header[i + 7].0)
  }

  datatype Cell = Real(x: real) | Text(s: string)

  /** A table column; quantity columns carry a unit. */
  datatype Column = Column(cells: seq<Cell>, unit: Option<string>)

  /**
   * `data[:, header[key]]`: the column the header assigns to the key, where a
   * negative index counts from the right as numpy does. A missing key raises
   * KeyError and an index outside the array IndexError.
   */
  function ColumnFromHeader(header: seq<(string, int)>, data: Matrix, key: string): (r: Result<seq<Cell>>)
    requires WellFormed(data)
    ensures HeaderValue(header, key).None? ==> r == Failure(KeyError(key))
    ensures HeaderValue(header, key).Some? ==>
              var c := HeaderValue(header, key).value;
              && (r.Success? <==> -(data.width as int) <= c < data.width)
              && (r.Failure? ==> r == Failure(IndexError))
              && (r.Success? ==>
                    (&& |r.value| == |data.rows|
                     && forall row :: 0 <= row < |data.rows| ==>
                          r.value[row] == Real(data.rows[row][if c < 0 then c + data.width else c])))
  {
    match HeaderValue(header, key)
    case None => Failure(KeyError(key))
    case Some(c) =>
      if c < -(data.width as int) || c >= data.width then Failure(IndexError)
      else
        var col := if c < 0 then c + data.width else c;
        Success(seq(|data.rows|, row requires 0 <= row < |data.rows| => Real(data.rows[row][col])))
  }

  /**
   * _enter_column_into_table_as_quantity: the name must occur exactly once
   * among the column names (otherwise ValueError, whose message says
   * "Multiple" even when there is none); that entry is popped from the list,
   * and its column of the data becomes a quantity with the unit.
   */
  function EnterColumnIntoTableAsQuantity(name: string, header: seq<(string, int)>, colnames: seq<string>,
                                          data: Matrix, unit: string): (r: Result<(Column, seq<string>)>)
    requires WellFormed(data)
    ensures r.Success? <==> Occurrences(colnames, name) == 1 && ColumnFromHeader(header, data, name).Success?
    ensures Occurrences(colnames, name) != 1 ==> r == Failure(ValueError("Multiple property names equal to " + name))
    ensures r.Failure? && Occurrences(colnames, name) == 1 ==> r.error == ColumnFromHeader(header, data, name).error
    ensures r.Success? ==> r.value.0 == Column(ColumnFromHeader(header, data, name).value, Some(unit))
    ensures r.Success? ==> exists i :: 0 <= i < |colnames| && colnames[i] == name
                                       && r.value.1 == colnames[..i] + colnames[i + 1..]
    ensures r.Success? ==> r.value.1 == Remove(colnames, name) && |r.value.1| == |colnames| - 1
  {
    if Occurrences(colnames, name) != 1 then Failure(ValueError("Multiple property names equal to " + name))
    else
      OccurrencesIn(colnames, name);
      var i := IndexOf(colnames, name);
      var remaining := colnames[..i] + colnames[i + 1..];
      PopIsRemove(colnames, name, i);
      match ColumnFromHeader(header, data, colnames[i])
      case Failure(e) => Failure(e)
      case Success(cells) => Success((Column(cells, Some(unit)), remaining))
  }

  /** The columns entered as quantities, with their units, in the order they are entered. */
  const QUANTITY_COLUMNS: seq<(string, string)> :=
    [("TIME", "s"), ("PZTX", "arcsec"), ("PZTY", "arcsec"), ("EXPTIMEF", "s"), ("EXPTIMEN", "s"),
     ("XCENIX", "arcsec"), ("YCENIX", "arcsec"), ("OBS_VRIX", "m/s")]

  function QuantityNames(): (names: seq<string>)
    ensures |names| == |QUANTITY_COLUMNS| && forall i :: 0 <= i < |names| ==> names[i] == QUANTITY_COLUMNS[i].0
  {
    seq(|QUANTITY_COLUMNS|, i requires 0 <= i < |QUANTITY_COLUMNS| => QUANTITY_COLUMNS[i].0)
  }

  /** The unit a column is entered with, if it is a quantity column. */
  function QuantityUnit(name: string): Option<string>
  {
    if name == "TIME" then Some("s")
    else if name == "PZTX" || name == "PZTY" || name == "XCENIX" || name == "YCENIX" then Some("arcsec")
    else if name == "EXPTIMEF" || name == "EXPTIMEN" then Some("s")
    else if name == "OBS_VRIX" then Some("m/s")
    else None
  }

  /** The quantity names are distinct, and each carries its listed unit. */
  lemma QuantityColumnFacts()
    ensures NoDuplicates(QuantityNames())
    ensures forall i :: 0 <= i < |QUANTITY_COLUMNS| ==> QuantityUnit(QUANTITY_COLUMNS[i].0) == Some(QUANTITY_COLUMNS[i].1)
    ensures forall n :: QuantityUnit(n).Some? ==> n in QuantityNames()
  {
    var q := QuantityNames();
    assert q == ["TIME", "PZTX", "PZTY", "EXPTIMEF", "EXPTIMEN", "XCENIX", "YCENIX", "OBS_VRIX"];
  }

  const FUV_EXPOSURE_TIME: string := "FUV EXPOSURE TIME"
  const NUV_EXPOSURE_TIME: string := "NUV EXPOSURE TIME"

  /** The name a column finally carries: the two exposure-time columns are renamed. */
  function DisplayName(name: string): string
  {
    if name == "EXPTIMEF" then FUV_EXPOSURE_TIME else if name == "EXPTIMEN" then NUV_EXPOSURE_TIME else name
  }

  // ---------------------------------------------------------------------------
  // The auxiliary-data table
  // ---------------------------------------------------------------------------

  /** A table: named columns, in order. */
  type Table = seq<(string, Column)>

  function ColumnNames(t: Table): (names: seq<string>)
    ensures |names| == |t| && forall i :: 0 <= i < |t| ==> names[i] == t[i].0
  {
    seq(|t|, i requires 0 <= i < |t| => t[i].0)
  }

  /** `table[name]`: the first column of that name. */
  function Lookup(t: Table, name: string): Column
    requires name in ColumnNames(t)
  {
    t[IndexOf(ColumnNames(t), name)].1
  }

  const LENGTH_MESSAGE: string := "Inconsistent data column lengths"
  const DUPLICATE_MESSAGE: string := "Duplicate column names"

  /**
   * `table[name] = column`: replaces the column of that name, or appends a new
   * one; a column whose length differs from the table's raises ValueError.
   */
  function SetColumn(t: Table, name: string, col: Column): (r: Result<Table>)
    ensures r.Success? <==> (t == [] || |col.cells| == |t[0].1.cells|)
    ensures r.Failure? ==> r == Failure(ValueError(LENGTH_MESSAGE))
    ensures r.Success? ==> name in ColumnNames(r.value) && Lookup(r.value, name) == col
    ensures r.Success? ==> forall n :: n != name ==>
              (n in ColumnNames(r.value) <==> n in ColumnNames(t))
              && (n in ColumnNames(t) ==> Lookup(r.value, n) == Lookup(t, n))
    ensures r.Success? && name !in ColumnNames(t) ==> r.value == t + [(name, col)]
    ensures r.Success? ==> |r.value| >= 1 && |r.value[0].1.cells| == if t == [] then |col.cells| else |t[0].1.cells|
  {
    if t != [] && |col.cells| != |t[0].1.cells| then Failure(ValueError(LENGTH_MESSAGE))
    else if name in ColumnNames(t) then
      var i := IndexOf(ColumnNames(t), name);
      var u := t[i := (name, col)];
      assert ColumnNames(u) == ColumnNames(t);
      Success(u)
    else
      var u := t + [(name, col)];
      assert ColumnNames(u) == ColumnNames(t) + [name];
      IndexOfAppend(ColumnNames(t), name);
      Success(u)
  }

  lemma {:induction false} IndexOfAppend(s: seq<string>, y: string)
    ensures forall n :: n in s ==> IndexOf(s + [y], n) == IndexOf(s, n)
  {
    if s != [] {
      IndexOfAppend(s[1..], y);
      assert (s + [y])[1..] == s[1..] + [y];
    }
  }

  /** The names in order that the table lacks. */
  function Absent(order: seq<string>, present: seq<string>): (r: seq<string>)
    ensures forall n :: n in r <==> n in order && n !in present
  {
    if order == [] then []
    else
      var rest := Absent(order[1..], present);
      assert forall n :: n in order <==> n == order[0] || n in order[1..];
      (if order[0] in present then [] else [order[0]]) + rest
  }

  /**
   * `table[order]`: the named columns in the given order. A name the table
   * lacks raises KeyError, and a repeated name ValueError.
   */
  function SelectColumns(t: Table, order: seq<string>): (r: Result<Table>)
    ensures r.Success? <==> (forall n :: n in order ==> n in ColumnNames(t)) && NoDuplicates(order)
    ensures (forall n :: n in order ==> n in ColumnNames(t)) && !NoDuplicates(order) ==>
              r == Failure(ValueError(DUPLICATE_MESSAGE))
    ensures r.Success? ==>
              (&& |r.value| == |order|
               && forall i :: 0 <= i < |order| ==> r.value[i] == (order[i], Lookup(t, order[i])))
  {
    var missing := Absent(order, ColumnNames(t));
    if missing != [] then
      assert missing[0] in missing;
      Failure(KeyError(missing[0]))
    else if !NoDuplicates(order) then Failure(ValueError(DUPLICATE_MESSAGE))
    else Success(seq(|order|, i requires 0 <= i < |order| => (order[i], Lookup(t, order[i]))))
  }

  /**
   * `table.rename_column(from, to)`: the column keeps its place and contents.
   * A missing `from` name or an existing `to` name raises KeyError.
   */
  function RenameColumn(t: Table, from: string, to: string): (r: Result<Table>)
    ensures r.Success? <==> from in ColumnNames(t) && to !in ColumnNames(t)
    ensures from !in ColumnNames(t) ==> r == Failure(KeyError(from))
    ensures from in ColumnNames(t) && to in ColumnNames(t) ==> r == Failure(KeyError(to))
    ensures r.Success? ==> |r.value| == |t| && forall i :: 0 <= i < |t| ==>
              r.value[i] == if t[i].0 == from && i == IndexOf(ColumnNames(t), from) then (to, t[i].1) else t[i]
  {
    if from !in ColumnNames(t) then Failure(KeyError(from))
    else if to in ColumnNames(t) then Failure(KeyError(to))
    else
      var i := IndexOf(ColumnNames(t), from);
      Success(t[i := (to, t[i].1)])
  }

  /** The column the table finally holds for a header keyword. */
  function AuxColumn(header: seq<(string, int)>, data: Matrix, name: string): Column
    requires WellFormed(data)
  {
    var cells := match ColumnFromHeader(header, data, name)
      case Success(c) => c
      case Failure(_) => [];
    Column(cells, QuantityUnit(name))
  }

  function ScanColumn(labels: seq<string>): Column
  {
    Column(seq(|labels|, i requires 0 <= i < |labels| => Text(labels[i])), None)
  }

  /** When the auxiliary table can be built: every condition the column steps check. */
  predicate AuxTableBuildable(header: seq<(string, int)>, data: Matrix, labels: seq<string>)
    requires WellFormed(data)
  {
    var names := AuxColumnNames(header);
    && NoDuplicates(names)
    && (forall i :: 0 <= i < |QUANTITY_COLUMNS| ==> QUANTITY_COLUMNS[i].0 in names)
    && (forall n :: n in names ==> ColumnFromHeader(header, data, n).Success?)
    && |labels| == |data.rows|
  }

  /**
   * The finished table: one column per auxiliary keyword in header order,
   * holding that keyword's data column (with its unit for quantity columns)
   * under its display name, then the scan labels.
   */
  function ExpectedAuxTable(header: seq<(string, int)>, data: Matrix, labels: seq<string>): (t: Table)
    requires WellFormed(data)
    ensures |t| == |AuxColumnNames(header)| + 1
    ensures t[|t| - 1].0 == "scan" && t[|t| - 1].1 == ScanColumn(labels)
  {
    KeywordColumns(header, data) + [("scan", ScanColumn(labels))]
  }

  /** Every auxiliary keyword's final column under its display name, in header order. */
  function KeywordColumns(header: seq<(string, int)>, data: Matrix): (t: Table)
    requires WellFormed(data)
    ensures |t| == |AuxColumnNames(header)|
    ensures forall i :: 0 <= i < |t| ==>
              t[i] == (DisplayName(AuxColumnNames(header)[i]), AuxColumn(header, data, AuxColumnNames(header)[i]))
  {
    var names := AuxColumnNames(header);
    seq(|names|, i requires 0 <= i < |names| => (DisplayName(names[i]), AuxColumn(header, data, names[i])))
  }

  /** Renaming a column of a table with distinct names renames exactly that column. */
  lemma RenameDistinct(t: Table, from: string, to: string)
    requires NoDuplicates(ColumnNames(t)) && from in ColumnNames(t) && to !in ColumnNames(t)
    ensures RenameColumn(t, from, to).Success?
    ensures var u := RenameColumn(t, from, to).value;
            && |u| == |t|
            && (forall i :: 0 <= i < |t| ==> u[i] == (if t[i].0 == from then to else t[i].0, t[i].1))
            && NoDuplicates(ColumnNames(u))
  {
    var k := IndexOf(ColumnNames(t), from);
    forall i | 0 <= i < |t| && t[i].0 == from
      ensures i == k
    {
      assert ColumnNames(t)[i] == ColumnNames(t)[k];
    }
  }

  /** No display name and not the scan column's name is a header keyword. */
  lemma DisplayNamesAreNotKeywords()
    ensures !FitsKeyword("scan") && !FitsKeyword(FUV_EXPOSURE_TIME) && !FitsKeyword(NUV_EXPOSURE_TIME)
  {
    assert "scan"[0] == 's';
  }

  /**
   * The first column loop: enters the eight quantity columns in order, popping
   * each name from the list of column names. It stops at the first name that
   * does not occur exactly once or whose data column cannot be taken.
   */
  method EnterQuantityColumns(header: seq<(string, int)>, data: Matrix) returns (r: Result<(Table, seq<string>)>)
    requires WellFormed(data)
    ensures var names := AuxColumnNames(header);
            r.Success? <==> forall i :: 0 <= i < |QUANTITY_COLUMNS| ==>
                              Occurrences(names, QUANTITY_COLUMNS[i].0) == 1
                              && ColumnFromHeader(header, data, QUANTITY_COLUMNS[i].0).Success?
    ensures r.Success? ==>
              && r.value.1 == RemoveEach(AuxColumnNames(header), QuantityNames())
              && |r.value.0| == |QUANTITY_COLUMNS|
              && |r.value.0[0].1.cells| == |data.rows|
              && forall i :: 0 <= i < |QUANTITY_COLUMNS| ==>
                   r.value.0[i] == (QUANTITY_COLUMNS[i].0, AuxColumn(header, data, QUANTITY_COLUMNS[i].0))
  {
    var colnames := AuxColumnNames(header);
    var table: Table := [];
    var i := 0;
    while i < |QUANTITY_COLUMNS|
      invariant i <= |QUANTITY_COLUMNS| && QuantitiesEntered(header, data, i, table, colnames)
    {
      var step := EnterQuantity(header, data, i, table, colnames);
      if step.Failure? {
        QuantityMissing(header, data, i);
        return Failure(step.error);
      }
      table, colnames := step.value.0, step.value.1;
      i := i + 1;
    }
    AllQuantitiesEntered(header, data, table, colnames);
    return Success((table, colnames));
  }

  /** One pass of the quantity loop: enters the i-th quantity column and pops its name from the list. */
  method EnterQuantity(header: seq<(string, int)>, data: Matrix, i: nat, table: Table, colnames: seq<string>)
    returns (r: Result<(Table, seq<string>)>)
    requires WellFormed(data) && i < |QUANTITY_COLUMNS| && QuantitiesEntered(header, data, i, table, colnames)
    ensures r.Success? <==> Occurrences(AuxColumnNames(header), QUANTITY_COLUMNS[i].0) == 1
                            && ColumnFromHeader(header, data, QUANTITY_COLUMNS[i].0).Success?
    ensures r.Success? ==> QuantitiesEntered(header, data, i + 1, r.value.0, r.value.1)
  {
    var q := QUANTITY_COLUMNS[i];
    QuantityOccurrences(header, i, colnames);
    var entered := EnterColumnIntoTableAsQuantity(q.0, header, colnames, data, q.1);
    if entered.Failure? {
      return Failure(entered.error);
    }
    EnterQuantityStep(header, data, i, table, colnames, entered.value.0, entered.value.1);
    var added := SetColumn(table, q.0, entered.value.0);
    return Success((added.value, entered.value.1));
  }

  /** A quantity name that does not occur once, or whose column cannot be taken, stops the quantity loop. */
  lemma QuantityMissing(header: seq<(string, int)>, data: Matrix, i: nat)
    requires WellFormed(data) && i < |QUANTITY_COLUMNS|
    requires !(Occurrences(AuxColumnNames(header), QUANTITY_COLUMNS[i].0) == 1
               && ColumnFromHeader(header, data, QUANTITY_COLUMNS[i].0).Success?)
    ensures !forall j :: 0 <= j < |QUANTITY_COLUMNS| ==>
              Occurrences(AuxColumnNames(header), QUANTITY_COLUMNS[j].0) == 1
              && ColumnFromHeader(header, data, QUANTITY_COLUMNS[j].0).Success?
  {
  }

  /** After all eight steps: every quantity column holds its data column with its unit, and all their names are popped. */
  lemma AllQuantitiesEntered(header: seq<(string, int)>, data: Matrix, table: Table, colnames: seq<string>)
    requires WellFormed(data) && QuantitiesEntered(header, data, |QUANTITY_COLUMNS|, table, colnames)
    ensures colnames == RemoveEach(AuxColumnNames(header), QuantityNames())
    ensures |table| == |QUANTITY_COLUMNS| && |table[0].1.cells| == |data.rows|
    ensures forall i :: 0 <= i < |QUANTITY_COLUMNS| ==>
              table[i] == (QUANTITY_COLUMNS[i].0, AuxColumn(header, data, QUANTITY_COLUMNS[i].0))
  {
    QuantityColumnFacts();
    assert QuantityNames()[..|QUANTITY_COLUMNS|] == QuantityNames();
  }

  /** What the quantity loop has done after its first i steps. */
  predicate QuantitiesEntered(header: seq<(string, int)>, data: Matrix, i: nat, table: Table, colnames: seq<string>)
    requires WellFormed(data) && i <= |QUANTITY_COLUMNS|
  {
    var names := AuxColumnNames(header);
    && (forall j :: 0 <= j < i ==>
          Occurrences(names, QUANTITY_COLUMNS[j].0) == 1
          && ColumnFromHeader(header, data, QUANTITY_COLUMNS[j].0).Success?)
    && colnames == RemoveEach(names, QuantityNames()[..i])
    && |table| == i
    && (forall j :: 0 <= j < i ==>
          table[j] == (QUANTITY_COLUMNS[j].0,
                       Column(ColumnFromHeader(header, data, QUANTITY_COLUMNS[j].0).value, Some(QUANTITY_COLUMNS[j].1))))
    && (i > 0 ==> |table[0].1.cells| == |data.rows|)
  }

  /** Before step i, the name to enter occurs in the remaining list as often as in the header. */
  lemma QuantityOccurrences(header: seq<(string, int)>, i: nat, colnames: seq<string>)
    requires i < |QUANTITY_COLUMNS| && colnames == RemoveEach(AuxColumnNames(header), QuantityNames()[..i])
    ensures Occurrences(colnames, QUANTITY_COLUMNS[i].0) == Occurrences(AuxColumnNames(header), QUANTITY_COLUMNS[i].0)
  {
    QuantityNotYetEntered(i);
    RemoveEachOccurrences(AuxColumnNames(header), QuantityNames()[..i], QUANTITY_COLUMNS[i].0);
  }

  /** A successful step of the quantity loop appends the column and extends what was entered. */
  lemma EnterQuantityStep(header: seq<(string, int)>, data: Matrix, i: nat, table: Table, colnames: seq<string>,
                          col: Column, rest: seq<string>)
    requires WellFormed(data) && i < |QUANTITY_COLUMNS| && QuantitiesEntered(header, data, i, table, colnames)
    requires Occurrences(AuxColumnNames(header), QUANTITY_COLUMNS[i].0) == 1
    requires ColumnFromHeader(header, data, QUANTITY_COLUMNS[i].0).Success?
    requires col == Column(ColumnFromHeader(header, data, QUANTITY_COLUMNS[i].0).value, Some(QUANTITY_COLUMNS[i].1))
    requires rest == Remove(colnames, QUANTITY_COLUMNS[i].0)
    ensures SetColumn(table, QUANTITY_COLUMNS[i].0, col) == Success(table + [(QUANTITY_COLUMNS[i].0, col)])
    ensures QuantitiesEntered(header, data, i + 1, table + [(QUANTITY_COLUMNS[i].0, col)], rest)
  {
    QuantityNotInTable(header, data, i, table, colnames);
    RemoveEachPrefix(AuxColumnNames(header), QuantityNames(), i);
  }

  /** Before step i, the table holds no column of the i-th quantity name. */
  lemma QuantityNotInTable(header: seq<(string, int)>, data: Matrix, i: nat, table: Table, colnames: seq<string>)
    requires WellFormed(data) && i < |QUANTITY_COLUMNS| && QuantitiesEntered(header, data, i, table, colnames)
    ensures QUANTITY_COLUMNS[i].0 !in ColumnNames(table)
  {
    QuantityNotYetEntered(i);
    forall j | 0 <= j < i
      ensures ColumnNames(table)[j] != QUANTITY_COLUMNS[i].0
    {
      assert ColumnNames(table)[j] == QuantityNames()[..i][j];
    }
  }

  /** The i-th quantity column carries its listed unit and was not entered before. */
  lemma QuantityNotYetEntered(i: nat)
    requires i < |QUANTITY_COLUMNS|
    ensures QUANTITY_COLUMNS[i].0 == QuantityNames()[i] && QUANTITY_COLUMNS[i].0 !in QuantityNames()[..i]
  {
    QuantityColumnFacts();
  }

  /** In a table with distinct names, looking a column's name up finds that column. */
  lemma LookupDistinct(t: Table, i: nat)
    requires i < |t| && NoDuplicates(ColumnNames(t))
    ensures Lookup(t, t[i].0) == t[i].1
  {
    var k := IndexOf(ColumnNames(t), t[i].0);
    assert ColumnNames(t)[k] == ColumnNames(t)[i];
  }

  /**
   * The second column loop: enters every remaining name's data column, without
   * a unit, replacing a column of the same name.
   */
  method EnterRemainingColumns(table: Table, header: seq<(string, int)>, data: Matrix, rest: seq<string>)
    returns (r: Result<Table>)
    requires WellFormed(data) && |table| >= 1 && |table[0].1.cells| == |data.rows|
    ensures r.Success? <==> forall n :: n in rest ==> ColumnFromHeader(header, data, n).Success?
    ensures r.Success? ==>
              && |r.value| >= 1 && |r.value[0].1.cells| == |data.rows|
              && (forall n :: n in rest ==>
                    n in ColumnNames(r.value) && Lookup(r.value, n) == Column(ColumnFromHeader(header, data, n).value, None))
              && (forall n :: n !in rest ==>
                    (n in ColumnNames(r.value) <==> n in ColumnNames(table))
                    && (n in ColumnNames(table) ==> Lookup(r.value, n) == Lookup(table, n)))
  {
    var t := table;
    var k := 0;
    while k < |rest|
      invariant 0 <= k <= |rest|
      invariant forall j :: 0 <= j < k ==> ColumnFromHeader(header, data, rest[j]).Success?
      invariant |t| >= 1 && |t[0].1.cells| == |data.rows|
      invariant forall n :: n in rest[..k] ==>
                  n in ColumnNames(t) && Lookup(t, n) == Column(ColumnFromHeader(header, data, n).value, None)
      invariant forall n :: n !in rest[..k] ==>
                  (n in ColumnNames(t) <==> n in ColumnNames(table))
                  && (n in ColumnNames(table) ==> Lookup(t, n) == Lookup(table, n))
    {
      var n := rest[k];
      var cells := ColumnFromHeader(header, data, n);
      if cells.Failure? {
        return Failure(cells.error);
      }
      t := SetColumn(t, n, Column(cells.value, None)).value;
      assert rest[..k + 1] == rest[..k] + [n];
      k := k + 1;
    }
    assert rest[..k] == rest;
    return Success(t);
  }

  /** The quantity loop runs through: each quantity name occurs once and its data column exists. */
  predicate QuantitiesEnterable(header: seq<(string, int)>, data: Matrix)
    requires WellFormed(data)
  {
    forall i :: 0 <= i < |QUANTITY_COLUMNS| ==>
      Occurrences(AuxColumnNames(header), QUANTITY_COLUMNS[i].0) == 1
      && ColumnFromHeader(header, data, QUANTITY_COLUMNS[i].0).Success?
  }

  /**
   * Both column loops: the quantity columns, then every remaining name. They
   * succeed exactly when the quantity loop runs through and every name has a
   * data column, and the table then holds each name's final column.
   */
  method EnterAuxColumns(header: seq<(string, int)>, data: Matrix) returns (r: Result<Table>)
    requires WellFormed(data)
    ensures r.Success? <==>
              QuantitiesEnterable(header, data)
              && forall n :: n in AuxColumnNames(header) ==> ColumnFromHeader(header, data, n).Success?
    ensures r.Success? ==>
              && |r.value| >= 1 && |r.value[0].1.cells| == |data.rows|
              && forall n :: n in AuxColumnNames(header) ==>
                   n in ColumnNames(r.value) && Lookup(r.value, n) == AuxColumn(header, data, n)
  {
    var entered := EnterQuantityColumns(header, data);
    if entered.Failure? {
      return Failure(entered.error);
    }
    var table := entered.value.0;
    var rest := entered.value.1;
    RemainingNames(header);
    var filled := EnterRemainingColumns(table, header, data, rest);
    if filled.Failure? {
      return Failure(filled.error);
    }
    AllNamesEntered(header, data, table, filled.value);
    return filled;
  }

  /** The names left after the quantity loop are the header names that are not quantity names. */
  lemma RemainingNames(header: seq<(string, int)>)
    ensures forall n :: n in RemoveEach(AuxColumnNames(header), QuantityNames()) <==>
                          n in AuxColumnNames(header) && n !in QuantityNames()
  {
    forall n
      ensures n in RemoveEach(AuxColumnNames(header), QuantityNames()) <==>
                n in AuxColumnNames(header) && n !in QuantityNames()
    {
      RemoveEachMembers(AuxColumnNames(header), QuantityNames(), n);
    }
  }

  /**
   * After both column loops, the table holds every header keyword's final
   * column: a quantity column as the first loop entered it, and any other
   * column as the second loop entered it, without a unit.
   */
  lemma AllNamesEntered(header: seq<(string, int)>, data: Matrix, table: Table, filled: Table)
    requires WellFormed(data) && QuantitiesEnterable(header, data)
    requires |table| == |QUANTITY_COLUMNS|
    requires forall i :: 0 <= i < |QUANTITY_COLUMNS| ==>
               table[i] == (QUANTITY_COLUMNS[i].0, AuxColumn(header, data, QUANTITY_COLUMNS[i].0))
    requires forall n :: n in RemoveEach(AuxColumnNames(header), QuantityNames()) ==>
               && ColumnFromHeader(header, data, n).Success?
               && n in ColumnNames(filled) && Lookup(filled, n) == Column(ColumnFromHeader(header, data, n).value, None)
    requires forall n :: n !in RemoveEach(AuxColumnNames(header), QuantityNames()) ==>
               (n in ColumnNames(filled) <==> n in ColumnNames(table))
               && (n in ColumnNames(table) ==> Lookup(filled, n) == Lookup(table, n))
    ensures forall n :: n in AuxColumnNames(header) ==>
              && ColumnFromHeader(header, data, n).Success?
              && n in ColumnNames(filled) && Lookup(filled, n) == AuxColumn(header, data, n)
  {
    QuantityColumnFacts();
    RemainingNames(header);
    assert ColumnNames(table) == QuantityNames();
    forall n | n in AuxColumnNames(header)
      ensures ColumnFromHeader(header, data, n).Success?
      ensures n in ColumnNames(filled) && Lookup(filled, n) == AuxColumn(header, data, n)
    {
      if n in QuantityNames() {
        var i :| 0 <= i < |QUANTITY_COLUMNS| && QuantityNames()[i] == n;
        LookupDistinct(table, i);
      }
    }
  }

  /** A name in a list without duplicates occurs there once. */
  lemma DistinctOccursOnce(s: seq<string>, x: string)
    requires NoDuplicates(s) && x in s
    ensures Occurrences(s, x) == 1
  {
    OccurrencesIn(s, x);
    if Occurrences(s, x) >= 2 {
      RepeatedNameIsDuplicate(s, x);
    }
  }

  /**
   * The last steps: the columns in header order, the two renamings and the scan
   * column. They succeed exactly when the names are distinct and there is one
   * scan label per row.
   */
  method ArrangeAuxColumns(t: Table, header: seq<(string, int)>, data: Matrix, labels: seq<string>)
    returns (r: Result<Table>)
    requires WellFormed(data) && FitsHeader(header)
    requires "EXPTIMEF" in AuxColumnNames(header) && "EXPTIMEN" in AuxColumnNames(header)
    requires |t| >= 1 && |t[0].1.cells| == |data.rows|
    requires forall n :: n in AuxColumnNames(header) ==>
               && ColumnFromHeader(header, data, n).Success?
               && n in ColumnNames(t) && Lookup(t, n) == AuxColumn(header, data, n)
    ensures r.Success? <==> NoDuplicates(AuxColumnNames(header)) && |labels| == |data.rows|
    ensures r.Success? ==> r.value == ExpectedAuxTable(header, data, labels)
  {
    var selected := SelectColumns(t, AuxColumnNames(header));
    if selected.Failure? {
      return Failure(selected.error);
    }
    SelectedAuxColumns(t, header, data);
    DisplayColumns(selected.value, header, data, labels);
    var t1 := RenameColumn(selected.value, "EXPTIMEF", FUV_EXPOSURE_TIME).value;
    var t2 := RenameColumn(t1, "EXPTIMEN", NUV_EXPOSURE_TIME).value;
    var withScan := SetColumn(t2, "scan", ScanColumn(labels));
    if withScan.Failure? {
      return Failure(withScan.error);
    }
    return Success(withScan.value);
  }

  /**
   * Renaming the two exposure-time columns of the selected table gives each
   * keyword's final column under its display name, in header order, with no
   * column called "scan"; adding the scan column then completes the expected
   * table.
   */
  lemma DisplayColumns(t0: Table, header: seq<(string, int)>, data: Matrix, labels: seq<string>)
    requires WellFormed(data)
    requires NoDuplicates(ColumnNames(t0)) && forall n :: n in ColumnNames(t0) ==> FitsKeyword(n)
    requires "EXPTIMEF" in ColumnNames(t0) && "EXPTIMEN" in ColumnNames(t0)
    requires ColumnNames(t0) == AuxColumnNames(header)
    requires forall i :: 0 <= i < |t0| ==>
               ColumnFromHeader(header, data, t0[i].0).Success? && t0[i].1 == AuxColumn(header, data, t0[i].0)
    ensures RenameColumn(t0, "EXPTIMEF", FUV_EXPOSURE_TIME).Success?
    ensures var t1 := RenameColumn(t0, "EXPTIMEF", FUV_EXPOSURE_TIME).value;
            && RenameColumn(t1, "EXPTIMEN", NUV_EXPOSURE_TIME).Success?
            && var t2 := RenameColumn(t1, "EXPTIMEN", NUV_EXPOSURE_TIME).value;
               && |t2| >= 1 && |t2[0].1.cells| == |data.rows|
               && "scan" !in ColumnNames(t2)
               && t2 + [("scan", ScanColumn(labels))] == ExpectedAuxTable(header, data, labels)
  {
    var names := AuxColumnNames(header);
    RenameExposureColumns(t0);
    var t1 := RenameColumn(t0, "EXPTIMEF", FUV_EXPOSURE_TIME).value;
    var t2 := RenameColumn(t1, "EXPTIMEN", NUV_EXPOSURE_TIME).value;
    assert t2 == KeywordColumns(header, data);
    assert |t2[0].1.cells| == |data.rows| by {
      assert t2[0].1 == AuxColumn(header, data, names[0]) && ColumnFromHeader(header, data, t0[0].0).Success?;
    }
  }

  /** Selecting the distinct header names in header order gives each keyword's final column under its own name. */
  lemma SelectedAuxColumns(t: Table, header: seq<(string, int)>, data: Matrix)
    requires WellFormed(data) && FitsHeader(header) && NoDuplicates(AuxColumnNames(header))
    requires forall n :: n in AuxColumnNames(header) ==>
               && ColumnFromHeader(header, data, n).Success?
               && n in ColumnNames(t) && Lookup(t, n) == AuxColumn(header, data, n)
    ensures SelectColumns(t, AuxColumnNames(header)).Success?
    ensures var t0 := SelectColumns(t, AuxColumnNames(header)).value;
            && ColumnNames(t0) == AuxColumnNames(header)
            && (forall i :: 0 <= i < |t0| ==>
                  ColumnFromHeader(header, data, t0[i].0).Success? && t0[i].1 == AuxColumn(header, data, t0[i].0))
            && (forall n :: n in ColumnNames(t0) ==> FitsKeyword(n))
  {
    var names := AuxColumnNames(header);
    var t0 := SelectColumns(t, names).value;
    assert ColumnNames(t0) == names;
    forall n | n in names
      ensures FitsKeyword(n)
    {
      var i :| 0 <= i < |names| && names[i] == n;
      assert header[i + 7].0 == n;
    }
  }

  /**
   * The two renamings, on a table whose names are distinct header keywords
   * among them the two exposure-time keywords: each column takes its display
   * name, and none is called "scan".
   */
  lemma RenameExposureColumns(t0: Table)
    requires NoDuplicates(ColumnNames(t0)) && forall n :: n in ColumnNames(t0) ==> FitsKeyword(n)
    requires "EXPTIMEF" in ColumnNames(t0) && "EXPTIMEN" in ColumnNames(t0)
    ensures RenameColumn(t0, "EXPTIMEF", FUV_EXPOSURE_TIME).Success?
    ensures var t1 := RenameColumn(t0, "EXPTIMEF", FUV_EXPOSURE_TIME).value;
            && RenameColumn(t1, "EXPTIMEN", NUV_EXPOSURE_TIME).Success?
            && var t2 := RenameColumn(t1, "EXPTIMEN", NUV_EXPOSURE_TIME).value;
               && |t2| == |t0|
               && (forall i :: 0 <= i < |t0| ==> t2[i] == (DisplayName(t0[i].0), t0[i].1))
               && "scan" !in ColumnNames(t2)
  {
    DisplayNamesAreNotKeywords();
    RenameDistinct(t0, "EXPTIMEF", FUV_EXPOSURE_TIME);
    var t1 := RenameColumn(t0, "EXPTIMEF", FUV_EXPOSURE_TIME).value;
    assert "EXPTIMEN" in ColumnNames(t1) by {
      var i :| 0 <= i < |t0| && t0[i].0 == "EXPTIMEN";
      assert t1[i].0 == "EXPTIMEN";
    }
    RenameDistinct(t1, "EXPTIMEN", NUV_EXPOSURE_TIME);
  }

  /**
   * The auxiliary-data table: the quantity columns, then the remaining columns,
   * then the header's keyword order, the two renamings and the scan column.
   * It is built exactly when the conditions the steps check all hold, and is
   * then one column per auxiliary keyword in header order followed by the
   * scan labels.
   */
  method BuildAuxiliaryTable(header: seq<(string, int)>, data: Matrix, labels: seq<string>) returns (r: Result<Table>)
    requires WellFormed(data) && FitsHeader(header)
    ensures r.Success? <==> AuxTableBuildable(header, data, labels)
    ensures r.Success? ==> r.value == ExpectedAuxTable(header, data, labels)
  {
    var names := AuxColumnNames(header);
    var entered := EnterAuxColumns(header, data);
    if entered.Failure? {
      if !QuantitiesEnterable(header, data) {
        var i :| 0 <= i < |QUANTITY_COLUMNS| &&
                 !(Occurrences(names, QUANTITY_COLUMNS[i].0) == 1 && ColumnFromHeader(header, data, QUANTITY_COLUMNS[i].0).Success?);
        if NoDuplicates(names) && QUANTITY_COLUMNS[i].0 in names {
          DistinctOccursOnce(names, QUANTITY_COLUMNS[i].0);
        }
      }
      return Failure(entered.error);
    }
    forall i | 0 <= i < |QUANTITY_COLUMNS|
      ensures QUANTITY_COLUMNS[i].0 in names
    {
      OccurrencesIn(names, QUANTITY_COLUMNS[i].0);
    }
    assert "EXPTIMEF" == QUANTITY_COLUMNS[3].0 && "EXPTIMEN" == QUANTITY_COLUMNS[4].0;
    r := ArrangeAuxColumns(entered.value, header, data, labels);
  }

  // ---------------------------------------------------------------------------
  // IRISSpectrograph
  // ---------------------------------------------------------------------------

  /** The cube sequence of one spectral window. */
  datatype CubeSequence = CubeSequence(cubes: seq<SpecCube>, meta: map<string, string>, commonAxis: int)

  class IrisSpectrograph {
    const spectralWindows: seq<WindowKeywords>
    const meta: map<string, string>
    const auxiliaryData: Table
    const data: map<string, CubeSequence>

    constructor (spectralWindows: seq<WindowKeywords>, meta: map<string, string>, auxiliaryData: Table,
                 data: map<string, CubeSequence>)
      ensures this.spectralWindows == spectralWindows && this.meta == meta
      ensures this.auxiliaryData == auxiliaryData && this.data == data
    {
      this.spectralWindows := spectralWindows;
      this.meta := meta;
      this.auxiliaryData := auxiliaryData;
      this.data := data;
    }
  }

  function Naxis3s(files: seq<SpecFile>): (counts: seq<nat>)
    ensures |counts| == |files| && forall f :: 0 <= f < |files| ==> counts[f] == files[f].naxis3
  {
    seq(|files|, f requires 0 <= f < |files| => files[f].naxis3)
  }

  /** One pass of the window loop extends every window's list from the files before f to those up to f. */
  lemma WindowListsStep(files: seq<SpecFile>, f: nat, indices: seq<nat>, names: seq<string>,
                        lists: map<string, seq<SpecCube>>, appended: map<string, seq<SpecCube>>)
    requires f < |files| && |names| == |indices| && IndicesFit(files, indices)
    requires forall n :: n in names ==> n in lists && lists[n] == WindowCubes(files, f, indices, names, n)
    requires forall n :: n in names ==>
               n in appended && appended[n] == lists[n] + FileCubes(files[f], indices, names, n, |names|)
    ensures forall n :: n in names ==> n in appended && appended[n] == WindowCubes(files, f + 1, indices, names, n)
  {
  }

  lemma ScanLabelsPrefix(counts: seq<nat>, f: nat)
    requires f < |counts|
    ensures ScanLabels(counts[..f + 1]) == ScanLabels(counts[..f]) + Repeat(ScanLabel(f), counts[f])
  {
    assert counts[..f + 1][..f] == counts[..f];
  }

  lemma AccumulateAuxPrefix(init: AuxAccumulator, blocks: seq<Matrix>, f: nat)
    requires f < |blocks| && AccumulateAux(init, blocks[..f]).Success?
    ensures AccumulateAux(init, blocks[..f + 1]) == ConcatenateAux(AccumulateAux(init, blocks[..f]).value, blocks[f])
  {
    assert blocks[..f + 1][..f] == blocks[..f];
  }

  /** What the file loop has built from files 0 .. f-1: the window lists, the scan labels and the stacked auxiliary data. */
  predicate Collected(files: seq<SpecFile>, indices: seq<nat>, names: seq<string>, f: nat,
                      lists: map<string, seq<SpecCube>>, labels: seq<string>, acc: AuxAccumulator)
    requires f <= |files| && |names| == |indices| && IndicesFit(files, indices)
  {
    && (forall n :: n in names ==> n in lists && lists[n] == WindowCubes(files, f, indices, names, n))
    && labels == ScanLabels(Naxis3s(files)[..f])
    && AccumulateAux(Unbound, AuxBlocks(files)[..f]) == Success(acc)
  }

  /** One pass of the file loop extends what was built from the files before f to the files up to f. */
  lemma CollectStep(files: seq<SpecFile>, indices: seq<nat>, names: seq<string>, f: nat,
                    lists: map<string, seq<SpecCube>>, labels: seq<string>, acc: AuxAccumulator,
                    appended: map<string, seq<SpecCube>>)
    requires f < |files| && |names| == |indices| && IndicesFit(files, indices)
    requires Collected(files, indices, names, f, lists, labels, acc)
    requires forall n :: n in names ==>
               n in appended && appended[n] == lists[n] + FileCubes(files[f], indices, names, n, |names|)
    ensures ConcatenateAux(acc, files[f].aux) == AccumulateAux(Unbound, AuxBlocks(files)[..f + 1])
    ensures ConcatenateAux(acc, files[f].aux).Success? ==>
              Collected(files, indices, names, f + 1, appended, labels + Repeat(ScanLabel(f), files[f].naxis3),
                        ConcatenateAux(acc, files[f].aux).value)
  {
    WindowListsStep(files, f, indices, names, lists, appended);
    ScanLabelsPrefix(Naxis3s(files), f);
    AccumulateAuxPrefix(Unbound, AuxBlocks(files), f);
  }

  /** One pass of the file loop: file f's cubes, scan labels and auxiliary rows. */
  method CollectFile(files: seq<SpecFile>, indices: seq<nat>, names: seq<string>, f: nat,
                     lists: map<string, seq<SpecCube>>, labels: seq<string>, acc: AuxAccumulator)
    returns (lists': map<string, seq<SpecCube>>, labels': seq<string>, joined: Result<AuxAccumulator>)
    requires f < |files| && |names| == |indices| && IndicesFit(files, indices)
    requires Collected(files, indices, names, f, lists, labels, acc)
    ensures joined == AccumulateAux(Unbound, AuxBlocks(files)[..f + 1])
    ensures joined.Success? ==> Collected(files, indices, names, f + 1, lists', labels', joined.value)
  {
    assert IndicesFitFile(files[f], indices);
    lists' := AppendFileCubes(lists, files[f], indices, names);
    labels' := labels + Repeat(ScanLabel(f), files[f].naxis3);
    joined := ConcatenateAux(acc, files[f].aux);
    CollectStep(files, indices, names, f, lists, labels, acc, lists');
  }

  /**
   * The file loop: every file appends its cubes to the window lists, NAXIS3
   * copies of its scan label, and its auxiliary rows to the stack. It stops at
   * the first auxiliary block that cannot be stacked.
   */
  method CollectFiles(files: seq<SpecFile>, indices: seq<nat>, names: seq<string>)
    returns (lists: map<string, seq<SpecCube>>, labels: seq<string>, aux: Result<AuxAccumulator>)
    requires |names| == |indices| && IndicesFit(files, indices)
    ensures aux == AccumulateAux(Unbound, AuxBlocks(files))
    ensures aux.Success? ==>
              && (forall n :: n in names ==> n in lists && lists[n] == WindowCubes(files, |files|, indices, names, n))
              && labels == ScanLabels(Naxis3s(files))
  {
    lists := map n | n in names :: [];
    labels := [];
    var acc := Unbound;
    var f := 0;
    while f < |files|
      invariant f <= |files| && Collected(files, indices, names, f, lists, labels, acc)
    {
      var joined;
      lists, labels, joined := CollectFile(files, indices, names, f, lists, labels, acc);
      if joined.Failure? {
        AccumulateAuxFailureSticks(Unbound, AuxBlocks(files), f + 1);
        return lists, labels, joined;
      }
      acc := joined.value;
      f := f + 1;
    }
    assert Naxis3s(files)[..f] == Naxis3s(files) && AuxBlocks(files)[..f] == AuxBlocks(files);
    aux := Success(acc);
  }

  /**
   * IRISSpectrograph.__init__ with the evidently intended window selection
   * and auxiliary concatenation. The first file decides the windows and the
   * auxiliary header; every file adds one cube per selected window, NAXIS3
   * scan labels and its auxiliary rows; the last file's header is the meta.
   */
  method NewIrisSpectrograph(filenames: SpecFileNames, request: WindowRequest, commonAxis: int)
    returns (r: Result<IrisSpectrograph>)
    requires ValidFiles(Files(filenames))
    requires Files(filenames) != [] ==> FitsHeader(Files(filenames)[0].auxHeader)
    ensures Files(filenames) == [] ==> r == Failure(UnboundLocalError("auxiliary_header"))
    ensures var files := Files(filenames);
            files != [] ==>
              var sel := SelectWindows(ObservedWindows(files[0].keywords), request, |files[0].windowData|);
              var blocks := AuxBlocks(files);
              && (sel.Failure? ==> r == Failure(sel.error))
              && (sel.Success? && !UniformWidths(blocks) ==> r == Failure(ValueError(WIDTH_MESSAGE)))
              && (r.Success? <==>
                    && sel.Success? && UniformWidths(blocks)
                    && AuxTableBuildable(files[0].auxHeader, StackedAux(files), ScanLabels(Naxis3s(files))))
    ensures var files := Files(filenames);
            r.Success? ==>
              && files != []
              && var indices := SelectWindows(ObservedWindows(files[0].keywords), request, |files[0].windowData|).value;
                 var meta := files[|files| - 1].header;
                 && (forall i :: 0 <= i < |indices| ==> 1 <= indices[i] <= |files[0].keywords|)
                 && IndicesFit(files, indices)
                 && var windows := WindowTable(files[0].keywords, indices);
                    var names := ObservedWindows(windows);
                    && fresh(r.value)
                    && r.value.spectralWindows == windows
                    && r.value.meta == meta
                    && r.value.auxiliaryData == ExpectedAuxTable(files[0].auxHeader, StackedAux(files),
                                                                 ScanLabels(Naxis3s(files)))
                    && (forall n :: n in r.value.data <==> n in names)
                    && (forall n :: n in names ==>
                          r.value.data[n] == CubeSequence(WindowCubes(files, |files|, indices, names, n), meta, commonAxis))
  {
    var files := Files(filenames);
    if files == [] {
      return Failure(UnboundLocalError("auxiliary_header"));
    }
    var sel := SelectWindows(ObservedWindows(files[0].keywords), request, |files[0].windowData|);
    if sel.Failure? {
      return Failure(sel.error);
    }
    var indices := sel.value;
    SelectedIndicesInRange(files[0], request);
    assert IndicesFit(files, indices);
    r := AssembleSpectrograph(files, indices, WindowTable(files[0].keywords, indices), commonAxis);
  }

  /**
   * The part of IRISSpectrograph.__init__ after the window selection: reads
   * every file's window cubes, scan labels and auxiliary rows, builds the
   * auxiliary table and the sequence per window.
   */
  method AssembleSpectrograph(files: seq<SpecFile>, indices: seq<nat>, windows: seq<WindowKeywords>, commonAxis: int)
    returns (r: Result<IrisSpectrograph>)
    requires ValidFiles(files) && files != [] && FitsHeader(files[0].auxHeader)
    requires IndicesFit(files, indices) && windows == WindowTable(files[0].keywords, indices)
    ensures !UniformWidths(AuxBlocks(files)) ==> r == Failure(ValueError(WIDTH_MESSAGE))
    ensures r.Success? <==>
              && UniformWidths(AuxBlocks(files))
              && AuxTableBuildable(files[0].auxHeader, StackedAux(files), ScanLabels(Naxis3s(files)))
    ensures r.Success? ==>
              var meta := files[|files| - 1].header;
              var names := ObservedWindows(windows);
              && fresh(r.value)
              && r.value.spectralWindows == windows
              && r.value.meta == meta
              && r.value.auxiliaryData == ExpectedAuxTable(files[0].auxHeader, StackedAux(files),
                                                           ScanLabels(Naxis3s(files)))
              && (forall n :: n in r.value.data <==> n in names)
              && (forall n :: n in names ==>
                    r.value.data[n] == CubeSequence(WindowCubes(files, |files|, indices, names, n), meta, commonAxis))
  {
    var names := ObservedWindows(windows);
    var lists, labels, aux := CollectFiles(files, indices, names);
    var blocks := AuxBlocks(files);
    AccumulateAuxStacks(blocks);
    if aux.Failure? {
      return Failure(aux.error);
    }
    var stacked := StackedAux(files);
    var table := BuildAuxiliaryTable(files[0].auxHeader, stacked, labels);
    if table.Failure? {
      return Failure(table.error);
    }
    var meta := files[|files| - 1].header;
    var data := map n | n in names :: CubeSequence(lists[n], meta, commonAxis);
    var s := new IrisSpectrograph(windows, meta, table.value, data);
    return Success(s);
  }
}
