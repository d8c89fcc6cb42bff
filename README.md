# irispy core in Dafny

This project models the core of irispy. irispy is the Python package that
reads level-2 data of the IRIS solar observatory (Interface Region Imaging
Spectrograph). The model covers three parts.

- **IrisTools** (`iris_tools.dfy`). These are the unit helpers that the
  cubes call, as far as the package's tests pin them down:
  - the detector-type lookup;
  - the DN <-> photon conversion, with the DN-to-photon factors 4 (FUV),
    18 (NUV) and 18 (SJI);
  - the exposure-time correction and its inverse. These check the unit's
    power of seconds unless forced, and divide or multiply every pixel by
    the exposure time broadcast over it.
- **Sji** (`sji.dfy`). This covers the slit-jaw imager:
  - The `IRISMapCube` class: its `scaled` and `dust_masked` flags,
    slicing, the exposure-time correction, and dust masking that updates
    the mask array in place.
  - The `IRISMapCubeSequence` class, with its sequence-wide correction and
    dust masking.
  - The bookkeeping of `read_iris_sji_level2_fits`: the bad-pixel
    sentinels, the mask, unit and uncertainty of each cube, one cube
    versus a sequence, and the OBSID and passband (TWAVE1) checks.
- **Spectrograph** (`spectrograph.dfy`). This is `IRISSpectrograph.__init__`:
  - the spectral-window selection and the spectral-window table;
  - one cube list per window across the raster files, with NaN in place
    of the bad-pixel value and a mask of those pixels;
  - the `scanN` label of every raster position;
  - the stacking of the auxiliary arrays;
  - the auxiliary-data table: the quantity columns entered by
    `_enter_column_into_table_as_quantity`, then the remaining columns,
    the header order, the renamed exposure-time columns and the scan
    column.

`wrappers.dfy` holds `Option`, `Result`, `Outcome` and the Python exception
classes the code raises. An operation that can raise returns a `Result`.

Further modelling choices:

- Pixel values are reals, or NaN where the code writes NaN.
- An n-dimensional array is a shape and a flat row-major sequence.
- A FITS file is given as the header values and arrays that the code reads
  from it.
- Mutable state keeps its own form:
  - a cube's mask is a view (a start and a length) of an `array<bool>`;
    a slice views a block of its parent's array, and `apply_dust_mask`
    modifies the array through the view in place;
  - `dust_masked` and `scaled` are mutable fields;
  - a sequence's cube list is a mutable field.

  Loops become `while` loops with invariants. Each such loop is proved
  against a specification function (`Correction`, `WindowCubes`,
  `ScanLabels`, `AccumulateAux`, `ExpectedAuxTable`).

## Model

| member | source | states |
|---|---|---|
| IrisTools.ScaleDivideCancel | irispy/tests/test_iris_tools.py:127-148 | Multiplying a pixel by a nonzero exposure time undoes dividing by it, and the other way round; NaN stays NaN |
| IrisTools.ScaleTwice | irispy/tests/test_iris_tools.py:94-116 | Scaling by f then by g is scaling by f*g, so two corrections compound the exposure time |
| IrisTools.DnUnit | irispy/tests/test_iris_tools.py:71-84 | `DN_UNIT` has exactly the keys FUV, NUV, SJI and SJI_UNSCALED; each is a DN unit without seconds |
| IrisTools.PhotonsPer | irispy/tests/test_iris_tools.py:21-29 | Every DN unit except the unscaled SJI one has a positive photon yield |
| IrisTools.ConversionFactor | irispy/tests/test_iris_tools.py:71-92 | A conversion factor exists only between units with the same power of seconds; it is positive, and 1 from a unit to itself |
| IrisTools.ConversionFactorReciprocal | irispy/tests/test_iris_tools.py:78-83 | The factor back is the reciprocal of the factor there |
| IrisTools.ScaleArrays | irispy/tests/test_iris_tools.py:71-92 | Defines the conversion's multiplication of every pixel by the factor; there are as many arrays as before, each as long as before |
| IrisTools.GetDetectorType | irispy/tests/test_iris_tools.py:62-69 | KeyError exactly when the "detector type" key is missing. Otherwise "FUV" for any value that starts with FUV, and any other value unchanged |
| IrisTools.DetectorTypeIsFixedPoint | irispy/tests/test_iris_tools.py:62-69 | Looking up a reported detector type again gives it back |
| IrisTools.DetectorTypeTestCases | irispy/tests/test_iris_tools.py:62-69 | FUV1 gives FUV, NUV gives NUV, SJI gives SJI |
| IrisTools.ScaleArraysTwice | irispy/tests/test_iris_tools.py:71-92 | Scaling arrays by f then g is scaling by f*g |
| IrisTools.ScaleArraysByOne | irispy/tests/test_iris_tools.py:71-92 | Scaling by 1 leaves the arrays unchanged |
| IrisTools.ConvertBetweenDnAndPhotons | irispy/tests/test_iris_tools.py:71-92 | Succeeds exactly when the units convert (otherwise a unit-conversion error); returns as many arrays in the new unit |
| IrisTools.DnToPhotonScales | irispy/tests/test_iris_tools.py:71-83 | DN to photon multiplies every pixel by 4 (FUV), 18 (NUV) or 18 (SJI) at any power of seconds; unscaled SJI does not convert |
| IrisTools.ConversionRoundTrip | irispy/tests/test_iris_tools.py:71-92 | Converting to the new unit and back restores the arrays and the unit exactly |
| IrisTools.ConversionTestCases | irispy/tests/test_iris_tools.py:71-92 | All six parametrised cases, each on a pair of arrays: the DN arrays convert exactly to the FUV, NUV and SJI photon arrays, and those photon arrays convert back to the DN arrays |
| IrisTools.ExposureAt | irispy/tests/test_iris_tools.py:31-32 | The exposure time broadcast onto a pixel is nonzero, and a per-frame one belongs to an existing frame |
| IrisTools.HasInverseTime | irispy/tests/test_iris_tools.py:94-158 | Defines "has inverse time", the condition the unforced corrections check: the unit's power of seconds is negative |
| IrisTools.DivideByExposure | irispy/tests/test_iris_tools.py:94-116 | Defines the division of every pixel by the exposure time broadcast onto it (NaN stays NaN); every array keeps its length |
| IrisTools.MultiplyByExposure | irispy/tests/test_iris_tools.py:127-148 | Defines the multiplication of every pixel by the exposure time broadcast onto it (NaN stays NaN); every array keeps its length |
| IrisTools.MultiplyUndoesDivide | irispy/tests/test_iris_tools.py:94-148 | Multiplying by the exposure time undoes dividing by it |
| IrisTools.DivideUndoesMultiply | irispy/tests/test_iris_tools.py:94-148 | Dividing by the exposure time undoes multiplying by it |
| IrisTools.CalculateExposureTimeCorrection | irispy/tests/test_iris_tools.py:94-125 | ValueError exactly when not forced and the unit already has 1/s; otherwise the unit gains 1/s and the arrays are the input divided by the exposure time |
| IrisTools.UncalculateExposureTimeCorrection | irispy/tests/test_iris_tools.py:127-158 | ValueError exactly when not forced and the unit has no 1/s; otherwise the unit loses 1/s and the arrays are the input multiplied by the exposure time |
| IrisTools.UncalculateUndoesCalculate | irispy/tests/test_iris_tools.py:94-148 | Correcting and then uncorrecting, unforced, from a unit without seconds restores the arrays and the unit |
| IrisTools.CalculateUndoesUncalculate | irispy/tests/test_iris_tools.py:94-148 | Uncorrecting and then correcting, unforced, from a 1/s unit restores the arrays and the unit |
| IrisTools.ForcedCorrectionsInvert | irispy/tests/test_iris_tools.py:102-107 | Forced corrections invert each other for any unit |
| IrisTools.CorrectingTwice | irispy/tests/test_iris_tools.py:102-125 | A second unforced correction raises; a forced one gives 1/s^2 |
| IrisTools.TestPairByExposure | irispy/tests/test_iris_tools.py:94-148 | The 2 s exposure halves every pixel of the tests' pair of DN arrays when dividing and doubles it when multiplying |
| IrisTools.ExposureCorrectionTestCases | irispy/tests/test_iris_tools.py:94-158 | All twelve parametrised cases on the pair of DN arrays: the four corrections give DN/2 with the expected unit, the four removals give DN*2 with the expected unit, and the four error cases fail |
| Sji.SliceFrames | irispy/sji.py:149-154 | Frames lo..hi-1 of axis 0 keep the trailing shape, and their values are the matching contiguous block of the flat data |
| Sji.ReshapeExposure | irispy/sji.py:198-209 | A scalar exposure time is used as it is; a per-frame vector is accepted for 1-, 2- and 3-D data and otherwise raises ValueError |
| Sji.ReshapedExposureFits | irispy/sji.py:198-209 | The reshaped exposure time broadcasts over the data and the uncertainty |
| Sji.CorrectExposure | irispy/sji.py:194-223 | An unscaled (memmap) cube raises ValueError. Success exactly when the cube is scaled, the rank fits, there is an uncertainty and the unit allows the direction. The shape is kept and the unit gains (or loses) 1/s |
| Sji.CorrectedPixel | irispy/sji.py:211-216 | Every corrected data and uncertainty pixel is the original divided (undo: multiplied) by its frame's exposure time |
| Sji.Broadcast3D | irispy/sji.py:204-205 | For (T, Y, X) data, corrected[t, y, x] == data[t, y, x] / exposure[t] |
| Sji.Broadcast2D | irispy/sji.py:202-203 | For (T, Y) data, corrected[t, y] == data[t, y] / exposure[t] |
| Sji.CorrectionRoundTrip | irispy/sji.py:211-216 | Correcting a scaled cube and undoing it, both unforced, restores its data, uncertainty and unit |
| Sji.DustMasked | irispy/sji.py:240-250 | Defines the mask after `mask[dust] = not undo`: `not undo` at the dust positions, the old entry elsewhere; as long as the mask |
| Sji.DustMaskIsOrAndAndNot | irispy/sji.py:240-250 | Applying the dust mask ORs it into the mask; undoing it clears the dust positions |
| Sji.DustMaskIdempotent | irispy/sji.py:240-250 | Applying (or undoing) twice is applying (undoing) once |
| Sji.DustUndoForgetsPriorMask | irispy/sji.py:240-250 | Undoing after applying equals undoing alone, so a pixel masked beforehand ends unmasked |
| Sji.SliceBounds | irispy/sji.py:149-154 | Clamped slice bounds are ordered within the axis and equal start and stop when those are in range |
| Sji.IrisMapCube.constructor | irispy/sji.py:86-100 | Records `scaled` and starts with `dust_masked` False |
| Sji.IrisMapCube.MaskView | irispy/sji.py:96-99 | The cube's mask is its view of the mask array: maskLength entries from maskStart |
| Sji.IrisMapCube.Correction | irispy/sji.py:194-223 | What `apply_exposure_time_correction` computes: an unscaled cube raises ValueError; a success keeps the data's shape and moves the unit's power of seconds by one in the requested direction |
| Sji.IrisMapCube.GetItem | irispy/sji.py:149-154 | The slice is a new cube that keeps this cube's `scaled`, starts undusted, and holds the sliced frames of data, uncertainty and exposure times. Its mask is a view of this cube's mask array over the sliced frames, not a copy |
| Sji.IrisMapCube.ApplyExposureTimeCorrection | irispy/sji.py:166-223 | Fails with the correction's error; otherwise a new cube with the corrected data, uncertainty and unit that keeps meta, mask, exposure and `scaled` |
| Sji.IrisMapCube.ApplyDustMask | irispy/sji.py:225-250 | No mask raises TypeError and a mask of the wrong size IndexError, changing nothing. Otherwise the mask view becomes `not undo` at every dust position and keeps its value elsewhere, entries of the shared array outside the view are unchanged, and `dust_masked` becomes `not undo` |
| Sji.FirstUnmaskable | irispy/sji.py:466-467 | The first cube that cannot take its dust mask: all cubes before it can and it cannot |
| Sji.DustCube | irispy/sji.py:466-467 | One loop pass applies cube i's dust mask and extends what the loop has done; it fails exactly at the first unmaskable cube |
| Sji.CorrectCubes | irispy/sji.py:441-442 | Fails with the first failing cube's error exactly when some cube fails; otherwise a fresh corrected copy of every cube, in order |
| Sji.IrisMapCubeSequence.constructor | irispy/sji.py:272-274 | Stores the cube list, meta and common axis |
| Sji.IrisMapCubeSequence.ApplyExposureTimeCorrection | irispy/sji.py:406-447 | The first failing cube's error propagates and nothing changes. With copy: a new sequence of corrected cubes with the same meta and axis. Without: the list is replaced by the corrected cubes |
| Sji.IrisMapCubeSequence.ApplyDustMask | irispy/sji.py:449-467 | Passes exactly when every cube is maskable, else raises the first unmaskable cube's error. Cubes may share a mask array (a slice views its parent's): an entry becomes `not undo` if a processed cube viewing it has dust over it, and keeps its old value otherwise. Exactly the processed cubes have `dust_masked` set |
| Sji.RawPixels | irispy/sji.py:498 | The image as read, one number per value |
| Sji.MetaOf | irispy/sji.py:541-554 | The cube meta keeps the header's OBSID and TWAVE1, and NBFRAMES is the image's number of frames |
| Sji.Replaced | irispy/sji.py:500-507 | Defines `a[a == sentinel] = replacement`; the image keeps its length |
| Sji.SentinelMask | irispy/sji.py:506-508 | Defines the intended mask: true where the value read is the sentinel; one entry per pixel |
| Sji.ScaledMaskAsWritten | irispy/sji.py:506-508 | Defines the mask as written: compared with -200 after the replacement; one entry per pixel |
| Sji.ReplacedRemovesSentinel | irispy/sji.py:500-507 | After the replacement no pixel holds the sentinel, and exactly the sentinel pixels changed |
| Sji.ScaledMaskAsWrittenIsEmpty | irispy/sji.py:498-508 | As written, the scaled reader's mask flags no pixel |
| Sji.ScaledMaskAsWrittenMissesBadPixel | irispy/sji.py:498-508 | A one-pixel image of -200: the written mask is [false], the intended one [true] |
| Sji.SentinelMaskFlagsReplacedPixels | irispy/sji.py:506-508 | The intended mask flags exactly the pixels the reader sets to NaN |
| Sji.ReplaceSentinel | irispy/sji.py:500-507 | The in-place replacement leaves the array equal to `Replaced` of its old contents |
| Sji.SameObservation | irispy/sji.py:562-569 | Passes exactly when all OBSIDs and all TWAVE1 values agree. A differing OBSID gives the OBSID error; otherwise a differing TWAVE1 gives the passband error |
| Sji.ReadCube | irispy/sji.py:494-557 | The cube of one file. memmap: -32768 becomes 0, unscaled unit, no mask and no uncertainty. Otherwise: -200 becomes NaN, the mask flags those pixels, SJI unit, `scaled` True. Meta is OBSID, TWAVE1 and NBFRAMES; the exposure times are per frame |
| Sji.ReadIrisSjiLevel2Fits | irispy/sji.py:470-570 | One file (string or one-element list) gives its cube. Several give a fresh sequence of the files' cubes in order, with the last file's meta and axis 0, when OBSIDs and passbands agree; otherwise the check's ValueError. An empty list raises UnboundLocalError |
| Spectrograph.OneTo | irispy/spectrograph.py:38 | `range(1, n+1)`: n indices, the i-th is i+1 |
| Spectrograph.Positions | irispy/spectrograph.py:50 | The 1-based positions of the wanted windows, increasing, and exactly those |
| Spectrograph.SelectWindowsAsWritten | irispy/spectrograph.py:33-50 | As written: "All" takes every window extension; a list request raises UnboundLocalError; a missing single name raises TypeError; a present name selects its positions |
| Spectrograph.SelectWindows | irispy/spectrograph.py:33-50 | As intended: "All" takes every extension. Otherwise: success exactly when every requested name is observed (else ValueError), giving the increasing 1-based positions of the requested windows |
| Spectrograph.SelectionAgreesOnPresentNames | irispy/spectrograph.py:36-50 | Both selections agree on "All" and on a single present name |
| Spectrograph.ListRequestAsWrittenFails | irispy/spectrograph.py:40-42 | A list request fails as written and succeeds as intended |
| Spectrograph.MissingWindowAsWrittenRaisesTypeError | irispy/spectrograph.py:45-49 | A missing window raises TypeError as written, ValueError as intended |
| Spectrograph.ObservedWindows | irispy/spectrograph.py:33-34 | The TDESC name of every window, in order (also the names of the window table, lines 65-66) |
| Spectrograph.WindowTable | irispy/spectrograph.py:52-60 | One row per selected index, holding that window's keywords |
| Spectrograph.SelectedIndicesInRange | irispy/spectrograph.py:50-53 | Every selected index names an existing window |
| Spectrograph.CubeOf | irispy/spectrograph.py:72-77 | NaN exactly where the raw data is -200, the mask flags exactly those pixels, and the meta is the file header |
| Spectrograph.FileCubes | irispy/spectrograph.py:70-77 | The cubes one file adds to a window's list: at most one per table entry |
| Spectrograph.FileCubesMissing | irispy/spectrograph.py:70-77 | A name missing from the window table collects no cube |
| Spectrograph.WindowCubes | irispy/spectrograph.py:65-77 | A window's list after the first f files: at most one cube per file and table entry, and empty for a name not in the table |
| Spectrograph.FileCubesUnique | irispy/spectrograph.py:70-77 | A file contributes exactly one cube to a window whose name appears once in the table |
| Spectrograph.OneCubePerFile | irispy/spectrograph.py:65-77 | A window named once has one cube per file, in file order, each from that file's extension for the window |
| Spectrograph.AppendFileCubes | irispy/spectrograph.py:70-77 | The window loop appends each file's cubes to its windows' lists, and the set of windows stays the same |
| Spectrograph.DigitRoundTrip | irispy/spectrograph.py:79 | A digit character reads back as its digit |
| Spectrograph.DecimalRoundTrip | irispy/spectrograph.py:79 | Reading a decimal string back gives the number |
| Spectrograph.ScanLabelInjective | irispy/spectrograph.py:79 | Different files get different scan labels |
| Spectrograph.Repeat | irispy/spectrograph.py:83 | `[label] * n` is n copies of the label |
| Spectrograph.ScanLabelsLayout | irispy/spectrograph.py:79-83 | One label per raster position. File f's NAXIS3 positions, after those of the earlier files, are all labelled `scan{f}` |
| Spectrograph.ScanLabels | irispy/spectrograph.py:79-83 | `raster_index_to_file` after the given files: as many labels as the sum of their NAXIS3 values |
| Spectrograph.ScanLabelsBlock | irispy/spectrograph.py:79-83 | The block of file f in the label list is NAXIS3 copies of `scan{f}` |
| Spectrograph.SumPrefixBound | irispy/spectrograph.py:82-83 | The positions of file f end within the total |
| Spectrograph.ConcatenateAux | irispy/spectrograph.py:85-92 | An unassigned accumulator takes the block; a 1-D accumulator raises the dimension ValueError; 2-D arrays stack rows exactly when their widths match, otherwise the width ValueError |
| Spectrograph.AccumulateAuxAsWrittenFails | irispy/spectrograph.py:27-92 | Starting from the 1-D empty list, stacking one or more files always fails |
| Spectrograph.AccumulateAux | irispy/spectrograph.py:85-92 | After one or more blocks, a success is a 2-D stack as wide as the last block; the only failures are the dimension and width ValueErrors |
| Spectrograph.AuxBlocks | irispy/spectrograph.py:87 | The auxiliary array of every file, in order |
| Spectrograph.AccumulateAuxStacks | irispy/spectrograph.py:85-92 | Starting unassigned: success exactly when all widths agree, giving every row of every file in order; otherwise the width error |
| Spectrograph.UniformWidthsSnoc | irispy/spectrograph.py:85-87 | The widths agree exactly when those before the last do and the last matches the first |
| Spectrograph.AccumulateAuxFailureSticks | irispy/spectrograph.py:85-92 | Once stacking fails, later files keep that error |
| Spectrograph.AllRowsWellFormed | irispy/spectrograph.py:85-87 | Every stacked row has the common width |
| Spectrograph.StackedAux | irispy/spectrograph.py:85-92 | The stacked auxiliary data is well formed with the first file's width |
| Spectrograph.OccurrencesIn | irispy/spectrograph.py:148-149 | A name occurs in the list exactly when its count is positive |
| Spectrograph.RepeatedNameIsDuplicate | irispy/spectrograph.py:148-152 | A name counted twice is a duplicate |
| Spectrograph.IndexOf | irispy/spectrograph.py:148-150 | The first position holding the name |
| Spectrograph.Remove | irispy/spectrograph.py:153 | Removing a name keeps exactly the other names |
| Spectrograph.RemoveOccurrences | irispy/spectrograph.py:153 | After removal the name occurs 0 times and every other name as often as before |
| Spectrograph.OccurrencesAppend | irispy/spectrograph.py:148 | Counts add up over concatenation |
| Spectrograph.PopIsRemove | irispy/spectrograph.py:153 | Popping the only occurrence equals removing the name |
| Spectrograph.RemoveAbsent | irispy/spectrograph.py:153 | Removing an absent name changes nothing |
| Spectrograph.RemoveEachPrefix | irispy/spectrograph.py:102-104 | One more quantity step removes one more name |
| Spectrograph.RemoveEachOccurrences | irispy/spectrograph.py:102-104 | After the quantity steps the removed names occur 0 times and the others as before |
| Spectrograph.RemoveEachMembers | irispy/spectrograph.py:102-107 | The remaining names are the header names that are not quantity names |
| Spectrograph.HeaderValue | irispy/spectrograph.py:107 | `header[key]` is absent exactly when no card has that keyword |
| Spectrograph.AuxColumnNames | irispy/spectrograph.py:98 | The header keywords from the eighth on, in order |
| Spectrograph.ColumnFromHeader | irispy/spectrograph.py:107 | `data[:, header[key]]`: KeyError for a missing key, IndexError outside the width; otherwise that column of every row, negative indices from the right |
| Spectrograph.EnterColumnIntoTableAsQuantity | irispy/spectrograph.py:146-154 | Success exactly when the name occurs once and its column exists; otherwise the "Multiple" ValueError or the column error. Returns the column with the unit and the list with that one entry popped |
| Spectrograph.QuantityNames | irispy/spectrograph.py:99-101 | The eight quantity names in order |
| Spectrograph.QuantityColumnFacts | irispy/spectrograph.py:99-101 | The quantity names are distinct and each carries its listed unit |
| Spectrograph.ColumnNames | irispy/spectrograph.py:109 | The table's column names in order |
| Spectrograph.SetColumn | irispy/spectrograph.py:103-117 | `table[name] = col`: a length mismatch raises ValueError. Otherwise name maps to col, other names keep their columns, and a new name is appended |
| Spectrograph.IndexOfAppend | irispy/spectrograph.py:103 | Appending a column does not move the existing names |
| Spectrograph.Absent | irispy/spectrograph.py:109 | The requested names that the table lacks |
| Spectrograph.SelectColumns | irispy/spectrograph.py:109 | `table[order]`: success exactly when every name exists and none repeats (repeat: ValueError), giving those columns in that order |
| Spectrograph.RenameColumn | irispy/spectrograph.py:112-113 | Success exactly when `from` exists and `to` does not (else KeyError); the column keeps its place and contents |
| Spectrograph.KeywordColumns | irispy/spectrograph.py:98-113 | One column per auxiliary keyword, in header order, under its display name |
| Spectrograph.ExpectedAuxTable | irispy/spectrograph.py:95-117 | The finished table: one column per auxiliary keyword, then the "scan" column holding the labels |
| Spectrograph.RenameDistinct | irispy/spectrograph.py:112-113 | With distinct names, renaming changes exactly that column's name and keeps the names distinct |
| Spectrograph.DisplayNamesAreNotKeywords | irispy/spectrograph.py:111-117 | "scan" and the two display names cannot be header keywords |
| Spectrograph.EnterQuantityColumns | irispy/spectrograph.py:102-104 | Success exactly when every quantity name occurs once and has a column. The table then holds the eight quantity columns with their units, and the list holds the remaining names |
| Spectrograph.EnterQuantity | irispy/spectrograph.py:102-104 | One pass of the quantity loop succeeds exactly when that name occurs once and has a column, and it extends what the loop has entered |
| Spectrograph.AllQuantitiesEntered | irispy/spectrograph.py:102-104 | After eight steps: the names are popped and every quantity column holds its data with its unit |
| Spectrograph.QuantityOccurrences | irispy/spectrograph.py:148 | Before step i, the i-th name occurs in the shrinking list as often as in the header |
| Spectrograph.EnterQuantityStep | irispy/spectrograph.py:103-104 | A successful step appends the new quantity column |
| Spectrograph.QuantityNotInTable | irispy/spectrograph.py:103 | Before step i, the table has no column of the i-th name |
| Spectrograph.QuantityNotYetEntered | irispy/spectrograph.py:99-101 | The i-th quantity name is not among the earlier ones |
| Spectrograph.LookupDistinct | irispy/spectrograph.py:109 | With distinct names, looking up a column's name finds that column |
| Spectrograph.EnterRemainingColumns | irispy/spectrograph.py:106-107 | Success exactly when every remaining name has a column; each gets its column without a unit, and other names keep theirs |
| Spectrograph.EnterAuxColumns | irispy/spectrograph.py:102-107 | Both loops succeed exactly when the quantity loop runs through and every name has a column; every keyword then maps to its final column |
| Spectrograph.RemainingNames | irispy/spectrograph.py:102-106 | The names left after the quantity loop are the non-quantity header names |
| Spectrograph.AllNamesEntered | irispy/spectrograph.py:102-107 | After both loops every header keyword maps to its final column |
| Spectrograph.DistinctOccursOnce | irispy/spectrograph.py:149 | A name in a duplicate-free list occurs once |
| Spectrograph.ArrangeAuxColumns | irispy/spectrograph.py:109-117 | Reorder, rename and add the scan column: success exactly when the names are distinct and there is one label per row, giving the expected table |
| Spectrograph.DisplayColumns | irispy/spectrograph.py:109-117 | The renamed selected table plus the scan column is the expected table |
| Spectrograph.SelectedAuxColumns | irispy/spectrograph.py:109 | Selecting the header names in order gives each keyword's final column |
| Spectrograph.RenameExposureColumns | irispy/spectrograph.py:111-113 | The two renamings give every column its display name, and none is "scan" |
| Spectrograph.BuildAuxiliaryTable | irispy/spectrograph.py:95-117 | Built exactly when the names are distinct, all quantity names present, every column exists and labels match rows. It is then one column per keyword in header order (quantities with units, exposure times renamed), then "scan" |
| Spectrograph.IrisSpectrograph.constructor | irispy/spectrograph.py:52-124 | Stores the window table, meta, auxiliary table and data |
| Spectrograph.Naxis3s | irispy/spectrograph.py:82 | The NAXIS3 of every file, in order |
| Spectrograph.WindowListsStep | irispy/spectrograph.py:70-77 | One file's pass extends each window's list to include that file |
| Spectrograph.ScanLabelsPrefix | irispy/spectrograph.py:83 | One more file appends NAXIS3 copies of its label |
| Spectrograph.AccumulateAuxPrefix | irispy/spectrograph.py:85-87 | One more file concatenates its block |
| Spectrograph.CollectStep | irispy/spectrograph.py:28-93 | One pass extends the window lists, labels and stacked rows to the next file |
| Spectrograph.CollectFile | irispy/spectrograph.py:69-92 | One pass of the file loop computes exactly the next stacking step and, on success, what has been built through that file |
| Spectrograph.CollectFiles | irispy/spectrograph.py:28-93 | The stacking result is that of all files; on success each window's list and the scan labels are those of all files |
| Spectrograph.NewIrisSpectrograph | irispy/spectrograph.py:21-124 | No file raises UnboundLocalError; a failing selection propagates; mismatched widths give the width error. Success exactly when the selection works, widths agree and the table is buildable. Then: the window table, the last file's meta, the expected table, one sequence per window of its cubes from all files |
| Spectrograph.AssembleSpectrograph | irispy/spectrograph.py:65-124 | After selection: success exactly when widths agree and the table is buildable; the result holds the window table, the last file's meta, the expected table and one sequence per window |

## Left out

- irispy/iris_tools.py is not part of this model. The tools module's helpers are modelled from their use in `sji.py` and from the contracts its tests fix. That includes "has inverse time", read as a negative power of seconds in the unit.
- `get_iris_response`, `fit_iris_xput` and `calculate_dust_mask` are left out: the response files and numerical fits are outside the model. The dust mask is an input of `ApplyDustMask`.
- FITS I/O is left out. `hdulist.verify('fix')`, the WCS, the readout-noise uncertainty formula and the SJI time coordinates are inputs or absent; each file is a datatype of the values the code reads.
- The spectrograph's measurement times (irispy/spectrograph.py:120-121) are left out because they parse dates; the cube sequences are modelled without `time`.
- `__repr__`, `plot`, the sequence's `__getitem__`/`dimensions`, and the deprecated classes and functions that only raise ImportError are left out: they are display or deprecation shims.
- Floating point is left out. Pixels are reals or NaN, conversions are exact, and `assert_allclose` becomes equality. A zero exposure time (which numpy turns into inf/NaN) is excluded by precondition.
- NDCube internals (WCS slicing, extra-coordinate objects, integer indexing that drops axes) are left out. Only slicing axis 0 with `start:stop` is modelled; `missing_axes` is carried unchanged.
- The memmap reader's in-place write into the memory-mapped file is left out: the model writes into its own copy of the image.
- Spectrograph cube meta holds the file's primary header. Only the spectrograph's `self.meta` (the last file's header) is modelled as a map; SJI meta keeps OBSID, TWAVE1 and NBFRAMES.
- Error messages that format run-time values (the array rank, the missing window names, the file name) keep only their fixed text.
- Sji.IrisMapCube.GetItem: integer or tuple indices are not modelled, only a slice of axis 0 with non-negative start and stop and step 1 (negative bounds such as `cube[-2:]` and omitted `None` bounds are not modelled). The view is a start and a length in one array, which is what a slice of axis 0 of a C-ordered mask is; strided views are not modelled.
- IrisTools.ExposureCorrectionTestCases: the tests' length-3 `EXPOSURE_TIME` vector of 2 s, broadcast along the last axis of the 2x3 arrays, is rendered as the scalar 2 s. Every pixel is divided or multiplied by 2 s either way, but broadcasting along the last axis is not modelled.
- Spectrograph.NewIrisSpectrograph: assumes every file is well formed (NWIN equals the number of window extensions and the auxiliary array is rectangular), that every file has the first file's number of windows, and that the auxiliary header's keywords are FITS keywords (upper case, at most 8 characters), which is what makes the renamed columns and "scan" new.

## Findings

| source | as written | input that shows it | evidently intended | confidence | as-written member | corrected member |
|---|---|---|---|---|---|---|
| irispy/sji.py:498-508 | The mask compares `data_nan_masked` with -200 after the same array had its -200 pixels set to NaN (`data` and `data_nan_masked` are one array), so no pixel is masked | A one-pixel image holding -200 | The mask flags the pixels that held -200 | not executed | Sji.ScaledMaskAsWrittenMissesBadPixel | Sji.SentinelMaskFlagsReplacedPixels |
| irispy/spectrograph.py:85-92 | `auxiliary_data` starts as `[]` (line 27), so the first concatenation joins a 1-D with a 2-D array and raises ValueError; the UnboundLocalError fallback never runs | Any single file with a 2-D auxiliary array | The first file's array starts the stack | not executed | Spectrograph.AccumulateAuxAsWrittenFails | Spectrograph.AccumulateAuxStacks |
| irispy/spectrograph.py:40-42 | `spectral_windows_req` is assigned only for a string request, so a list request raises UnboundLocalError | `spectral_windows=["Si IV 1403"]` on an observation with that window | A list of names selects those windows | not executed | Spectrograph.ListRequestAsWrittenFails | Spectrograph.SelectWindows |
| irispy/spectrograph.py:45-49 | The error message indexes the request string with a boolean array, which raises TypeError instead of the ValueError | `spectral_windows="Mg II k 2796"` on an observation without it | ValueError naming the missing windows | not executed | Spectrograph.MissingWindowAsWrittenRaisesTypeError | Spectrograph.SelectWindows |
