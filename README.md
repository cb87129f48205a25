# fitanalysis core, modelled in Dafny

fitanalysis reads FIT running activities. It can merge heart-rate samples
from an offline CSV export into an activity, and it shows and exports the
result. This project models the parts of that system that decide values:

- **The offline heart-rate merge.** This covers reading the CSV's metadata
  and data section, rebuilding its time line from the `Second` counter,
  and estimating a clock offset from a 0.1 s histogram. It then chooses
  between `metadata_align` and `linear_interpolate` by the exact-match
  ratio and writes one value per record into its `iq_fields`. It also
  keeps `available_iq_fields` sorted and records provenance.
- **The device field registry.** This covers prefix lookup, alias
  normalisation, display labels, registration and the exported
  configuration.
- **Unit normalisation.** A configured scale factor is applied first, then
  the result is checked against the field's range. If that fails, an
  ordered search over fallback scale factors runs.
- **Helpers of the FIT parser and the CSV exporter.** These are:
  - available-field collection;
  - elapsed-time back-fill;
  - pace and duration texts;
  - record flattening;
  - the CSV header.
- **Logic of the chart and page scripts.** These are:
  - unit-type classification;
  - first-match field grouping;
  - time-axis texts;
  - imported-field labels;
  - trace colours;
  - the lap-field filter;
  - pagination;
  - the ten-activity selection cap.

One module per source file:
- `hr_csv_parse.dfy` holds the CSV reading half of `backend/hr_csv_merge.py`.
- `hr_search.dfy` holds its time-line lookups.
- `hr_csv_merge.dfy` holds the merge itself.
- `device_mappings.dfy`, `field_units.dfy`, `fit_parser.dfy`,
  `csv_exporter.dfy`, `charts.dfy` and `app.dfy` follow the files of the
  same names.

Shared modules:
- `Wrappers` holds Option and Result.
- `Numbers` holds Python and JavaScript division, remainder and rounding.
- `Text` holds digits, padding, prefix tests and ASCII lower-casing and stripping.
- `Clock` holds `M:SS` and `H:MM:SS` texts and their read-back.
- `Seqs` holds the insertion order of a set.
- `Sorting` holds Python's string order and `sorted`.
- `Tables` models a JavaScript object or Python dict as an insertion-ordered list of pairs.
- `Models` holds the record, session and activity data.

Where the source changes state in place, the model is a class or a method:
- The activity's records and IQ field list, and the device registry, are fields of classes with `modifies` clauses.
- The page state of the page script is also a class.
- Loops are `while`/`for` loops, each proved against a function that specifies it.

Inputs and outputs that the system gets from libraries become parameters:
- Date-time parsing and formatting (`strptime`, `strftime`) are oracle functions.
- The time-zone coercion is an abstract function from seconds to seconds.
- Text decoding and CSV tokenising are replaced by taking rows of cells as input.

Times are `real` seconds relative to a base timestamp.

## Model

| member | source | states |
|---|---|---|
| HrCsvParse.SanitizeDeviceName | backend/hr_csv_merge.py:31-45 | the result is always a usable fragment: only `[a-z0-9_]`, no `_` at either end, no `__` |
| HrCsvParse.SanitizeDeviceNameSpec | backend/hr_csv_merge.py:31-45 | "default" for None, the empty name, or a name with no letter or digit; otherwise the letters and digits of the lower-cased name in order |
| HrCsvParse.CollapseRunsSpec | backend/hr_csv_merge.py:42 | the collapsed text has only `[a-z0-9_]` and no `__`, is empty exactly for the empty input, starts with `_` exactly when the input starts outside `[a-z0-9]`, and keeps the letters and digits in order |
| HrCsvParse.CollapseKeepsIdentHead | backend/hr_csv_merge.py:42 | a letter or digit at the front is copied through |
| HrCsvParse.CollapseKeepsWord | backend/hr_csv_merge.py:42 | a word of letters and digits at the front is copied through unchanged |
| HrCsvParse.CollapseRunToUnderscore | backend/hr_csv_merge.py:42 | a maximal run outside `[a-z0-9]` at the front becomes exactly one `_` |
| HrCsvParse.CollapseInterleave | backend/hr_csv_merge.py:42 | words separated by maximal runs outside `[a-z0-9]`, then a trailing run, collapse to the words joined by single `_`, plus one `_` when the trailing run is non-empty |
| HrCsvParse.CollapseNameShape | backend/hr_csv_merge.py:42 | a leading run, separated words and a trailing run collapse to the joined words with one `_` for each non-empty end run |
| HrCsvParse.StripUnderscoreEnds | backend/hr_csv_merge.py:44 | `strip('_')` removes a single `_` at either end and leaves a word list joined by `_` intact |
| HrCsvParse.SanitizeJoinsWords | backend/hr_csv_merge.py:31-45 | for every name whose lower-cased form is words of `[a-z0-9]` separated and surrounded by runs of other characters, the result is the words joined by single underscores |
| HrCsvParse.SanitizePolarH10 | backend/test_hr_csv_merge.py:18-19 | "Polar H10" sanitises to "polar_h10" |
| HrCsvParse.SanitizeGarminHrmDual | backend/test_hr_csv_merge.py:21-22 | "Garmin HRM-Dual" sanitises to "garmin_hrm_dual" |
| HrCsvParse.SanitizeDeviceNameSpaced | backend/test_hr_csv_merge.py:24-25 | "Device  Name!!" sanitises to "device_name" |
| HrCsvParse.SanitizePadded | backend/test_hr_csv_merge.py:27-28 | "  Device123  " sanitises to "device123" |
| HrCsvParse.SanitizeSymbolsOnly | backend/test_hr_csv_merge.py:12-16 | a name of symbols only sanitises to "default" |
| HrCsvParse.ParseTimeCellSpec | backend/hr_csv_merge.py:128-153 | a blank cell gives None; a value exactly when a full layout reads the cell, or a time-of-day layout does and there is a base date; the first full layout that reads it gives the value; otherwise the base date plus `%H:%M:%S`, or plus `%H:%M` when `%H:%M:%S` does not read it; None when nothing reads it |
| HrCsvParse.SearchLimit | backend/hr_csv_merge.py:77 | the metadata search starts from at most `min(len(rows) - 1, cap)` rows |
| HrCsvParse.ParseDateFromSummary | backend/hr_csv_merge.py:72-87 | a date is found only below a `name,sport,date,start time` header row |
| HrCsvParse.NoHeaderNoDate | backend/hr_csv_merge.py:77-87 | without a summary header in the search range there is no date |
| HrCsvParse.CellIndex | backend/hr_csv_merge.py:103 | `header.index(label)`: the first cell whose stripped lower-cased text is the label, or None when none is |
| HrCsvParse.DeviceFromHeaderColumn | backend/hr_csv_merge.py:101-110 | the header-column layout yields only non-blank names |
| HrCsvParse.DeviceBelowLabel | backend/hr_csv_merge.py:119-122 | a name found below a `Device Name` label is non-blank and is not the label again |
| HrCsvParse.DeviceFromLabel | backend/hr_csv_merge.py:113-124 | the stand-alone layout yields only non-blank names |
| HrCsvParse.ExtractDeviceName | backend/hr_csv_merge.py:90-125 | the header-column layout is tried first, then the label layout; any name found is non-blank |
| HrCsvParse.DataHeaderFrom | backend/hr_csv_merge.py:167-176 | the first `Time,Second,HR` row from an index on; None exactly when no later row is one |
| HrCsvParse.FindDataHeader | backend/hr_csv_merge.py:167-176 | the header search loop finds the first data header row |
| HrCsvParse.RawSamples | backend/hr_csv_merge.py:183-202 | at most one sample per row of the range |
| HrCsvParse.Kept | backend/hr_csv_merge.py:183-202 | at most one sample per row of the range, whatever the row parser |
| HrCsvParse.KeptFromRows | backend/hr_csv_merge.py:183-202 | every kept sample is what the row parser gives for a row in range |
| HrCsvParse.KeptSplit | backend/hr_csv_merge.py:183-202 | the kept samples of a range are those of its two halves, in order |
| HrCsvParse.KeptEmpty | backend/hr_csv_merge.py:183-204 | a range keeps nothing exactly when the row parser gives nothing for each of its rows |
| HrCsvParse.RawSamplesFromRows | backend/hr_csv_merge.py:183-202 | every raw sample is the parse of a data row in range |
| HrCsvParse.RawSamplesAround | backend/hr_csv_merge.py:183-202 | every parseable row in range contributes its sample, placed after the samples of the rows before it and before those of the rows after it |
| HrCsvParse.RawSamplesSplit | backend/hr_csv_merge.py:183-202 | the samples of a range are those of its two halves, in order |
| HrCsvParse.RawSamplesEmpty | backend/hr_csv_merge.py:183-204 | a range has no samples exactly when none of its rows parses |
| HrCsvParse.CollectRawSamples | backend/hr_csv_merge.py:181-202 | the data-row loop keeps every parseable row after the header, in row order |
| HrCsvParse.CorrectTimeline | backend/hr_csv_merge.py:207-212 | every corrected time is `t0 + (s - s0)`, in the same order and with the same bpm |
| HrCsvParse.CorrectSamples | backend/hr_csv_merge.py:208-212 | the correction loop computes the corrected time line |
| HrCsvParse.SortByTime | backend/hr_csv_merge.py:215 | the sort is a permutation of the samples |
| HrCsvParse.SortByTimeStable | backend/hr_csv_merge.py:214-215 | the sorted samples are in time order, and samples sharing a time keep their relative order |
| HrCsvParse.ParseOfflineHrCsv | backend/hr_csv_merge.py:156-217 | the parser method returns exactly the specified result or error |
| HrCsvParse.ParseResultNoHeader | backend/hr_csv_merge.py:178-179 | the missing-header error is raised exactly when no row is a data header |
| HrCsvParse.ParseResultNoSamples | backend/hr_csv_merge.py:178-205 | the no-samples error is raised exactly when there is a data header and no row after it parses |
| HrCsvParse.ParseResultSamples | backend/hr_csv_merge.py:204-217 | a successful parse keeps the file and device names and returns a non-empty, time-sorted, stable permutation of the corrected samples |
| HrSearch.NearestIndex | backend/hr_csv_merge.py:331-341 | the binary-search loop returns the bisection index, a lower bound of `t` on sorted times |
| HrSearch.BisectLeft | backend/hr_csv_merge.py:331-341 | the index lies in `[0, len]` |
| HrSearch.BisectLeftLowerBound | backend/hr_csv_merge.py:331-341 | on sorted times every element before the index is below `t` and none from it on is; it is the only such index |
| HrSearch.FindNearestTime | backend/hr_csv_merge.py:344-355 | None exactly for no times; otherwise the candidate at `i` or `i-1` nearer to `t` |
| HrSearch.NearestIsGlobal | backend/hr_csv_merge.py:344-355 | on sorted times no sample is nearer to `t` than the one found |
| HrSearch.HasMatchWithin | backend/hr_csv_merge.py:358-366 | false for no times; true only when some sample lies within `tol` |
| HrSearch.HasMatchIffNearestWithin | backend/hr_csv_merge.py:358-366 | true exactly when the sample the nearest-time search finds lies within `tol` |
| HrSearch.HasMatchWithinComplete | backend/hr_csv_merge.py:358-366 | on sorted times true exactly when any sample lies within `tol` |
| HrSearch.NearestCandidate | backend/hr_csv_merge.py:514-523 | the alignment lookup's index is that of the nearest time found by the nearest-time search |
| HrSearch.InterpolateValue | backend/hr_csv_merge.py:369-413 | None for no samples; an exact hit gives its value; with no left neighbour, None unless extrapolating (then the first value), and likewise the last value on the right; a bracket wider than the gap gives None |
| HrSearch.InterpolationWithinBracket | backend/hr_csv_merge.py:396-413 | on sorted times an interpolated value lies between the two bracketing values |
| HrCsvMerge.EffectiveOptions | backend/hr_csv_merge.py:220-252 | every criterion is filled in; each is the caller's value when given, else the configured default (8, 1, 0.85, 5, false) |
| HrCsvMerge.BaseTimestamp | backend/hr_csv_merge.py:255-261 | the session start when set, else the first record timestamp |
| HrCsvMerge.RecordDatetime | backend/hr_csv_merge.py:264-270 | the record timestamp, else the base plus the elapsed time, None exactly when both are missing |
| HrCsvMerge.CsvTimesSorted | backend/hr_csv_merge.py:432-437 | with an order-preserving coercion the CSV time line is sorted |
| HrCsvMerge.BuildCsvTimeline | backend/hr_csv_merge.py:432-437 | the loop builds the CSV times relative to the base and the bpm values |
| HrCsvMerge.BuildFitTimes | backend/hr_csv_merge.py:443-448 | the loop builds one relative time or None per record |
| HrCsvMerge.WindowSize | backend/hr_csv_merge.py:457 | the offset search looks at `min(800, n)` record entries |
| HrCsvMerge.DeltasBounded | backend/hr_csv_merge.py:457-463 | every kept delta is within `max_shift + tol` |
| HrCsvMerge.ComputeDeltas | backend/hr_csv_merge.py:456-463 | the loop collects the nearest-neighbour deltas of the first 800 entries |
| HrCsvMerge.Bin | backend/hr_csv_merge.py:471 | a bin is within 0.05 of its delta |
| HrCsvMerge.BinsBounded | backend/hr_csv_merge.py:469-472 | every bin is within `max_shift` plus half a grid step |
| HrCsvMerge.CountBins | backend/hr_csv_merge.py:468-472 | the histogram loop counts each bin, with keys in insertion order |
| HrCsvMerge.FirstMaxKey | backend/hr_csv_merge.py:474 | `max(counts.items(), key=count)` is the first key of largest count |
| HrCsvMerge.FirstMaxSpec | backend/hr_csv_merge.py:474 | no key counts more than the pick, and every key before it counts less |
| HrCsvMerge.MostFrequentIsMax | backend/hr_csv_merge.py:474 | the pick is a bin and no bin is more frequent |
| HrCsvMerge.MostFrequentFirstOnTie | backend/hr_csv_merge.py:474 | a tie goes to the bin seen first |
| HrCsvMerge.ChooseBestOffset | backend/hr_csv_merge.py:465-474 | the offset code computes the specified best offset |
| HrCsvMerge.BestOffsetSpec | backend/hr_csv_merge.py:465-474 | the offset is 0 when no delta is within `max_shift`; otherwise it is the most frequent bin, first on a tie |
| HrCsvMerge.ExactTol | backend/hr_csv_merge.py:480 | 0 when `tol <= 0`, otherwise `min(0.2, tol / 5)` |
| HrCsvMerge.ExactMatchesBounded | backend/hr_csv_merge.py:477-489 | exact matches never exceed the timed records, and there are none with a zero tolerance |
| HrCsvMerge.CountMatches | backend/hr_csv_merge.py:477-489 | the counting loop returns the timed total and the exact matches |
| HrCsvMerge.MatchRatio | backend/hr_csv_merge.py:491 | 0 with no timed record, otherwise `matched / total`, within `[0, 1]` |
| HrCsvMerge.Resolve | backend/hr_csv_merge.py:505-540 | an untimed record is dropped; alignment mode gives only aligned, too-far or no-candidate outcomes, and interpolation mode only interpolated or unavailable ones |
| HrCsvMerge.AlignedValueSpec | backend/hr_csv_merge.py:512-528 | in alignment mode a record gets the nearest sample's value exactly when that sample is within `exact_tol`; on sorted times, exactly when any sample is |
| HrCsvMerge.InterpolatedValueSpec | backend/hr_csv_merge.py:529-540 | in interpolation mode a record gets exactly what `_interpolate_value` returns, and is dropped exactly when that is None |
| HrCsvMerge.MergeRecord | backend/hr_csv_merge.py:542-543 | only `iq_fields[key]` changes, and only when a value was resolved |
| HrCsvMerge.CountsPartition | backend/hr_csv_merge.py:502-540 | once the CSV has a sample, every record is written or dropped, never both; interpolation counts only in interpolation mode, where it equals the written count |
| HrCsvMerge.ApplyOutcomes | backend/hr_csv_merge.py:502-543 | the merge loop writes each resolved value into its record and returns the dropped and interpolated counts |
| HrCsvMerge.IqKey | backend/hr_csv_merge.py:498-499 | `imported_` + the sanitised device name + `_hr` |
| HrCsvMerge.AddIqFieldSpec | backend/hr_csv_merge.py:546-548 | afterwards the key is listed and appears once; a new key sorts the list and adds nothing else; a sorted list stays sorted |
| HrCsvMerge.AddIqFieldIdempotent | backend/hr_csv_merge.py:546-548 | adding the key again changes nothing |
| HrCsvMerge.Ratio | backend/hr_csv_merge.py:550-552 | None exactly with no timed record, otherwise `n / total` |
| HrCsvMerge.MergeIntoActivity | backend/hr_csv_merge.py:451-567 | the activity's records, IQ fields and provenance become the specified merge of the two time lines; the session and standard fields are unchanged |
| HrCsvMerge.MergeOfflineHrCsvIntoActivity | backend/hr_csv_merge.py:416-569 | the merge either raises an error and leaves the activity alone, or applies the specified merge |
| HrCsvMerge.MergeErrors | backend/hr_csv_merge.py:423-440 | the errors are the parser's, then "no base timestamp"; the empty-CSV error cannot occur |
| HrCsvMerge.MergeTimelinesSpec | backend/hr_csv_merge.py:477-567 | every record keeps all but `iq_fields[key]`; the key is listed; `metadata_align` exactly when a record is timed and the ratio reaches the minimum; the ratio is in `[0, 1]`; the other ratios are None exactly with no timed record |
| DeviceMappings.MakeFieldMapping | backend/device_mappings.py:54-59 | a missing storage or display unit becomes `unit`; a given one is kept |
| DeviceMappings.DragonRunFieldCount | backend/device_mappings.py:78-244 | the DragonRun table has 23 fields, each keyed by its own name |
| DeviceMappings.AliasTargetsAreFields | backend/device_mappings.py:247-271 | every alias target is a field of the table |
| DeviceMappings.AliasTargetsSinglePrefix | backend/device_mappings.py:247-271 | every alias target contains `dr_` exactly once |
| DeviceMappings.FirstByPrefixSpec | backend/device_mappings.py:298-311 | None exactly when no device prefix starts the name, otherwise the earliest registered match |
| DeviceMappings.NormalizeFieldNameSpec | backend/device_mappings.py:314-332 | an unmatched name is unchanged; a matched one becomes its first alias target, or stays itself when it is no alias |
| DeviceMappings.DisplayLabelSpec | backend/device_mappings.py:335-352 | an unknown device or field gives the name; a known field gives prefix, label and ` (unit)` |
| DeviceMappings.Registered | backend/device_mappings.py:288-295 | registering replaces one device or adds one, never more |
| DeviceMappings.RegisteredSpec | backend/device_mappings.py:288-295 | `config` becomes the device of its id, other devices keep their places, and a new id comes last |
| DeviceMappings.RegisteredPositions | backend/device_mappings.py:288-295 | devices with another id keep their index, and an id not yet registered is appended at the end |
| DeviceMappings.RegisteredReplaces | backend/device_mappings.py:288-295 | when the ids are distinct, the device holding `config`'s id is replaced at its own index and the length does not change |
| DeviceMappings.ExportFields | backend/device_mappings.py:393-409 | one exported field per table row |
| DeviceMappings.ExportAllSpec | backend/device_mappings.py:385-411 | the export's keys are the registered ids, and each entry describes its device |
| DeviceMappings.ExportedLabelIsDisplayLabel | backend/device_mappings.py:396-397 | an exported `full_label` equals the display label of that field |
| DeviceMappings.DeviceRegistry.constructor | backend/device_mappings.py:419-426 | importing the module registers DragonRun as the only device |
| DeviceMappings.DeviceRegistry.Register | backend/device_mappings.py:288-295 | the registry becomes the registered list |
| DeviceMappings.DeviceRegistry.GetAllDevicesConfig | backend/device_mappings.py:385-411 | the nested loops build exactly the specified export |
| DeviceMappings.SingleDeviceLookup | backend/device_mappings.py:298-311 | with one device, a lookup finds it exactly when its prefix starts the name |
| DeviceMappings.DefaultPrefixLookups | test/backend/test_device_mappings.py:125-139 | `dr_gct` and `dr_v_osc` find DragonRun; `garmin_gct`, `unknown_field` and `heart_rate` find nothing |
| DeviceMappings.DefaultNormalizationStance | backend/device_mappings.py:319 | `dr_stance` normalises to `dr_gct` |
| DeviceMappings.DefaultNormalizationCase | test/backend/test_device_mappings.py:209-220 | `dr_ssl` normalises to `dr_SSL` |
| DeviceMappings.DefaultDisplayLabel | backend/device_mappings.py:339 | `dr_gct` is labelled `DR_触地时间 (ms)` |
| FieldUnits.RangesOfDomain | backend/field_units.py:605-608 | the fields with a range are exactly the configured ones |
| FieldUnits.RangesOfLast | backend/field_units.py:605-608 | a field configured twice has the range of its last configuration |
| FieldUnits.Rescalings | backend/field_units.py:638-640 | one candidate per scale factor, the value times that factor |
| FieldUnits.FirstInRangeSpec | backend/field_units.py:640-644 | the search fails exactly when no candidate is in range, otherwise it gives the first that is |
| FieldUnits.SmartUnitDetectionSpec | backend/field_units.py:615-650 | an in-range value is kept; any result is in range; it is the value times the first factor that brings it into range; None exactly when none does |
| FieldUnits.NormalizeWithNone | backend/field_units.py:671-672 | None in, None out |
| FieldUnits.NormalizeWithConfigured | backend/field_units.py:677-699 | a configured field gets its in-range conversion; otherwise the detected value, and the out-of-range conversion when detection fails |
| FieldUnits.NormalizeWithUnconfigured | backend/field_units.py:705-713 | an unconfigured field goes through detection when it has a range, keeps its value when detection fails, and is unchanged without a range |
| FieldUnits.VerticalOscillationExample | backend/field_units.py:70-77 | 79.1 mm of vertical oscillation normalises to 7.91 cm |
| FieldUnits.DragonRunTimestampExample | backend/field_units.py:345-352 | an out-of-range DragonRun timestamp is rescaled by detection |
| FitParser.SpeedToPaceSpec | backend/fit_parser.py:30-37 | "--:--" exactly for None or non-positive speed; otherwise `M:SS` with two-digit seconds that reads back as the whole seconds of `1000 / speed` |
| FitParser.RecordCadence | backend/fit_parser.py:146-148 | None exactly when the raw cadence is None, otherwise twice it |
| FitParser.BackfillElapsedTime | backend/fit_parser.py:446-464 | the loops compute exactly the specified back-filled records |
| FitParser.BackfilledSpec | backend/fit_parser.py:446-464 | an existing elapsed time is kept; a missing one becomes timestamp minus the first timestamp, else distance / avg speed when that is positive, else the index; nothing else changes |
| FitParser.SeenStep | backend/fit_parser.py:317-332 | one more record adds its IQ names to those seen |
| FitParser.CollectStandard | backend/fit_parser.py:305-314 | the standard names non-None in the first record |
| FitParser.CollectIq | backend/fit_parser.py:317-332 | the loop's dictionary holds exactly the IQ names seen that do not start `lap_` or `s_`, each marked true exactly when some record has a non-None value for it |
| FitParser.AddRecordIq | backend/fit_parser.py:318-330 | one record's IQ entries are added to the dictionary, summary names skipped |
| FitParser.CollectAvailableFields | backend/fit_parser.py:293-334 | both lists sorted and duplicate-free, with exactly the specified members; no records give two empty lists |
| CsvExporter.FormatTimestamp | backend/csv_exporter.py:14-18 | None gives "" |
| CsvExporter.FormatPaceSpec | backend/csv_exporter.py:21-28 | "" exactly for None or non-positive speed; otherwise the parser's pace text |
| CsvExporter.FormatDurationSpec | backend/csv_exporter.py:31-40 | "" for None; `H:MM:SS` from an hour on and `M:SS` below, reading back as the whole seconds |
| CsvExporter.Round3 | backend/csv_exporter.py:49 | within 0.0005 of the value |
| CsvExporter.AddIqColumns | backend/csv_exporter.py:67-69 | the loop adds `iq_` + key for every IQ entry |
| CsvExporter.FlatRowSpec | backend/csv_exporter.py:45-69 | every base key with its cell, every IQ key prefixed `iq_` with its value, and nothing else |
| CsvExporter.KeepColumnsSpec | backend/csv_exporter.py:71-73 | the filter keeps a sub-map; no list or an empty list keeps all; otherwise exactly the listed keys plus `timestamp` and `elapsed_time` |
| CsvExporter.RecordDictKeepsTime | backend/csv_exporter.py:71-73 | `timestamp` and `elapsed_time` survive every filter |
| CsvExporter.RecordToDict | backend/csv_exporter.py:43-75 | the method computes exactly the specified row |
| CsvExporter.CsvHeader | backend/csv_exporter.py:147-155 | no header for no data; otherwise sorted, duplicate-free, and exactly the keys of some row |
| Charts.UnitKey | frontend/js/charts.js:474 | a leading `iq_` is removed and nothing else |
| Charts.GetFieldUnitTypeSpec | frontend/js/charts.js:473-479 | imported heart-rate keys give `heart_rate`; a key absent from the table gives itself; a present one gives its type |
| Charts.IqPrefixIgnored | frontend/js/charts.js:473-479 | `iq_` + key and key have the same unit type |
| Charts.ImportedIsHeartRate | frontend/js/charts.js:475-477 | `imported_<dev>_hr` is a heart-rate field, with or without `iq_` |
| Charts.AssignFromSpec | frontend/js/charts.js:748-768 | a field goes to the first matching group in config order, and only to one that matches |
| Charts.Members | frontend/js/charts.js:745-770 | a group's members are exactly the fields assigned to it, in field order |
| Charts.Unassigned | frontend/js/charts.js:770-772 | the uncategorised fields are exactly those no group matches |
| Charts.GroupedSpec | frontend/js/charts.js:745-770 | a group is emitted exactly when it has members, holding its config with exactly those fields; only config keys are emitted |
| Charts.NoFieldInTwoGroups | frontend/js/charts.js:745-770 | no field is in two groups |
| Charts.UncategorizedSpec | frontend/js/charts.js:772-784 | the uncategorised group appears exactly when some field is unmatched and `isIqField` is set |
| Charts.ImportedColumnsGroup | frontend/js/charts.js:443-446 | every `imported_*` field goes to the imported group |
| Charts.GroupFieldsByConfig | frontend/js/charts.js:740-786 | the nested loops build exactly the specified grouping |
| Charts.FormatTimeAxisSpec | frontend/js/charts.js:496-501 | "" for null; otherwise whole minutes, a colon and two-digit seconds |
| Charts.TimeAxisNinety | frontend/js/charts.test.js:210-213 | 90 seconds is "1:30" |
| Charts.TimeAxisOverAnHour | frontend/js/charts.test.js:215-218 | 3661 seconds is "61:01" |
| Charts.SpeedToPaceValueSpec | frontend/js/charts.js:482-485 | null exactly for a falsy or non-positive speed; otherwise minutes per kilometre, `1000 / 60 / speed` |
| Charts.PaceDecreasing | frontend/js/charts.js:482-485 | a faster speed gives a smaller pace value |
| Charts.JsSubstring | frontend/js/charts.js:298 | an in-range substring is the slice |
| Charts.ImportedLabelSpec | frontend/js/charts.js:294-300 | `imported_<dev>_hr` is labelled `导入_<dev>_心率 (bpm)`, and an empty device falls back to `导入_心率 (bpm)`; only imported heart-rate keys get a label |
| Charts.JsIntRem | frontend/js/charts.js:527 | JavaScript `%`: the Euclidean remainder for non-negative numbers, a non-positive one below zero |
| Charts.PaletteDistinct | frontend/js/charts.js:504-521 | the 16 palette colours are distinct |
| Charts.GetTraceColorSpec | frontend/js/charts.js:526-528 | a non-negative index gets `COLOR_PALETTE[i mod 16]`; the colours repeat with period 16 and any 16 consecutive indices get distinct colours; a negative non-multiple of 16 gets none |
| App.FormatDurationSpec | frontend/js/app.js:671-681 | '--:--' for a missing or zero duration; a positive one renders exactly as the CSV export renders it |
| App.FormatMergeMethodSpec | frontend/js/app.js:652-662 | only `metadata_align` and `linear_interpolate` get a label, and each method the merge writes gets its own |
| App.KeepValued | frontend/js/app.js:549-560 | a standard field is kept exactly when some lap has a non-null value for it |
| App.KeepIqValued | frontend/js/app.js:573-578 | a column is kept exactly when some lap's IQ dictionary has a non-null value for its raw key |
| App.EveryLapLacks | frontend/js/app.js:557-559 | true exactly when no lap has a value for the field |
| App.EveryLapIqLacks | frontend/js/app.js:575-577 | true exactly when no lap's IQ dictionary has a value for the key |
| App.CollectIqColumns | frontend/js/app.js:563-570 | the nested loops produce the `iq_` columns in order of first appearance |
| App.AddIqColumns | frontend/js/app.js:565-569 | adding one lap's `iq_` columns to the first-appearance list of the columns seen so far gives the first-appearance list of the columns seen so far followed by that lap's |
| App.FilterValued | frontend/js/app.js:558-560 | the loop keeps exactly the names some lap has a value for, in their order |
| App.FilterIqValued | frontend/js/app.js:573-578 | the loop keeps exactly the columns whose raw key some lap's IQ dictionary has a value for, in their order |
| App.ExtractAvailableLapFields | frontend/js/app.js:543-583 | the method returns exactly the specified standard and IQ field lists |
| App.EmptyLaps | frontend/js/app.js:544-546 | no laps give two empty lists |
| App.LapIqColumnsSpec | frontend/js/app.js:565-569 | one lap's columns are `iq_` + its keys |
| App.AllIqColumnsSpec | frontend/js/app.js:563-570 | a column is collected exactly when some lap has its key |
| App.LapIqFieldsSpec | frontend/js/app.js:563-578 | `iq_` + key is returned exactly when some lap has a non-null value for the key; every entry has the prefix and none repeats |
| App.AppState.constructor | frontend/js/app.js:6-12 | page 1 of 1 and nothing selected |
| App.AppState.UpdatePagination | frontend/js/app.js:351-358 | the server's page, and `ceil(total / limit)` pages |
| App.PageCount | frontend/js/app.js:353 | the fewest pages of `limit` items that hold `total` |
| App.AppState.ChangePage | frontend/js/app.js:360-365 | the page becomes the clamped `page + delta`; nothing else changes |
| App.ClampPage | frontend/js/app.js:362-363 | never above `totalPages`, never below 1 when `totalPages >= 1`, and in range unchanged |
| App.AppState.HandleActivitySelect | frontend/js/app.js:411-425 | the selection and the checkbox become the specified ones; the pages are unchanged |
| App.Select | frontend/js/app.js:411-425 | a check at 10 or more is reverted with the selection unchanged; otherwise a check adds and an uncheck removes the id; the size stays within 10 |
| App.SelectionCapped | frontend/js/app.js:411-425 | from within the cap, no run of checkbox events selects more than 10 activities |
| Seqs.FirstOccurrencesSpec | frontend/js/app.js:563-570 | a JavaScript Set's insertion order holds each element once, exactly the elements seen |
| Sorting.SortedFromSet | backend/fit_parser.py:334 | `sorted(list(s))`: sorted, no repeats, exactly the set's elements |
| Sorting.SortedIsSortStrings | backend/fit_parser.py:334 | any sorted permutation is the result of `sorted` |
| Tables.PutSpec | frontend/js/charts.js:751-756 | an assignment to a key gives it the value and leaves other keys alone |
| Numbers.RoundHalfEven | backend/hr_csv_merge.py:471 | Python `round`: within 0.5, and a tie goes to the even neighbour |
| Numbers.JsRem | frontend/js/charts.js:499 | JavaScript `%`: the sign of the dividend and a quotient truncated toward zero |
| Clock.PaceTextSpec | backend/fit_parser.py:35-37 | `M:SS` reads back as the whole seconds of `1000 / speed` |
| Clock.SplitHours | backend/csv_exporter.py:35-37 | hours, minutes and seconds make up the whole seconds |

## Left out

- The FIT decoding (`fitdecode` frames, `get_field_value`, developer-field probing) is a foreign library.
  The back-fill and field collection start from decoded records. `semicircles_to_degrees` is not modelled.
- `_coerce_to_base_timezone` depends on Python time zones, the process's local zone and `fromtimestamp`. It is an abstract function from seconds to seconds.
- Text decoding, `csv.reader` tokenising, `strptime`, `float()` of a cell and `strftime` are library calls.
  The model takes rows of cells as input, and these are oracle functions.
- Python `str.lower` and `str.strip` are modelled on ASCII only.
- `float()` of a cell is taken to give a finite number or to fail.
  In `parse_offline_hr_csv`, a bpm cell of "inf" raises `OverflowError` in `int()`, which the `ValueError` handler does not catch, and the parse aborts.
  A bpm cell of "nan" raises `ValueError` and the row is skipped.
  A Second cell of "nan" or "inf" reaches `timedelta` outside any handler and aborts the parse.
  These abort paths are not modelled.
- `HrCsvMerge.Ratio`: `dropped_ratio` counts untimed records in `dropped` while leaving them out of the denominator. It can therefore exceed 1, and the model states no upper bound for it.
- `matched_near` is computed and never used, so it is left out.
- The offset search takes the first 800 records and then skips untimed ones, so fewer than 800 times may be used. The model follows this.
- Floating point is exact `real` arithmetic. Python `round` is round-half-even on reals. `int()` of a positive value is the floor.
- The logging calls of the unit normaliser, its field descriptions and the unused members of its `Unit` enumeration are left out.
- The convenience wrappers `normalize_vertical_oscillation`, `normalize_step_length`, `normalize_stance_time` and `normalize_gps_coordinate` are left out. Each calls `normalize_field_value` with a fixed name.
- `lap_to_dict`, `session_to_dict`, `export_merged_csv`, `export_categorized_zip` and `export_laps_csv` are left out, and so is CSV row serialisation after the header.
- `collect_available_fields` takes `laps` and `session` but never reads them. The model leaves them out.
- `CsvExporter.FormatDurationSpec`: negative durations are rendered by the model, but no read-back is stated for them.
- `App.AppState.UpdatePagination`: requires `limit > 0`. With `limit == 0` the page script computes an infinite or NaN page count.
- `Tables` models a JavaScript object as an insertion-ordered list.
  It does not model that integer-like keys are enumerated first or that prototype keys exist.
- `Charts.GroupFieldsByConfig`: a group's `fieldPattern` is modelled as a prefix test. This is the only form the configuration uses (`/^imported_/`).
- Only the imported heart-rate branch of `getFieldLabel` is modelled. Its other branches depend on the device configuration fetched at run time.
- The DOM, Plotly, `localStorage`, `fetch`, `loadActivities`, status messages and the other event handlers are left out.
  This includes `handleSelectAll`, which selects every visible activity without the ten-activity cap.
- `DeviceMappings.NormalizeFieldNameSpec`: the literal example of a field name passing through unchanged (`dr_v_osc`) is not evaluated. The general rule is proved for every name.
- The device registry's module self-test is left out.
- The persistence layer, the HTTP routes and the build and test scripts are left out.
