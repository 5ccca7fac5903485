# WhereShot date-time estimation, modelled in Dafny

WhereShot is a browser tool that reads a photo's EXIF metadata and shows
where and when the photo was taken. This project models its date-time
estimation engine and the helpers around it:

- **Stage 1: dates in the filename.** Seventeen filename patterns are
  tried. A match is turned into a local date, or an epoch date for Unix
  timestamps. Implausible years and dates more than a week in the future
  are dropped. Results less than a minute apart are merged, keeping the
  more reliable one. The rest are ordered by reliability.
- **Stage 2: collecting sources.** Sources come from three places:
  - up to three EXIF dates (original 0.95, digitized 0.85, modified 0.65);
  - the filename results;
  - the file's modification time (0.3).

  They are stable-sorted so that time-bearing sources come first, then by
  descending reliability.
- **Stage 3: analysis.** Every pair of sources is compared:
  - the tolerance is 24 hours;
  - it is one hour when both sources carry a time and some source does.

  The pairs over tolerance are the conflicts. Agreement is the share of
  pairs that are not in conflict. Consistency is high, medium or low.
- **Stage 4: selection.**
  - An EXIF original date wins.
  - Otherwise, if consistency is high, a consensus is used: the sources
    are grouped first-fit around each group's first member, and the most
    reliable member of the largest group is taken.
  - Otherwise the first considered source wins.
- **Stage 4: confidence.** The head source's reliability is multiplied by
  the agreement and by four bonus factors, then capped at 1.
- **Stage 4: warnings.** An ordered list of notices with fixed severities.
- **Helpers.**
  - `utils.js`: file-type and file-validation checks, the
    `datetime-local` input rendering, and degrees-minutes-seconds
    conversion.
  - `exif-parser.js`: string sanitising, the camera name, the privacy
    summary, GPS conversion and EXIF date-tag precedence.
  - `sun-calculator.js`: input validation, sun phase, light quality,
    photography tips, time consistency and phase display names.

The program's inputs are parameters of the model. These are:

- the regular-expression engine, given as the list of matches per
  pattern;
- the JavaScript local-time calendar, given as a pair of functions;
- the current time;
- the EXIF date parser.

Modules follow the source files:

| module | file |
|---|---|
| `Wrappers`, `Text`, `JsValues`, `LocalClock`, `StableSort` | shared vocabulary |
| `FilenameDates` | `filename_dates.dfy` |
| `DateTimeSources` | `sources.dfy` |
| `DateTimeAnalysis` | `analysis.dfy` |
| `DateTimeSelection` | `selection.dfy` |
| `DateTimeWarnings` | `warnings.dfy` |
| `DateTimeEstimator` | `estimator.dfy` |
| `FileUtils`, `DateUtils`, `GeoUtils` | `utils.dfy` |
| `ExifParser` | `exif_parser.dfy` |
| `SunCalculator` | `sun_calculator.dfy` |

## Model

| member | source | states |
|---|---|---|
| FilenameDates.ParseMatchedDate | js/datetime-estimator.js:280-352 | a match carries a time exactly when its format is not one of the three date-only formats |
| FilenameDates.DateOnlyMatchIsNoon | js/datetime-estimator.js:320-330 | a date-only match becomes noon of the matched day, read back through the calendar |
| FilenameDates.MinuteMatchHasSecondZero | js/datetime-estimator.js:307-318 | a minute-precision match keeps its fields with the seconds set to zero |
| FilenameDates.SecondMatchKeepsFields | js/datetime-estimator.js:286-305 | a second-precision match reads back as the six matched fields, with the month shifted to zero-based |
| FilenameDates.EpochMatchConversion | js/datetime-estimator.js:332-340 | a millisecond timestamp is the date itself; a second timestamp is scaled by 1000 |
| FilenameDates.AcceptedMatches | js/datetime-estimator.js:239-254 | every result kept from one pattern passes the date-validity check and carries that pattern's format, reliability and time flag |
| FilenameDates.Dedup | js/datetime-estimator.js:256-269 | merging near-duplicates keeps a sub-multiset of the results and never empties a non-empty list |
| FilenameDates.DedupKeepsMax | js/datetime-estimator.js:256-269 | merging never loses the highest reliability: the merged list's maximum equals the input's |
| FilenameDates.NearPairCollapses | js/datetime-estimator.js:259-267 | two results under a minute apart merge into the more reliable one, the earlier on a tie |
| FilenameDates.FarPairKept | js/datetime-estimator.js:259-264 | two results a minute or more apart are both kept, in order |
| FilenameDates.IsolatedResultKept | js/datetime-estimator.js:256-269 | a result at least a minute away from every other candidate survives deduplication, whatever the order and reliabilities |
| StableSort.Sort | js/datetime-estimator.js:222-228 | the output is a permutation of the input, ordered by the comparator |
| StableSort.SortIsStable | js/datetime-estimator.js:271 | the sort is stable: for every rank, elements of that rank keep their input order |
| FilenameDates.SortedDedupLeadsWithMax | js/datetime-estimator.js:256-271 | after merging and sorting, the first result has the highest reliability of all accepted matches |
| FilenameDates.ExtractAllDatesFromFilename | js/datetime-estimator.js:236-272 | all results are plausible dates drawn (as a sub-multiset) from the accepted matches, in non-increasing reliability, and the best accepted reliability leads |
| DateTimeSources.CollectDateTimeSources | js/datetime-estimator.js:164-229 | the sources are a permutation of the EXIF, filename and mtime entries; time-bearing first, then by reliability; exactly one mtime entry; each EXIF date present exactly when its field is set |
| DateTimeSources.UnsortedExifPresence | js/datetime-estimator.js:167-194 | an EXIF kind appears among the sources exactly when its field is set, and every such source carries that field's date, a time, and the kind's fixed reliability (0.95, 0.85, 0.65) |
| DateTimeAnalysis.SpanOf | js/datetime-estimator.js:623-638 | the rendered time difference picks days+hours, hours+minutes, minutes or seconds, each consistent with the floor divisions of the input |
| DateTimeAnalysis.ConflictPairsExact | js/datetime-estimator.js:397-417 | the recorded conflicts are exactly the pairs i<j whose difference exceeds their per-pair tolerance |
| DateTimeAnalysis.ConflictPairs | js/datetime-estimator.js:398-412 | the pairs come out in the loop's order: strictly increasing by (i, j), so none repeats |
| DateTimeAnalysis.ConflictCountIsDisagreeingPairs | js/datetime-estimator.js:398-417 | the conflict count equals the number of index pairs i<j whose sources disagree |
| DateTimeAnalysis.ToleranceIsPerPair | js/datetime-estimator.js:392-405 | the one-hour tolerance applies exactly when both sources of the pair carry a time |
| DateTimeAnalysis.Agreement | js/datetime-estimator.js:419-422 | agreement lies in [0,1], is 1 with no pairs, and is 1 exactly when there are no conflicts |
| DateTimeAnalysis.TotalComparisonsFormula | js/datetime-estimator.js:420 | the number of comparisons is n(n-1)/2 |
| DateTimeAnalysis.Label | js/datetime-estimator.js:424-431 | high exactly without conflicts; medium with conflicts and agreement at least 0.7; low otherwise |
| DateTimeAnalysis.AnalyzeDateTimeSources | js/datetime-estimator.js:386-435 | no sources give the empty analysis; otherwise the time flag, the conflicts, the agreement and the consistency relate to the sources as above |
| DateTimeSelection.FirstFit | js/datetime-estimator.js:478-486 | a source joins the first group whose head is within tolerance, and no earlier group's head is |
| DateTimeSelection.GroupsPermutation | js/datetime-estimator.js:478-490 | grouping loses and invents no source: the groups together are a permutation of the input |
| DateTimeSelection.GroupsCloseToHead | js/datetime-estimator.js:478-490 | every group member is within tolerance of its group's head |
| DateTimeSelection.LargestGroup | js/datetime-estimator.js:493-494 | the chosen group is of maximum size, and no later group is as large |
| DateTimeSelection.MostReliable | js/datetime-estimator.js:498-499 | the chosen source has the maximum reliability, and no later member is as reliable |
| DateTimeSelection.FindConsensusDate | js/datetime-estimator.js:474-503 | there is no consensus exactly when every group is a singleton; otherwise the date is one of the sources', namely that of the last most reliable member of the last largest group, which has two members or more |
| DateTimeSelection.ConsensusIffClosePair | js/datetime-estimator.js:474-503 | a consensus exists exactly when some two sources are within the tolerance |
| DateTimeSelection.FarApartSingletons | js/datetime-estimator.js:478-490 | when all sources are pairwise beyond tolerance, each forms its own group |
| DateTimeSelection.TimeAware | js/datetime-estimator.js:447 | the time-aware filter keeps only time-bearing sources, and is empty exactly when none carries a time |
| DateTimeSelection.TimeAwareCounts | js/datetime-estimator.js:447 | the filter keeps every time-bearing source as often as it occurs and no other source |
| DateTimeSelection.TimeAwareSnoc | js/datetime-estimator.js:447 | the filter preserves order: appending a source appends it to the result exactly when it carries a time |
| DateTimeSelection.SelectBestDateTime | js/datetime-estimator.js:443-466 | there is no estimate exactly when there are no sources; the estimate is some source's date, and a time-bearing one when any exists |
| DateTimeSelection.ConsensusTier | js/datetime-estimator.js:457-463 | without an original EXIF date, high consistency and a consensus date give that consensus date |
| DateTimeSelection.FallbackTier | js/datetime-estimator.js:450-466 | without an original EXIF date or a usable consensus, the first considered source's date is chosen, and on sorted sources that source is at least as reliable as every considered one |
| DateTimeSelection.SortedHeadLeads | js/datetime-estimator.js:221-228 | on sorted sources the first considered source is the first source and no considered source is more reliable |
| DateTimeSelection.OriginalWins | js/datetime-estimator.js:450-454 | a time-bearing EXIF original source makes an EXIF original date the estimate |
| DateTimeSelection.Boosted | js/datetime-estimator.js:519-538 | the bonus factors never lower a non-negative confidence and keep zero at zero |
| DateTimeSelection.CalculateConfidence | js/datetime-estimator.js:511-541 | confidence is zero without sources and never exceeds 1 |
| DateTimeSelection.ConfidenceNonNegative | js/datetime-estimator.js:511-541 | confidence is non-negative for non-negative inputs, and zero when agreement is zero |
| DateTimeSelection.ConfidenceMonotoneInAgreement | js/datetime-estimator.js:514-540 | more agreement never lowers confidence |
| DateTimeSelection.FullAgreementWithOriginalIsCertain | js/datetime-estimator.js:514-540 | several agreeing sources led by a reliability of at least 0.85, with an EXIF original, give confidence 1 |
| DateTimeSelection.LoneMtimeConfidence | js/datetime-estimator.js:514-540 | the modification time alone, with a time, gives confidence 0.33 |
| DateTimeWarnings.ConflictNotice | js/datetime-estimator.js:569-577 | a conflict notice is a warning whose message names both sources and the formatted difference |
| DateTimeWarnings.GenerateWarnings | js/datetime-estimator.js:549-616 | no sources give exactly the one error notice; otherwise at most the conflicts plus five notices |
| DateTimeWarnings.WarningCounts | js/datetime-estimator.js:561-613 | each notice kind occurs exactly as often as its condition says: once per conflict, at most once for the others |
| DateTimeWarnings.WarningPresence | js/datetime-estimator.js:561-613 | each non-conflict notice appears exactly when its condition holds, and the no-date error never appears when sources exist |
| DateTimeWarnings.WarningsOrderedAndLevelled | js/datetime-estimator.js:549-616 | notices come in the fixed emission order, each with its kind's severity |
| DateTimeEstimator.EstimateDateTime | js/datetime-estimator.js:140-157 | the sources are the collected list: a permutation of the EXIF, file-name and modification-time sources, sorted, with each EXIF kind present exactly when set; analysis, estimate, confidence and notices are the four stages applied to that list |
| DateTimeEstimator.AlwaysEstimated | js/datetime-estimator.js:140-157 | because the modification time is always a source, an estimate always exists and the no-date error never appears |
| DateTimeEstimator.OriginalIsEstimate | js/datetime-estimator.js:140-157 | when EXIF has an original date, that date is the estimate |
| DateTimeEstimator.ConfidenceInUnitRange | js/datetime-estimator.js:140-157 | the end-to-end confidence lies in [0,1] |
| FileUtils.LastSegment | js/utils.js:340 | the extension is the suffix after the last dot, or the whole name when it has no dot |
| FileUtils.FileTypeByExtension | js/utils.js:339-358 | a name's type is decided by its lower-cased last extension alone |
| FileUtils.ValidateFile | js/utils.js:365-387 | valid exactly when there are no errors; the size error appears exactly above 100 MiB, and first; the type error exactly for a type outside the four allowed |
| DateUtils.FormatForInputRoundTrip | js/utils.js:51-61 | the rendered `YYYY-MM-DDTHH:MM` text parses back to the date's local fields, the month one-based |
| DateUtils.InvalidDateText | js/utils.js:51-61 | an invalid date renders as 19 characters that do not parse as input text |
| GeoUtils.DirectionOnlySetsSign | js/utils.js:74-82 | the northern value times 3600 is the angle in arc-seconds; the direction changes only the sign (negated for S and W, unchanged otherwise); the sign of the degrees is ignored |
| GeoUtils.SignFollowsDirection | js/utils.js:74-82 | with non-negative minutes and seconds and a non-zero angle, the result is negative exactly for S or W |
| ExifParser.SanitizeString | js/exif-parser.js:360-400 | absent or empty input gives nothing; text mostly outside the allowed ranges gives nothing; otherwise every allowed non-space character survives, so a result exists whenever one is present; any result is trimmed, non-empty, free of control characters and built from the input's characters |
| ExifParser.TrimKeepsNonSpace | js/exif-parser.js:395-396 | trimming removes white space only |
| ExifParser.SanitizeKeepsCleanText | js/exif-parser.js:360-400 | already clean, trimmed text passes through unchanged |
| ExifParser.SanitizeIdempotentOnAllowed | js/exif-parser.js:360-400 | sanitising a sanitised string of allowed characters changes nothing |
| ExifParser.CombineCameraName | js/exif-parser.js:464-479 | with neither part the name is 不明; with one part it is that part; with both it is the model exactly when the model contains the make ignoring case, otherwise make, a space and model |
| ExifParser.CameraNameDedup | js/exif-parser.js:473-478 | for clean parts, the make is dropped exactly when the model already contains it ignoring case |
| ExifParser.PerformSecurityAnalysis | js/exif-parser.js:312-353 | the four flags mirror their checks; one warning per check that fires; recommendations only for GPS and serials; the risk as written |
| ExifParser.PersonalInfoLowersGpsRisk | js/exif-parser.js:346-350 | as written, an Artist tag lowers a GPS photo's risk from high to medium |
| ExifParser.PerformSecurityAnalysisCorrected | js/exif-parser.js:312-353 | with the correction, the risk is high exactly with GPS, medium exactly with serials or personal data but no GPS |
| ExifParser.ConvertGPSAltitude | js/exif-parser.js:451-456 | no altitude gives nothing; otherwise the value, or the numerator over the denominator, negated exactly when the reference is the number 1 |
| ExifParser.AltitudeRefFlipsSign | js/exif-parser.js:451-456 | for a present altitude, reference 1 gives the reference-0 value negated, and any reference other than the number 1 gives the reference-0 value |
| ExifParser.ConvertGPSCoordinate | js/exif-parser.js:428-443 | a coordinate converts exactly when it has three components, and then equals the degrees-minutes-seconds conversion |
| ExifParser.SouthIsNegatedNorth | js/exif-parser.js:428-443 | a three-component coordinate converted with reference S is the same coordinate converted with N, negated |
| ExifParser.ExtractDateTimePrecedence | js/exif-parser.js:96-141 | ModifyDate takes precedence over DateTime for the modified date; each other field fills its own slot; the timezone prefers OffsetTime |
| SunCalculator.ValidateInputs | js/sun-calculator.js:68-86 | as written: accepted exactly when both coordinates are numbers, each either NaN or finite inside its closed range, and the date is valid; so infinite or out-of-range coordinates are rejected even beside a NaN |
| SunCalculator.ValidateInputsStrict | js/sun-calculator.js:68-86 | accepted exactly when both coordinates are finite numbers in range and the date is valid |
| SunCalculator.StrictDiffersOnlyOnNaN | js/sun-calculator.js:68-86 | on every input with no NaN coordinate, the corrected check gives the same answer as the original |
| SunCalculator.DetermineSunPhase | js/sun-calculator.js:178-189 | the first threshold the time lies before decides the phase (an invalid threshold is never ahead), and night when none is ahead |
| SunCalculator.PhaseIntervals | js/sun-calculator.js:178-189 | on an ordered day each phase is exactly the half-open interval between its two thresholds, and night is before dawn or from dusk |
| SunCalculator.DetermineLightQuality | js/sun-calculator.js:197-204 | no light exactly below the horizon, dim exactly below 6 degrees, golden exactly at 6 or more in a golden-hour phase; otherwise soft below 30, normal from 30 to below 60, harsh from 60 |
| SunCalculator.LightQualityMonotone | js/sun-calculator.js:197-204 | outside the golden hour, a higher sun never gives a dimmer quality |
| SunCalculator.GoldenPhasesGiveGoldenLight | js/sun-calculator.js:197-204 | with the sun at 6 degrees or more, the light is golden exactly in the two golden-hour phases |
| SunCalculator.GetPhotographyTips | js/sun-calculator.js:222-250 | two tips for golden hours, one for dawn, sunset and night, one or two by elevation for day phases, none exactly for unknown phases |
| SunCalculator.CheckTimeConsistency | js/sun-calculator.js:259-279 | consistent exactly without warnings; night is inconsistent exactly between 6 and 18 o'clock; day phases exactly outside; other phases always consistent |
| SunCalculator.PhaseOfName | js/sun-calculator.js:351-363 | a name maps to the phase with that name, and to nothing when no phase has it |
| SunCalculator.GetPhaseDisplayName | js/sun-calculator.js:351-363 | unknown phase names come back unchanged |
| SunCalculator.DisplayNamesDistinct | js/sun-calculator.js:351-363 | each phase has its own display name, and no display name is itself a phase name |

## Left out

- The regular-expression engine: the filename patterns' matches are an input (the capture groups as numbers per pattern), so the correctness of the seventeen regular expressions themselves is not modelled.
- `new Date(...)` local-time construction, `getFullYear`, `getHours` and `new Date()` are parameters (a calendar and the current time); month or day overflow such as 2024-02-30 rolls over in the calendar as in JavaScript and is not rejected.
- `parseExifDateTime` is a parameter of `ExifParser.ExtractDateTimeInfo`; its own text format is not modelled.
- `formatSources`, `formatDateTime` and the `formatted` part of the estimate are display text and are left out.
- DateTimeEstimator.EstimateDateTime: omits the `formatted` display strings of the estimate.
- Numbers are reals: the products in the confidence and the agreement quotient are exact, without double rounding; `-0` is not distinguished from `0`.
- Strings are sequences of Unicode scalar values: a character outside the Basic Multilingual Plane counts once, where JavaScript's `length` counts two.
- `toLowerCase` is modelled for ASCII letters only. This is exact for the file-extension lists. Sanitised camera names cannot contain other cased letters except Latin-1 ones already removed by the allowed-range filter.
- ExifParser.SanitizeString: only string and absent inputs; the array, object and number conversions are left out.
- ExifParser.SanitizeIdempotentOnAllowed: stated only for results made of allowed characters; a result keeping a non-ASCII space such as U+3000 is not idempotent, since the garbled-text ratio is recomputed on it.
- DateTimeSelection.ConfidenceMonotoneInAgreement: stated for a non-negative reliability, over the confidence formula for a given head reliability.
- `getPhaseDisplayName` looks phase names up in a plain object, so inherited keys such as `constructor` are not modelled.
- Elevation is a real, so a NaN elevation in `determineLightQuality` and `getPhotographyTips` is not modelled.
- File size and `lastModified` are integers; the `altitude` object is only a numerator and denominator pair.
- Try/catch paths that only log and return null are left out, since no modelled operation throws.
- The user interface, the map, the camera and library wrappers, singleton state, URL builders and the other helpers in `utils.js`, `exif-parser.js` and `sun-calculator.js` (the sun-position computation itself) are outside this model.

## Findings

| source | as written | input that shows it | evidently intended | confidence | as-written member | corrected member |
|---|---|---|---|---|---|---|
| js/sun-calculator.js:69-79 | `typeof` accepts NaN as a number, and every range comparison with NaN is false, so NaN passes | latitude NaN, longitude NaN, a valid date: accepted | reject coordinates that are not finite numbers in range | not executed | SunCalculator.NaNCoordinatesAccepted | SunCalculator.ValidateInputsStrict |
| js/exif-parser.js:346-350 | the personal-info check sets the risk to medium unconditionally, overwriting a high GPS risk | GPS latitude and longitude plus an Artist tag: medium, while GPS alone is high | raise the risk to medium only when it is lower, as the serial-number check does | not executed | ExifParser.PersonalInfoLowersGpsRisk | ExifParser.PerformSecurityAnalysisCorrected |
