# Logic MSO protocol analyzer — a verified Dafny model

This project models the analysis core of `skills/logicmso/analyze_protocol.py`, the
iothackbot helper that reads a Saleae Logic MSO digital capture (an initial logic
level plus the timestamps of every transition) and tries to tell which serial
protocol produced it. The core is four functions and one table:

- `analyze_timing` turns the transition timestamps into interval durations in
  microseconds, splits them into HIGH and LOW intervals by position parity and the
  initial level, and summarises each group (count, min, max, mean). Fewer than two
  transitions give the error result.
- `detect_clusters` sorts durations, walks them once and grows a run while each
  next duration is within a relative tolerance of the run's running mean, then
  reports one `(mean, count)` cluster per run, most populous first.
- `guess_protocol` tries every entry of `COMMON_BAUD_RATES` in table order (UART:
  shortest duration within 30% of the bit period and durations on average within
  0.15 bit of a whole number of bits, confidence `max(0.3, 0.9 - 3 * error)`), then
  the 1-Wire test (a 400–600 µs LOW pulse and pulses under 20 µs, confidence 0.6),
  and sorts the guesses by confidence.
- `export_csv` writes one `index,time_s,state,duration_us` row per transition.

Modules, one file each:

- `stats.dfy`, module `Stats`: the numpy reductions the core uses (`sum`, `mean`, `min`, `max`, `abs`, distance to `round`) over exact reals
- `sorting.dfy`, module `Sorting`: `np.sort` and `list.sort(key=...)` as one stable insertion sort by a real key
- `timing.dfy`, module `Timing`: `analyze_timing`
- `clusters.dfy`, module `Clusters`: `detect_clusters`: the walk as a method with loop invariants, proved equal to a recursive specification of the runs
- `protocol.dfy`, module `Protocol`: `COMMON_BAUD_RATES` and `guess_protocol`: the table loop as a method, proved equal to a specification function
- `export.dfy`, module `Export`: the rows `export_csv` writes, built by a loop proved equal to a row function

The default clustering tolerance 0.15, used by every call in the tool, is `Clusters.DefaultTolerance`; it meets the non-negative tolerance that `Clusters.DetectedClustersTies` and `Clusters.ReclusterCenters` assume.

Durations are `real`s (exact), timestamps are seconds, and the `* 1e6` scaling is
multiplication by the exact constant `MicrosPerSecond`. The initial state is an
`int`, as in the source, where `0` is LOW and any other value HIGH.

What the code does not do, and the model therefore does not either: there is no
absolute tolerance floor in the cluster merge test (only the relative test of
line 123), clusters are returned by count and not by value, there is no SPI, I²C
or "unknown" guess, UART confidence is not penalised for a LOW idle level, 1-Wire
looks at raw durations and not at clusters, and ties in confidence are kept in
the order the guesses were found (stable sort), not broken by a protocol priority.

## Model

| member | source | states |
|---|---|---|
| `Stats.NearestIntDistance` | skills/logicmso/analyze_protocol.py:158-160 | the per-duration error is at most one half and is the distance to the integer just below or just above |
| `Stats.NearestIntDistanceIsNearest` | skills/logicmso/analyze_protocol.py:159-160 | no integer is closer, so the value is the distance to `np.round` whichever way halves are rounded |
| `Stats.MeanBetweenMinMax` | skills/logicmso/analyze_protocol.py:84-86 | the mean of a non-empty sequence lies between its minimum and maximum |
| `Sorting.SortByFacts` | skills/logicmso/analyze_protocol.py:116 | the sort result is ordered by key and is a permutation of its input |
| `Sorting.SortByStable` | skills/logicmso/analyze_protocol.py:135 | the elements of any one key appear in the output in their input order (Python's sort is stable) |
| `Sorting.SortByKeepsTies` | skills/logicmso/analyze_protocol.py:180 | any relation between earlier and later elements of equal key in the input still holds in the output |
| `Sorting.SortBySorted` | skills/logicmso/analyze_protocol.py:116 | sorting an already ordered sequence returns it unchanged |
| `Sorting.SortByValueDependsOnMultiset` | skills/logicmso/analyze_protocol.py:116 | two inputs with the same elements, counted with multiplicity, sort to the same sequence |
| `Timing.AnalyzeTiming` | skills/logicmso/analyze_protocol.py:63-66 | the result is the error marker exactly when there are fewer than two timestamps, and otherwise holds one duration fewer than timestamps |
| `Timing.DurationsUsAt` | skills/logicmso/analyze_protocol.py:66-67 | duration i is the gap from timestamp i to timestamp i + 1 in microseconds |
| `Timing.DurationsUsSum` | skills/logicmso/analyze_protocol.py:66-67 | the durations add up to the span from first to last timestamp, in microseconds |
| `Timing.AnalyzeTimingDurations` | skills/logicmso/analyze_protocol.py:78-82 | transition count, capture span, signal span and initial level as recorded, each duration the gap between neighbouring timestamps, and their sum the signal span |
| `Timing.StrideSplit` | skills/logicmso/analyze_protocol.py:75-76 | the even-position and odd-position slices together hold every element exactly once |
| `Timing.AnalyzeTimingSplit` | skills/logicmso/analyze_protocol.py:71-76 | the HIGH and LOW lists partition the durations and their counts add up to the number of timestamps minus one |
| `Timing.AnalyzeTimingLevels` | skills/logicmso/analyze_protocol.py:71-76 | HIGH has one element per interval at the HIGH parity (even when the signal starts LOW, odd otherwise) and its j-th element is the j-th such interval; LOW likewise for the other parity |
| `Timing.LevelIntervalsCover` | skills/logicmso/analyze_protocol.py:75-76 | no interval is missing from its level: interval i of that level is element i / 2 of the level's list |
| `Timing.AnalyzeTimingSummaries` | skills/logicmso/analyze_protocol.py:83-100 | the overall and each non-empty level's min and max are durations of that group bounding all its others, and its mean is the group's sum over its size; the overall mean is the signal span in µs over the number of intervals; an empty level reports count 0 and zeros |
| `Timing.AllMean` | skills/logicmso/analyze_protocol.py:83-86 | the overall mean equals the signal span in µs divided by the number of intervals |
| `Timing.AnalyzeTimingPositive` | skills/logicmso/analyze_protocol.py:66-76 | strictly increasing timestamps give positive durations at both levels |
| `Clusters.DetectClusters` | skills/logicmso/analyze_protocol.py:107-137 | the method returns the clusters of the specification: the runs of the sorted durations, as (mean, size), sorted by decreasing size |
| `Clusters.WalkRuns` | skills/logicmso/analyze_protocol.py:117-132 | the loop yields one (mean, size) cluster per run of the greedy walk, in walk order |
| `Clusters.GreedyConcat` | skills/logicmso/analyze_protocol.py:118-132 | laid end to end the runs are exactly the durations walked, in order |
| `Clusters.RunsCharacterization` | skills/logicmso/analyze_protocol.py:118-132 | runs are non-empty and contiguous; each member after a run's first passed the join test against the run so far, and each later run's first member failed it against the previous run |
| `Clusters.FailedJoin` | skills/logicmso/analyze_protocol.py:123-128 | a duration no smaller than a run's members that fails the join test exceeds the run's mean by more than the factor 1 + tolerance |
| `Clusters.GreedySeparated` | skills/logicmso/analyze_protocol.py:118-132 | over ascending durations each run's mean exceeds the previous run's mean by more than the factor 1 + tolerance |
| `Clusters.RunClustersFacts` | skills/logicmso/analyze_protocol.py:116-132 | before the count sort the sizes add up to the number of durations and the centres are positive, separated, and strictly ascending for a non-negative tolerance |
| `Clusters.RunClustersBounds` | skills/logicmso/analyze_protocol.py:116-132 | every cluster holds at least one duration and its centre lies between the smallest and largest duration |
| `Clusters.DetectedClustersFacts` | skills/logicmso/analyze_protocol.py:113-137 | no clusters exactly when no durations; sizes add up to the number of durations; sizes never increase along the list; every size at least 1 and every centre within the durations' range |
| `Clusters.DetectedClustersTies` | skills/logicmso/analyze_protocol.py:135 | clusters of equal size appear in ascending order of centre |
| `Clusters.DetectedClustersOrderIndependent` | skills/logicmso/analyze_protocol.py:116 | the result depends only on which durations occur how often, not on their order |
| `Clusters.GreedySingletons` | skills/logicmso/analyze_protocol.py:118-132 | walking values that are each more than 1 + tolerance times the previous puts every value in a run of its own |
| `Clusters.ReclusterCenters` | skills/logicmso/analyze_protocol.py:107-137 | clustering the centres again gives one cluster of size 1 per centre, in ascending order |
| `Protocol.BaudRatesFacts` | skills/logicmso/analyze_protocol.py:24-37 | the table has twelve entries with positive periods and strictly increasing baud rates |
| `Protocol.Distances` | skills/logicmso/analyze_protocol.py:158-160 | one distance per duration, each between 0 and one half |
| `Protocol.UartError` | skills/logicmso/analyze_protocol.py:158-160 | the mean distance from whole bit counts lies between 0 and one half |
| `Protocol.GuessProtocol` | skills/logicmso/analyze_protocol.py:140-182 | the table loop, the 1-Wire test and the confidence sort return exactly the guesses of the specification |
| `Protocol.RateGuessConfidence` | skills/logicmso/analyze_protocol.py:161-166 | a passing table entry is guessed as UART at its baud with its bit period and confidence 0.9 - 3 * error, which lies above 0.45 and at most 0.9 |
| `Protocol.UartGuessesMembers` | skills/logicmso/analyze_protocol.py:154-166 | the UART guesses are exactly those of the passing table entries, at most one per entry |
| `Protocol.UartGuessesIncreasing` | skills/logicmso/analyze_protocol.py:154-166 | UART guesses are found in strictly increasing baud rate |
| `Protocol.FoundGuessesOrder` | skills/logicmso/analyze_protocol.py:154-177 | before the sort, UART guesses come by increasing baud and 1-Wire last |
| `Protocol.ProtocolGuessesPermute` | skills/logicmso/analyze_protocol.py:180 | the sort keeps exactly the guesses found |
| `Protocol.UartGuessIff` | skills/logicmso/analyze_protocol.py:154-166 | a table entry's baud rate is guessed if and only if that entry passes both UART tests |
| `Protocol.OneWireGuessIff` | skills/logicmso/analyze_protocol.py:169-177 | 1-Wire is guessed if and only if its four tests pass, and always as the one 0.6 guess |
| `Protocol.OneWireOnAnalysis` | skills/logicmso/analyze_protocol.py:169-172 | on an analysis of a capture the short-pulse test is implied by the all-minimum test |
| `Protocol.GuessConfidences` | skills/logicmso/analyze_protocol.py:161-176 | every guess is UART with confidence above 0.45 and at most 0.9 and a bit period, or the 1-Wire guess at 0.6 |
| `Protocol.GuessOrder` | skills/logicmso/analyze_protocol.py:179-182 | at most thirteen guesses, confidence never increases along the list, and equal confidences keep UART by increasing baud before 1-Wire |
| `Protocol.CandidateWindowsOverlap` | skills/logicmso/analyze_protocol.py:156 | two table entries can both pass the 30% window only for 38400 and 57600 baud |
| `Protocol.CandidateWindowsShared` | skills/logicmso/analyze_protocol.py:156 | a 20 µs shortest duration is inside both the 38400 and the 57600 window |
| `Protocol.ExactMultiples` | skills/logicmso/analyze_protocol.py:158-166 | durations that are whole multiples of a candidate's period give error 0 and a guess of confidence 0.9 |
| `Protocol.ExampleMatches` | skills/logicmso/analyze_protocol.py:154-166 | intervals of 20 µs and 52.08 µs pass the UART test at both 38400 and 57600 baud, 57600 with higher confidence |
| `Protocol.TwoUartGuesses` | skills/logicmso/analyze_protocol.py:154-166 | a concrete three-transition capture yields both UART guesses, 57600 baud the more confident |
| `Export.ExportRows` | skills/logicmso/analyze_protocol.py:222-228 | the loop produces exactly the row of every transition, in order |
| `Export.CsvRowsShape` | skills/logicmso/analyze_protocol.py:222-227 | one row per transition with its index and timestamp; the state column is 0 or 1 and flips between rows; the last duration is 0 |
| `Export.CsvRowsDurations` | skills/logicmso/analyze_protocol.py:224-225 | every duration but the last equals the analysis interval from that transition to the next |
| `Export.CsvDurationsSum` | skills/logicmso/analyze_protocol.py:224-227 | the durations column adds up to the signal span in microseconds |
| `Export.CsvStateOppositeLevel` | skills/logicmso/analyze_protocol.py:223 | for a 0/1 initial state, row i's state is 0 exactly when the analysis counts interval i as HIGH: the column holds the level before transition i |

## Left out

- `load_capture` (lines 40-56): reading the binary file through the Saleae library is I/O; the `Capture` datatype stands for its result. `sample_rate` is only printed by `main`, so it is not part of `Capture`.
- The import guard (lines 16-20), `print_histogram` (lines 185-211) and `main` (lines 233 onwards): printing, argument parsing and process exit.
- `std_us` (line 87): a standard deviation needs a square root, which exact real arithmetic does not provide; no other part of the core reads it.
- `durations_ms` (line 68) is computed and never used.
- The `high_clusters` and `low_clusters` calls (lines 150-151): their results are never read, so they do not change the guesses.
- Writing the CSV file and the number formats `.9f` and `.3f` (lines 219-230): the model returns the rows instead. The guess names and details strings are the datatypes `Uart(baud)`, `OneWire`, `BitPeriod(period)` and `ResetAndShortPulses`.
- Floating point: all arithmetic is exact. Whether `np.round` rounds halves to even does not matter, because only the distance to the rounded value is used.
- The in-place `list.append` and `list.sort` calls on the local lists are modelled as new sequence values; no other code can see those lists.
- Clusters.DetectClusters: requires every duration to be positive. Durations from a capture with strictly increasing timestamps are (Timing.AnalyzeTimingPositive); a run of zeros would make the join test divide by zero, giving inf or NaN, so the join test fails; the model's exact division has no such value, so it leaves that case out.
- Protocol.GuessProtocol: requires at least one duration, as every analysis `analyze_timing` returns has. With none, numpy's mean is NaN and no UART test passes, while the exact model's mean of nothing is 0.
- Clusters.DetectedClustersTies: states the ascending-centre order of ties only for a non-negative tolerance; with a negative one every duration is its own cluster and equal durations may repeat a centre.
- Clusters.ReclusterCenters: proved for a non-negative tolerance, for the same reason.
