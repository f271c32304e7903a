# Signal analyzer: a verified model of the extremum engine

The signal analyzer reads several sampled signals. For each signal it finds
the crests and troughs, then cleans them up by filtering every signal
against every other one. It crops them to a time range and then estimates
amplitude, offset and frequency. It also relates the signals to each other
by the phase of their extrema: for every pair of signals, each extremum of
one is placed inside a period of the other.

This project models that engine and proves what it computes:

- One signal's analyser is the class `Signal.SignalAnalyzer`. Its fields
  are the parallel value and time vectors of crests and troughs, which
  its methods update in place.
- The list of analysers is the class `Driver.SignalAnalyzerList`.
- Each piece of logic is written once as a pure definition over
  `seq<Extremum>` (time/value pairs), and the imperative loops of the
  program are proved against it. The pure definitions live in these
  modules:
  - `Detection`: crest and trough selection, and the slope lookback.
  - `Cropping`: `crop_length`.
  - `Consolidation`: `filter_signal_crest/trough`.
  - `Features`: amplitude, offset and frequency.
  - `Phase`: `calculate_phase_crest/trough`.
  - `Pairs`: the pair loops of the driver.
  - `Rounds`: the filtering rounds.
  - `PhaseTable`: the phase table.
  - `Reports`: the averages the driver prints.
- `Samples` holds the shared vocabulary: means, ordering and
  subsequences.

Sample values and times are mathematical reals. `NOISE_THRESHOLD` (5.0) is
the `threshold` given to each analyser. `FILTER_EPOCH` (1) is
`Driver.FilterEpoch`, and the number of epochs is an argument of
`FilterSignal`. A program exit is modelled as a `false` result (filtering)
or a `None` (construction, lookups). Undefined behaviour on empty vectors,
and divisions by an empty count, are excluded by preconditions.

The older driver in `trunk/` differs from the current one in these ways:
it has no cropping, its phase table and phase relation use crests only, it
has no `show_signal_range`, and its header declares only the file-name
constructor (the `.cpp` also defines the id-list constructor at
trunk/Source/signal_analyzer_list.cpp:64-90, which the header does not
declare). Both drivers loop `n < FILTER_EPOCH` in `filter_signal`; the
epoch count as an argument of `Driver.SignalAnalyzerList.FilterSignal` is
this model's generalisation, and `Trunk.FilterSignal` fixes it to
`FILTER_EPOCH` as both programs do. Module `Trunk` models the older
`filter_signal`, `calculate_phaseVector` and `show_phase_relation` by
running the current driver's code with those fixed choices. `trunk/` has
no `Signal_Analyzer` class of its own; `Trunk` assumes it is the current
class (`Signal.SignalAnalyzer`), whose older version is not part of this
model. The trunk constructor and `show_signal_frequency` are the same code
as the current ones, so the rows for `Driver.SignalAnalyzerList.Create`
and `Reports.AverageFrequencyPositive` cover them as well.

## Model

| member | source | states |
|---|---|---|
| Detection.LookbackGuardAgrees | Source/signal_analyzer.cpp:191-229 | Wherever `is_previous_signal_lower` reads only samples that exist, it answers what the guarded lookback `IsPreviousLower` answers. Where it would read before sample 0, the guarded version answers false. |
| Detection.LookbackReadsBeforeStart | Source/signal_analyzer.cpp:201-208 | On samples [0, 0, 5, 4] with threshold 5.0, index 2 passes the mean, noise and right-neighbour tests. The lookback then steps over a rise of exactly 5.0 (strict `<`) to index 0 and would read `signal[-1]`. |
| Detection.LookbackDuality | Source/signal_analyzer.cpp:240-278 | `is_previous_signal_higher` on a signal is `is_previous_signal_lower` on the negated signal, case for case. |
| Detection.LookbackDualityAsWritten | Source/signal_analyzer.cpp:240-278 | `is_previous_signal_higher` as written, with its `index-2` step at line 257 and the read before the first sample, is `is_previous_signal_lower` as written on the negated signal, case for case. |
| Detection.TroughLookbackReadsBeforeStart | Source/signal_analyzer.cpp:255-258 | On signal [0, 0, −5, −4] with threshold 5.0, the trough lookback as written steps from index 2 to index 0 and reads before the first sample, where the guarded lookback answers "not falling". |
| Detection.LookbackExclusive | Source/signal_analyzer.cpp:191-278 | The two lookbacks never both answer true at the same index. |
| Detection.LookbackReadsOnlyHistory | Source/signal_analyzer.cpp:191-229 | The lookback at `index` depends only on samples 0..index. |
| Detection.LookbackSkipsPlateau | Source/signal_analyzer.cpp:195-198 | Equal neighbours are stepped over: on a plateau the answer is the one at the plateau's first sample. |
| Detection.CrestIndices | Source/signal_analyzer.cpp:287-301 | Every selected index is interior (1 <= i < size-1). It is above the mean, both neighbour gaps are within the threshold, it is above its right neighbour, and the lookback holds. |
| Detection.CrestIndicesExact | Source/signal_analyzer.cpp:287-301 | Selected indices are strictly increasing, and every interior index satisfying the crest test is selected. |
| Detection.TroughIndices | Source/signal_analyzer.cpp:324-338 | The same for troughs: below the mean, below the right neighbour, and `is_previous_signal_higher` holds. |
| Detection.TroughIndicesExact | Source/signal_analyzer.cpp:324-338 | Trough indices are increasing and complete. |
| Detection.TroughsAreNegatedCrests | Source/signal_analyzer.cpp:322-338 | Trough selection is crest selection on the negated signal around the negated mean. |
| Detection.SelectionSidesOfMean | Source/signal_analyzer.cpp:290 | Every crest value is above the signal's mean and every trough value below it. |
| Detection.CrestsFollowTime | Source/signal_analyzer.cpp:285-301 | For increasing sample times, the crest times are strictly increasing and form a subsequence of the time vector. |
| Detection.TroughsFollowTime | Source/signal_analyzer.cpp:322-338 | The same for trough times. |
| Detection.CrestsAndTroughsDisjoint | Source/signal_analyzer.cpp:290-327 | No sample is both a crest and a trough: crest and trough times never coincide. |
| Signal.PushCrests | Source/signal_analyzer.cpp:287-301 | The selection loop keeps values and times of equal length, and appends exactly the selected crests, in order, to the existing ones. |
| Signal.PushTroughs | Source/signal_analyzer.cpp:324-338 | The same for troughs. |
| Signal.SignalAnalyzer.constructor | Source/signal_analyzer.cpp:27-39 | The mean is the mean of the samples. The crest and trough lists are exactly the selections around that mean. |
| Signal.SignalAnalyzer.SelectCrest | Source/signal_analyzer.cpp:285-315 | The crest lists become the old ones followed by the selected crests; the troughs are unchanged. |
| Signal.SignalAnalyzer.SelectTrough | Source/signal_analyzer.cpp:322-352 | The trough lists become the old ones followed by the selected troughs; the crests are unchanged. |
| Cropping.LeadingBelow | Source/signal_analyzer.cpp:106-113 | The number of leading extrema removed is the length of the longest prefix with time below the lower bound. |
| Cropping.TrailingAbove | Source/signal_analyzer.cpp:116-123 | The number of trailing extrema removed is the length of the longest suffix with time above the upper bound. |
| Cropping.CropDefinedWhen | Source/signal_analyzer.cpp:106-123 | The crop is defined exactly when, after the leading drop, some extremum is at or below the upper bound. Otherwise the program pops or reads an empty vector. |
| Cropping.CropKeepsMiddle | Source/signal_analyzer.cpp:106-123 | The result is a contiguous middle part of the input. Everything before it is below the lower bound, everything after it is above the upper bound, and its first time is >= lower and its last time <= upper. |
| Cropping.CropSortedDefinedWhen | Source/signal_analyzer.cpp:106-123 | For increasing times, the crop is defined exactly when some extremum lies in [lower, upper]. |
| Cropping.CropSortedKeepsRange | Source/signal_analyzer.cpp:106-143 | For increasing times, the crop keeps exactly the extrema with lower <= time <= upper, still in increasing order. |
| Cropping.CropExample | Source/signal_analyzer.cpp:106-123 | Cropping five extrema at times 0.5 … 119.5 to [1, 119] keeps those at 1.5, 2.5 and 118.5. |
| Cropping.CropExtrema | Source/signal_analyzer.cpp:106-123 | Applied to one value/time vector pair, the two while-loops give the crop of that list, with values and times still of equal length. |
| Cropping.CropInTwoSteps | Source/signal_analyzer.cpp:106-123 | The crop is the leading drop followed by the trailing drop, each on the parallel vectors. |
| Cropping.DropLeading | Source/signal_analyzer.cpp:106-113 | The front-erasing loop removes exactly the leading extrema below the lower bound from both vectors. |
| Cropping.DropTrailing | Source/signal_analyzer.cpp:116-123 | The pop_back loop removes exactly the trailing extrema above the upper bound from both vectors. |
| Signal.SignalAnalyzer.CropLength | Source/signal_analyzer.cpp:98-143 | Crests and troughs are each replaced by their crop to [lower, upper]. |
| Consolidation.CollectIsWindow | Source/signal_analyzer.cpp:373-384 | For sorted times, the collected extrema are exactly those in the closed window [ref[i], ref[i+1]]. |
| Consolidation.CollectInside | Source/signal_analyzer.cpp:373-384 | The collected extrema are a subsequence of the list, and all of them lie in the window. |
| Consolidation.BestIsEarliestBest | Source/signal_analyzer.cpp:390-402 | The position the bubble pass carries forward holds a maximum (crests) or minimum (troughs) of the window. No earlier position strictly beats it. |
| Consolidation.BubblePermutes | Source/signal_analyzer.cpp:390-402 | The bubble pass only permutes the window. |
| Consolidation.BubbleCarriesBest | Source/signal_analyzer.cpp:390-402 | After the pass, the last slot holds that best element. |
| Consolidation.Losers | Source/signal_analyzer.cpp:390-423 | The elements before the last slot, which are the ones erased, are exactly the window's elements other than the best. |
| Consolidation.EraseAllSorted | Source/signal_analyzer.cpp:405-423 | Erasing by time keeps increasing order and removes exactly the extrema whose time is listed. |
| Consolidation.SurvivorIsEarliestBest | Source/signal_analyzer.cpp:367-423 | The survivor of a window dominates every extremum in it, and no earlier extremum strictly beats it. Ties go to the earliest because of the `>=` (`<=`) swap. |
| Consolidation.FilterWindowKeepsSurvivor | Source/signal_analyzer.cpp:367-423 | One window step keeps every extremum outside the window and, inside it, only the survivor. |
| Consolidation.FilterWindowEmpty | Source/signal_analyzer.cpp:373-402 | A window with no extremum leaves the list unchanged. |
| Consolidation.FilterOnlyErases | Source/signal_analyzer.cpp:361-439 | `filter_signal_crest/trough` only erases: the result is a subsequence of the input and no longer than it. |
| Consolidation.FilterWithoutWindows | Source/signal_analyzer.cpp:367 | A reference with one extremum leaves the list unchanged. An empty reference exits exactly when the subject is non-empty: `size()-1` wraps and `get_crest_time(0)` exits. |
| Consolidation.FilterLeavesOnePerWindow | Source/signal_analyzer.cpp:367-423 | For increasing times, the result stays increasing and every closed reference window holds at most one extremum. |
| Consolidation.FilterIdempotent | Source/signal_analyzer.cpp:367-423 | Filtering a second time against the same reference changes nothing. |
| Consolidation.CollectInWindow | Source/signal_analyzer.cpp:373-384 | The collecting loop gathers positions and times of exactly the window's extrema. |
| Consolidation.BubblePass | Source/signal_analyzer.cpp:390-402 | The swapping loop over the positions produces exactly the bubbled window. |
| Consolidation.EraseByTimes | Source/signal_analyzer.cpp:405-423 | The erase loop removes, for each listed time, its first occurrence from both vectors, keeping them of equal length. |
| Consolidation.FilterOneWindow | Source/signal_analyzer.cpp:369-424 | One pass of the window loop computes the window step. |
| Signal.SignalAnalyzer.FilterCrest | Source/signal_analyzer.cpp:361-439 | Runs the window loop over the reference, reading each window's bounds through the reference's `get_crest_time` (`GetCrestTime`, lines 744-758). Succeeds exactly when the crest filter against the reference's crest times is defined, which fails only when the getter exits on index 0 of an empty reference while this signal has crests; on success the crests are the filter's result, on failure they are unchanged. The troughs are untouched. |
| Signal.SignalAnalyzer.FilterTrough | Source/signal_analyzer.cpp:448-526 | The same for troughs, with the minimum and `<=`, reading bounds through `get_trough_time` (`GetTroughTime`, lines 766-780). |
| Features.RangeEnds | Source/signal_analyzer.cpp:534-568 | offset + amplitude is the crest mean, offset − amplitude is the trough mean, and amplitude is half their difference. |
| Features.AmplitudePositive | Source/signal_analyzer.cpp:534-568 | With crests above some level and troughs below it, the amplitude is positive and the offset lies strictly between the two means. |
| Signal.SignalAnalyzer.EstimateAmplitude | Source/signal_analyzer.cpp:534-548 | The amplitude is half the difference between the crest and trough means. |
| Signal.SignalAnalyzer.EstimateOffset | Source/signal_analyzer.cpp:556-568 | The offset plus or minus the amplitude gives the crest mean and the trough mean. |
| Features.PushRates | Source/signal_analyzer.cpp:585-598 | The rate loop appends 1/(t[i]−t[i−1]) for every consecutive pair, in order. |
| Features.EstimateFrequency | Source/signal_analyzer.cpp:578-602 | The frequency is the mean of the pooled crest and trough rates. |
| Features.RatesOfUniformSpacing | Source/signal_analyzer.cpp:585-598 | Extrema spaced by one period give rates of exactly 1/period. |
| Features.UniformSpacing | Source/signal_analyzer.cpp:578-602 | Crests and troughs each spaced by the same period give a frequency of 1/period. |
| Features.FrequencyPositive | Source/signal_analyzer.cpp:578-602 | Increasing times with at least two crests or two troughs give a positive frequency. |
| Signal.SignalAnalyzer.EstimateFrequency | Source/signal_analyzer.cpp:578-602 | The object's estimate is the frequency of its crest and trough times. |
| Phase.BracketFrom | Source/signal_analyzer.cpp:635-645 | The bracket search returns the first j with ref[j−1] <= t < ref[j], or reports that there is none. |
| Phase.Phase360 | Source/signal_analyzer.cpp:649 | The phase is in [0, 360). |
| Phase.Phase180 | Source/signal_analyzer.cpp:651-658 | The signed phase is in (−180, 180], and equals the phase or the phase minus 360. |
| Phase.PhaseRow | Source/signal_analyzer.cpp:631-665 | One pass of the outer loop emits the row for t: its time, signed phase and phase within the bracketing reference period. When no period brackets t, it emits nothing. |
| Phase.CalculatePhase | Source/signal_analyzer.cpp:616-669 | The loop emits exactly the phase matrix of the subject times against the reference times. |
| Phase.PhaseSamplesInRange | Source/signal_analyzer.cpp:649-658 | Every row has phase in [0, 360), and its signed phase in (−180, 180] is the phase shifted by a full turn above 180. |
| Phase.PhaseTimesFollowSubject | Source/signal_analyzer.cpp:630-666 | Row times are a subsequence of the subject times, in subject order. |
| Phase.PhaseRowWhenBracketed | Source/signal_analyzer.cpp:630-666 | A subject time gets a row exactly when some reference period brackets it. |
| Phase.BracketExistsWhen | Source/signal_analyzer.cpp:635-645 | For sorted reference times, a bracket exists exactly when ref[0] <= t < ref[last]. |
| Phase.BracketUnique | Source/signal_analyzer.cpp:635-645 | For strictly increasing reference times, the bracket found is the unique period containing t. |
| Phase.InPhaseAtReference | Source/signal_analyzer.cpp:635-658 | A subject extremum coinciding with a reference extremum has phase 0. |
| Phase.HalfTurnAtMidpoint | Source/signal_analyzer.cpp:635-658 | A subject extremum halfway through a reference period has phase 180 in both forms. |
| Signal.SignalAnalyzer.CalculatePhaseCrest | Source/signal_analyzer.cpp:616-669 | The crest phase matrix of this signal against the reference's crests. |
| Signal.SignalAnalyzer.CalculatePhaseTrough | Source/signal_analyzer.cpp:683-736 | The trough phase matrix of this signal against the reference's troughs. |
| Driver.CreateSignals | Source/signal_analyzer_list.cpp:47-51 | One distinct analyser per signal, in order, each holding that signal's initial crest and trough selection. |
| Driver.SignalAnalyzerList.constructor | Source/signal_analyzer_list.cpp:64-90 | The list holds the signals with the given ids, in order, with their initial extremum lists. |
| Driver.SignalAnalyzerList.Create | Source/signal_analyzer_list.cpp:26-52 | Construction fails exactly when there are no signals. Otherwise the state is the initial selection of every signal. The constructor at trunk/Source/signal_analyzer_list.cpp:26-52 is the same code. |
| Driver.InitialOrdered | Source/signal_analyzer_list.cpp:47-51 | For increasing sample times, every initial list is in strictly increasing time order. Crests lie above, and troughs below, their own signal's mean. |
| Pairs.OrderedPairsExact | Source/signal_analyzer_list.cpp:153-162 | One epoch visits every ordered pair (i, j) with i ≠ j exactly once, row-major, n(n−1) pairs in all. |
| Rounds.FilterPairPrunes | Source/signal_analyzer_list.cpp:159-160 | One pair step only erases, and only from signal i. |
| Rounds.EpochsPrune | Source/signal_analyzer_list.cpp:151-164 | After any number of epochs, every signal's crests and troughs are subsequences of the original lists, so their counts never grow. |
| Rounds.EpochsKeepOrder | Source/signal_analyzer_list.cpp:151-164 | Filtering keeps every list in strictly increasing time order. |
| Rounds.FilterPairSettles | Source/signal_analyzer_list.cpp:159-160 | After the step for (i, j), signal i has at most one crest in each window of signal j's crests, and likewise for troughs. |
| Rounds.EpochsFailLater | Source/signal_analyzer_list.cpp:151-164 | Once a filter call exits, no longer run succeeds. |
| Rounds.RowsStep | Source/signal_analyzer_list.cpp:153-163 | Row i of an epoch runs on the state left by rows 0..i−1, so later calls see references already pruned in the same epoch. |
| Driver.SignalAnalyzerList.FilterPairStep | Source/signal_analyzer_list.cpp:157-161 | Filters signal i's crests and then its troughs against signal j. It succeeds exactly when both filters are defined, and the state is then the pair step's result. |
| Driver.SignalAnalyzerList.FilterRow | Source/signal_analyzer_list.cpp:155-162 | The inner loop performs the pair steps of row i in order; on success, the state is their composition. |
| Driver.SignalAnalyzerList.FilterRound | Source/signal_analyzer_list.cpp:153-164 | One epoch performs the steps of all ordered pairs in row-major order. |
| Driver.SignalAnalyzerList.FilterSignal | Source/signal_analyzer_list.cpp:148-172 | `epochs` rounds: on success the state is the epochs' composition; on failure the composition is undefined, meaning the program exited. |
| Driver.FilteredRangeOrdered | Source/signal_analyzer_list.cpp:469-482 | After filtering, with increasing sample times, each signal's reported range has its upper end above its lower end. |
| Driver.CroppedExact | Source/signal_analyzer_list.cpp:181-198 | Cropping all signals keeps exactly the extrema in [lower, upper], in increasing order. |
| Driver.CroppedUpToStep | Source/signal_analyzer_list.cpp:194-197 | Cropping signal i changes only entry i of the state. |
| Driver.SignalAnalyzerList.CropOne | Source/signal_analyzer_list.cpp:196 | Crops one signal's lists and leaves the others' unchanged. |
| Driver.SignalAnalyzerList.CropSignalLength | Source/signal_analyzer_list.cpp:181-205 | Every signal is cropped with the same bounds. Valid() excludes the empty list, on which the program exits. |
| Pairs.UnorderedPairsExact | Source/signal_analyzer_list.cpp:251-257 | The phase table uses exactly the pairs i < j, n(n−1)/2 of them, in lexicographic order. |
| Pairs.UnorderedLastRowEmpty | Source/signal_analyzer_list.cpp:251 | Running the outer loop to n−1 instead of n loses no pair. |
| Reports.RowTablesPush | Source/signal_analyzer_list.cpp:253-256 | Pushing pair (i, j)'s matrix extends the row's matrices by exactly that one, in j order. |
| Driver.SignalAnalyzerList.PairPhase | Source/signal_analyzer_list.cpp:255 | The pushed matrix is the phase of signal i against signal j, by crests or by troughs. |
| Driver.SignalAnalyzerList.PairRow | Source/signal_analyzer_list.cpp:253-256 | The inner pair loop produces the matrices of row i's pairs, in order. |
| Driver.SignalAnalyzerList.PairColumn | Source/signal_analyzer_list.cpp:253-256 | One inner iteration extends the row prefix by one matrix. |
| Driver.SignalAnalyzerList.PhaseTables | Source/signal_analyzer_list.cpp:251-257 | The pair loops produce the phase matrix of every pair i < j, in lexicographic order. |
| PhaseTable.CollectTimes | Source/signal_analyzer_list.cpp:263-272 | The find / push_back loops keep the first occurrence of every row time, in visiting order. |
| PhaseTable.DedupExact | Source/signal_analyzer_list.cpp:263-272 | The collected times are duplicate-free and are exactly the row times. |
| PhaseTable.SortAscending | Source/signal_analyzer_list.cpp:275 | The sorted axis is in ascending order. |
| PhaseTable.SortPermutes | Source/signal_analyzer_list.cpp:275 | Sorting is a permutation of the collected times. |
| PhaseTable.SortKeepsDistinct | Source/signal_analyzer_list.cpp:275 | Sorting keeps the times duplicate-free. |
| PhaseTable.AllTimesMembers | Source/signal_analyzer_list.cpp:263-272 | A time is visited exactly when it is the time of some row of some pair matrix. |
| PhaseTable.AxisExact | Source/signal_analyzer_list.cpp:263-275 | The axis is strictly ascending and holds exactly the row times of all matrices. |
| PhaseTable.FirstFrom | Source/signal_analyzer_list.cpp:285-294 | The inner search stops at the first row whose time is >= the axis time, or finds none. |
| PhaseTable.FirstAtOrAfter | Source/signal_analyzer_list.cpp:285-294 | The scan of one matrix picks its first row at or after the axis time, or nothing. |
| PhaseTable.PickExact | Source/signal_analyzer_list.cpp:283-295 | A matrix contributes a value exactly when it has a row at or after the axis time, and then it is the earliest such row. |
| PhaseTable.FullRowWhen | Source/signal_analyzer_list.cpp:278-299 | A line has one column per matrix exactly when every matrix has a row at or after its time. Otherwise it is shorter. |
| PhaseTable.PickRow | Source/signal_analyzer_list.cpp:280-298 | One output line is the axis time, then the signed phase and the phase of every matrix's pick. |
| PhaseTable.TableRows | Source/signal_analyzer_list.cpp:278-299 | Line n is stamped with the n-th axis time, and its two phase columns have equal length. |
| PhaseTable.BuildTable | Source/signal_analyzer_list.cpp:263-299 | The collect, sort and lookup loops produce the table: one line per axis time. |
| Driver.SignalAnalyzerList.CalculatePhaseVector | Source/signal_analyzer_list.cpp:242-303 | The phase-table rows `calculate_phaseVector_crest/trough` writes, computed from the current lists of all signals. |
| Phase.AveragePhaseInRange | Source/signal_analyzer_list.cpp:397-401 | The mean signed phase of a non-empty matrix is in (−180, 180]. |
| Reports.PhaseRelationInRange | Source/signal_analyzer_list.cpp:381-443 | `show_phase_relation_*` reports an average for a pair exactly when its matrix is non-empty (otherwise it divides by zero), and every average is in (−180, 180]. |
| Reports.RangeIsMeans | Source/signal_analyzer_list.cpp:469-482 | The reported range [amplitude + offset : −amplitude + offset] is the crest mean and the trough mean. |
| Reports.RangeOrdered | Source/signal_analyzer_list.cpp:469-482 | With crests above some level and troughs below it, the upper end of the range is above the lower end. |
| Reports.AverageFrequencyPositive | Source/signal_analyzer_list.cpp:450-462 | With increasing times and at least two crests or troughs per signal, every estimate is defined and their average is positive. The function at trunk/Source/signal_analyzer_list.cpp:311-323 is the same code. |
| Trunk.FilterSignal | trunk/Source/signal_analyzer_list.cpp:148-172 | The older `filter_signal` runs `FILTER_EPOCH` rounds over all ordered pairs. On success every signal keeps a subsequence of its crests and of its troughs; on failure the rounds are undefined, meaning the program exited. |
| Trunk.CalculatePhaseVector | trunk/Source/signal_analyzer_list.cpp:208-269 | The older `calculate_phaseVector` produces the table of the crest phase matrices of all pairs i < j. Its rows are stamped, one per time, with a strictly ascending axis that holds every crest phase time exactly once. |
| Trunk.PhaseRelation | trunk/Source/signal_analyzer_list.cpp:277-304 | The older `show_phase_relation` gives one crest-based average per pair i < j, in lexicographic order. An average exists exactly when the pair's matrix is non-empty, and every average is in (−180, 180]. |

## Left out

- Reading the data files (`extract_signal_data_from_file`, `get_num_signals`) is not modelled. Each signal's id, times and samples are given to the constructors as a `SignalData` value.
- Writing output files is not modelled: the `.dat` files of `crop_length`, `select_signal_*`, `filter_signal_*` and `calculate_phaseVector_*`. The phase table is returned as rows instead.
- Console printing is not modelled. The values that `show_signal_range`, `show_signal_frequency` and `show_phase_relation_*` print are pure functions in `Reports`.
- `show_signal_amplitudes` and `show_signal_offsets` only print `estimate_amplitude`/`estimate_offset` per signal, so they have no member of their own.
- The `system("exec rm -r ../Output/*")` call in the constructors is not modelled.
- Both `main.cpp` files, and the headers apart from their two constants, are not part of this model.
- The size and id getters are not modelled separately; they read the lengths and the `id` field directly. `get_crest_time` and `get_trough_time` are `Signal.SignalAnalyzer.GetCrestTime` and `GetTroughTime`, which the filter methods call for every window bound.
- The arithmetic is on reals, not IEEE doubles: rounding is not modelled. NaN from 0/0 is modelled as `None` (`Reports.PhaseRelation`) or excluded by a precondition: non-empty lists for the means of `estimate_amplitude` and `estimate_offset`, and `|crestTime| > 1 || |troughTime| > 1` for `Signal.SignalAnalyzer.EstimateFrequency`, whose empty `freqVec` would be divided by its size 0 (Source/signal_analyzer.cpp:600).
- Signal.SignalAnalyzer.EstimateFrequency: requires distinct neighbouring crest times and trough times. Equal neighbours give a period of 0 and a rate of ±infinity (Source/signal_analyzer.cpp:588, 596), which reals cannot represent.
- `exit()` calls are not modelled as process termination. In `filter_signal_*` an exit becomes a `false` result. In the lookups it becomes `None`, and in the list constructors it becomes `Create` returning `None`. A `false` from `FilterSignal` means the program has already ended, so the state after it is not specified.
- Signal.SignalAnalyzer.CropLength: requires that each list keeps an extremum in range. Otherwise `crop_length` calls `front()`/`back()`/`pop_back()` on an empty vector, which is undefined behaviour, not an error path.
- Driver.SignalAnalyzerList.CropSignalLength: requires the same of every signal, for the same reason.
- Signal.SignalAnalyzer.constructor: requires a non-empty sample vector. The program would otherwise take a 0/0 mean.
- Signal.SignalAnalyzer.FilterCrest: requires the reference to be another object, as every call in the driver passes `S[j]` with `j != i`. Filtering a signal against itself is not modelled.
- Signal.SignalAnalyzer.FilterTrough: the same requirement.
- Unsigned wrap-around of `no_of_signals-1` is not modelled, because the constructors exit before any loop can see zero signals.
- The wrap-around of `size()-1` on an empty reference in `filter_signal_*` is modelled only by its outcome: an exit if the subject is non-empty, and otherwise a loop that does nothing.

## Findings

| source | as written | input that shows it | evidently intended | confidence | as-written member | corrected member |
|---|---|---|---|---|---|---|
| Source/signal_analyzer.cpp:208 | In `is_previous_signal_lower`, a rise of exactly the noise threshold is stepped over with `index-2`. From index 2 that reaches index 0, whose lookback compares `signal[0]` with `signal[-1]` (an unsigned index wrapping around). The same step is at line 257 in `is_previous_signal_higher`, the same flaw on the negated signal. | samples [0, 0, 5, 4], threshold 5.0, index 2: sample 2 passes the crest tests and its lookback reaches index 0 | stop the lookback when it would step before the first sample, and answer "not rising" | not executed | Detection.IsPreviousLowerAsWritten, Detection.LookbackReadsBeforeStart, Detection.IsPreviousHigherAsWritten, Detection.LookbackDualityAsWritten, Detection.TroughLookbackReadsBeforeStart | Detection.IsPreviousLower, Detection.LookbackGuardAgrees |
