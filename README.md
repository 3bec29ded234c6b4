# Multi-NV pulse generation: a verified model

This project models the core of the multi-NV pulse-sequence generator of
qudi's pulsed logic (`MultiNV_Generator` in
`logic/pulsed/predefined_generate_methods/multi_nv_methods.py`). That core
composes microwave waveforms driving several nitrogen-vacancy (NV) centres at
once. The modules are:

- `Wrappers`: `Option`, `Result` and the Python exceptions the core raises
  (`ValueError`, `IndexError`, `TypeError`, `NotImplementedError`,
  `ZeroDivisionError`).
- `Seqs`: sums, maxima, flattening, and the stable sort of channel positions
  by length that `sorted(..., key=...)` performs.
- `Elements`: a pulse element (microwave on several channels, or idle) with
  initial length and per-step increment; `get_element_length` and
  `get_element_length_max`.
- `ParamArray`: `_create_param_array`, the per-NV parameter vector, with its
  reordering of per-NV chunks and its isolation of one NV.
- `Partition`: `_get_multiple_mw_mult_length_element`. Channels of unequal
  duration that start together become a gap-free list of constant-amplitude
  segments (`create_pulse_partition`). The list is built after the in-place
  fixes `nan_phase_2_zero_ampl` and `sanitize_lengths`, and after the argument
  checks.
- `Text`: the string and path helpers the catalog relies on: `in`,
  `str.replace`, `os.path.basename`, `os.path.splitext` and
  `os.path.commonprefix`. It also holds `list_2_csv`.
- `Catalog`: `OptimalControlPulse`, the lookup `get_oc_pulse`, and the pairing
  of in-phase and quadrature files done by `load_optimal_pulses_from_path`.
  These are specification functions over the directory listing.
- `Generator`: the class `MultiNvGenerator`, whose field is the optimal-pulse
  catalog. Its constructor, lookup, loader, `_get_pi_oc_element` and
  `get_pi_element` are methods proved against the specification functions.
  The module also holds `get_mult_mw_element` and the rotation-pulse
  properties.
- `Deer`: bookkeeping of `generate_deer_dd_tau`. It covers the slot
  classification `get_deer_pos`, the choice of tau-half element, the nested
  dynamical-decoupling loop with its pulse counts, the phases its pi pulses
  are generated with in the first pass and the alternating copy, and the
  negative-spacing check.
- `Tomography`: bookkeeping of `generate_tomography_single` and
  `generate_tomography`. It covers the initial-state and rotation dispatch,
  the length check, the block loop, the announced number of lasers, and the
  Rabi-NV check.

Durations, amplitudes, frequencies and phases are exact reals. A NaN phase is
an explicit `Phase.Nan` value. The 1e-15 and 1e-99 placeholders are named
positive constants. Source paths below are relative to the repository root.

## Model

| member | source | states |
|---|---|---|
| Elements.ElementLength | logic/pulsed/predefined_generate_methods/multi_nv_methods.py:2451-2467 | definition of `get_element_length`: ValueError when the increments do not sum to zero, otherwise the sum of the initial lengths; its meaning is stated by ElementLengthFailsIffSwept and ElementLengthIsStepIndependent |
| Elements.ElementLengthMax | logic/pulsed/predefined_generate_methods/multi_nv_methods.py:2470-2479 | definition of `get_element_length_max`: the summed initial lengths plus n_tau − 1 times the summed increments; ElementLengthMaxIsLastStep states that this is the duration at the last sweep step |
| Elements.ElementLengthMaxIsLastStep | logic/pulsed/predefined_generate_methods/multi_nv_methods.py:2468-2479 | that aggregate equals the element-by-element duration of the list at the last sweep step, n_tau − 1 |
| Elements.ElementLengthFailsIffSwept | logic/pulsed/predefined_generate_methods/multi_nv_methods.py:2459-2467 | `get_element_length` raises ValueError exactly when the duration differs between sweep steps 0 and 1, i.e. when the increments do not cancel |
| Elements.ElementLengthIsStepIndependent | logic/pulsed/predefined_generate_methods/multi_nv_methods.py:2459-2479 | when `get_element_length` succeeds, its value is the duration at every sweep step and equals `get_element_length_max` for any number of steps |
| Elements.ElementLengthMaxAppend | logic/pulsed/predefined_generate_methods/multi_nv_methods.py:2468-2479 | the maximal duration of concatenated element lists is the sum of their maximal durations |
| Seqs.SortIndices | logic/pulsed/predefined_generate_methods/multi_nv_methods.py:2526 | `sorted(..., key=length)`: the channel positions rearranged (each exactly once) in ascending length, equal lengths keeping their original order |
| ParamArray.Concat | logic/pulsed/predefined_generate_methods/multi_nv_methods.py:2605-2606 | the vector is `[in_value] + in_list`, except that a missing or zero `in_value` is dropped |
| ParamArray.CreateParamArray | logic/pulsed/predefined_generate_methods/multi_nv_methods.py:2586-2632 | definition of `_create_param_array`: the concatenated vector, reordered by `order_nvs` when it is given, then reduced to one NV when both `n_nvs` and `idx_nv` are given; an error of either step is the result |
| ParamArray.Reorder | logic/pulsed/predefined_generate_methods/multi_nv_methods.py:2609-2614 | definition of the reordering: TypeError without `n_nvs`, ZeroDivisionError for `n_nvs` 0, ValueError when the chunk size `len // n_nvs` is 0, otherwise the chunks sorted by their labels and flattened |
| ParamArray.Isolate | logic/pulsed/predefined_generate_methods/multi_nv_methods.py:2617-2630 | ValueError exactly when `idx_nv >= n_nvs`; otherwise a vector of the same length (its entries are stated by IsolateKeepsOneNv) |
| ParamArray.PlainVector | logic/pulsed/predefined_generate_methods/multi_nv_methods.py:2605-2632 | without `order_nvs` and without both `n_nvs` and `idx_nv` the concatenated vector comes back unchanged |
| ParamArray.SublistsOfFlatten | logic/pulsed/predefined_generate_methods/multi_nv_methods.py:2599-2614 | `sublists` into equal chunks undoes the flattening of equal chunks |
| ParamArray.SortedLabelling | logic/pulsed/predefined_generate_methods/multi_nv_methods.py:2613 | for labels that are a permutation of 1..n, sorting positions by label puts at place j the position labelled j + 1 |
| ParamArray.ArrangeByLabelMoves | logic/pulsed/predefined_generate_methods/multi_nv_methods.py:2613 | sorting the per-NV chunks by label keeps n chunks, each one of the originals, and puts chunk i at place label[i] − 1 |
| ParamArray.ReorderMovesSlices | logic/pulsed/predefined_generate_methods/multi_nv_methods.py:2609-2614 | reordering keeps the length and moves chunk i of the vector to chunk label[i] − 1 |
| ParamArray.IsolateKeepsOneNv | logic/pulsed/predefined_generate_methods/multi_nv_methods.py:2617-2630 | ValueError exactly when `idx_nv >= n_nvs`; otherwise the same length, entry i kept when it lies in chunk `idx_nv` and 0 elsewhere |
| ParamArray.IsolateSlices | logic/pulsed/predefined_generate_methods/multi_nv_methods.py:2617-2630 | seen as chunks: chunk `idx_nv` copied, every other chunk all zeros |
| ParamArray.ReorderThenIsolate | logic/pulsed/predefined_generate_methods/multi_nv_methods.py:2605-2632 | with order, `n_nvs` and `idx_nv` together: chunk i goes to place label[i] − 1 and survives only if that place is `idx_nv` |
| ParamArray.IsolationExample | logic/pulsed/predefined_generate_methods/multi_nv_methods.py:2605-2630 | a concrete vector of two NVs: isolating NV 0 or NV 1 zeroes the other half |
| ParamArray.SwapExample | logic/pulsed/predefined_generate_methods/multi_nv_methods.py:2609-2614 | the order "2,1" swaps the two chunks |
| Partition.PulsePartition | logic/pulsed/predefined_generate_methods/multi_nv_methods.py:2512-2548 | at most one segment per channel, each of positive length with one amplitude per channel (the exact count is PartitionSegmentCount, the total duration PartitionTotal) |
| Partition.PartitionFrom | logic/pulsed/predefined_generate_methods/multi_nv_methods.py:2528-2546 | the partition from a rank on has at most one segment per remaining rank, each of positive length with one amplitude slot per channel |
| Partition.SegmentAmps | logic/pulsed/predefined_generate_methods/multi_nv_methods.py:2535-2543 | a segment's amplitudes, per channel in original order: the channel's amplitude when its length rank is at least the segment index, 0 otherwise |
| Partition.CreatePulsePartition | logic/pulsed/predefined_generate_methods/multi_nv_methods.py:2512-2548 | the loop emits exactly the segments of the partition function |
| Partition.PartitionCompleteness | logic/pulsed/predefined_generate_methods/multi_nv_methods.py:2512-2548 | for non-negative lengths every channel carries its own amplitude in a leading run of segments whose lengths add up exactly to its length, and is silent afterwards |
| Partition.ZeroLengthChannelIsSilent | logic/pulsed/predefined_generate_methods/multi_nv_methods.py:2545-2546 | a channel of length 0 carries amplitude 0 in every segment |
| Partition.PartitionTotal | logic/pulsed/predefined_generate_methods/multi_nv_methods.py:2532-2546 | the segment lengths add up to the longest channel |
| Partition.PartitionSegmentCount | logic/pulsed/predefined_generate_methods/multi_nv_methods.py:2512-2548 | the partition has exactly one segment per distinct positive channel length, so channels of equal length share their last segment and no segment is empty |
| Partition.TwoChannelExample | logic/pulsed/predefined_generate_methods/multi_nv_methods.py:2512-2548 | lengths 50 and 30 give a 30-long segment on both channels followed by a 20-long one on the first |
| Partition.ThreeChannelExample | logic/pulsed/predefined_generate_methods/multi_nv_methods.py:2569 | the case [100, 10, 10]: a 10-long segment on all three channels, then 90 on the first only |
| Partition.NanPhaseToZeroAmpl | logic/pulsed/predefined_generate_methods/multi_nv_methods.py:2559-2563 | in place: the amplitude of every channel with a NaN phase becomes 0, the others are unchanged |
| Partition.SanitizeLengths | logic/pulsed/predefined_generate_methods/multi_nv_methods.py:2550-2557 | in place: a zero length with a non-zero increment becomes the 1e-15 placeholder, the others are unchanged |
| Partition.SanitizedFacts | logic/pulsed/predefined_generate_methods/multi_nv_methods.py:2550-2557 | sanitised lengths stay non-negative, are unchanged when nothing is swept, and give the first channel a positive length when it is swept |
| Partition.CheckedIncrements | logic/pulsed/predefined_generate_methods/multi_nv_methods.py:2493-2510 | when the argument checks pass, the increments are one per channel and all equal, and amps, freqs and phases have one entry per channel |
| Partition.MultLengthAccepts | logic/pulsed/predefined_generate_methods/multi_nv_methods.py:2493-2510 | the element list is built exactly when the increments are a zero scalar or equal per-channel values and all five lists are equally long; a non-zero scalar gives TypeError, unequal increments NotImplementedError, and, with acceptable increments, amplitudes, carriers or phases of another length than the durations give ValueError |
| Partition.MultLengthElements | logic/pulsed/predefined_generate_methods/multi_nv_methods.py:2481-2583 | the element list succeeds exactly when the argument checks do, and fails with their exception; on success it is one microwave element per segment of the partition of the sanitised lengths and NaN-zeroed amplitudes |
| Partition.MultipleMwMultLengthElement | logic/pulsed/predefined_generate_methods/multi_nv_methods.py:2481-2583 | the method returns the modelled element list; on success it has zeroed the NaN-phase amplitudes and sanitised the lengths in the caller's arrays, on error it leaves them untouched |
| Partition.MultLengthShape | logic/pulsed/predefined_generate_methods/multi_nv_methods.py:2572-2581 | exactly one element per distinct positive sanitised duration (hence at most one per channel), each a microwave element of positive length with the full freqs and phases; only the first carries the common increment, later ones 0 |
| Partition.MultLengthChannelProfile | logic/pulsed/predefined_generate_methods/multi_nv_methods.py:2559-2568 | each channel carries its (NaN-zeroed) amplitude in a leading run of elements adding up to its (sanitised) length |
| Partition.MultLengthKeepsSweptChannel | logic/pulsed/predefined_generate_methods/multi_nv_methods.py:2550-2557 | a swept channel of length 0 still appears in the first element, which lasts at most 1e-15 |
| Partition.MultLengthSweptDuration | logic/pulsed/predefined_generate_methods/multi_nv_methods.py:2572-2581 | when swept, the maximal duration is the longest sanitised length plus (n_tau − 1) increments |
| Partition.MultLengthFixedDuration | logic/pulsed/predefined_generate_methods/multi_nv_methods.py:2572-2581 | without a sweep, `get_element_length` of the list is the longest channel length |
| Text.ContainsAt | logic/pulsed/predefined_generate_methods/multi_nv_methods.py:181 | Python's `sub in s` holds exactly when `sub` occurs at some position of `s` |
| Text.RemoveAll | logic/pulsed/predefined_generate_methods/multi_nv_methods.py:151 | `str.replace(x, "")` never lengthens the string (what it cuts out is stated by RemoveAllSingle and RemoveAllAbsent) |
| Text.RemoveAllAbsent | logic/pulsed/predefined_generate_methods/multi_nv_methods.py:151 | a string without the pattern comes back unchanged |
| Text.RemoveAllSingle | logic/pulsed/predefined_generate_methods/multi_nv_methods.py:151 | when the pattern occurs exactly once, `str.replace(pat, "")` cuts out that occurrence and keeps the text before and after it |
| Text.PathSplits | logic/pulsed/predefined_generate_methods/multi_nv_methods.py:150 | a path is its parent directory, one separator and a base name that holds no separator |
| Text.SplitExtParts | logic/pulsed/predefined_generate_methods/multi_nv_methods.py:152-154 | `splitext` root and extension concatenate to the name; the extension is empty or a dot followed by neither dots nor separators |
| Text.CommonPrefix | logic/pulsed/predefined_generate_methods/multi_nv_methods.py:59-70 | the result is a prefix of both names and cannot be extended |
| Text.CommonPrefixIsLongest | logic/pulsed/predefined_generate_methods/multi_nv_methods.py:59-70 | every common prefix of the two names is a prefix of the result |
| Text.JoinLength | logic/pulsed/predefined_generate_methods/multi_nv_methods.py:2634-2647 | the joined text is the item characters plus two per gap, and empty for no items |
| Text.JoinHoldsItems | logic/pulsed/predefined_generate_methods/multi_nv_methods.py:2634-2647 | every item occurs in the joined text |
| Text.ListToCsv | logic/pulsed/predefined_generate_methods/multi_nv_methods.py:2634-2647 | the accumulate-and-trim loop yields the items joined by ", " |
| Catalog.EqualTargetUIsTargetEquivalence | logic/pulsed/predefined_generate_methods/multi_nv_methods.py:54-57 | `equal_target_u` holds exactly when NV index and pi multiple agree, whatever the files; so it is reflexive, symmetric and transitive |
| Catalog.FileIsLongestCommonPrefix | logic/pulsed/predefined_generate_methods/multi_nv_methods.py:59-70 | `file` is a prefix of both file names and contains every common prefix |
| Catalog.Matches | logic/pulsed/predefined_generate_methods/multi_nv_methods.py:134-143 | the lookup returns catalog entries only, and exactly those with the requested key |
| Catalog.MatchesAppend | logic/pulsed/predefined_generate_methods/multi_nv_methods.py:134-143 | lookup in a concatenated catalog is the concatenation of the lookups, so catalog order is kept |
| Catalog.NoMatchIffNoEntry | logic/pulsed/predefined_generate_methods/multi_nv_methods.py:134-143 | the lookup is empty exactly when no catalog entry has the key |
| Catalog.SingleMatch | logic/pulsed/predefined_generate_methods/multi_nv_methods.py:134-143 | the lookup finds one pulse exactly when exactly one catalog position has the key |
| Catalog.UniqueTargetsLookup | logic/pulsed/predefined_generate_methods/multi_nv_methods.py:134-143 | in a catalog without duplicate keys a lookup finds at most one pulse |
| Catalog.FilterStrMembers | logic/pulsed/predefined_generate_methods/multi_nv_methods.py:166 | `filter_str` keeps exactly the names that contain the filter and do not contain the excluded name |
| Catalog.ApplyFiltersMembers | logic/pulsed/predefined_generate_methods/multi_nv_methods.py:165-166 | successive filtering keeps exactly the names that pass every filter |
| Catalog.QFileCandidates | logic/pulsed/predefined_generate_methods/multi_nv_methods.py:147-169 | definition of `find_q_files`: the listing without the in-phase file itself, filtered by the directory and by the in-phase stem with the marker removed, and by the quadrature marker plus extension when the stem is the marker alone |
| Catalog.QFileCandidatesExactly | logic/pulsed/predefined_generate_methods/multi_nv_methods.py:147-169 | a name is a quadrature candidate exactly when it is listed, does not contain the in-phase file, contains the parent directory and the stem, and, when the stem is the marker itself, contains "phase" plus the extension |
| Catalog.NotOwnPartner | logic/pulsed/predefined_generate_methods/multi_nv_methods.py:166 | an in-phase file is never its own quadrature partner |
| Catalog.PulseOf | logic/pulsed/predefined_generate_methods/multi_nv_methods.py:175-198 | definition of one loop iteration: no pulse for a name without the in-phase marker or without exactly one quadrature candidate, otherwise the pulse of the pair, with its parameters parsed from the name |
| Catalog.PulsesOf | logic/pulsed/predefined_generate_methods/multi_nv_methods.py:175-198 | one outcome per listed file: the pulse paired from it, or none when it is skipped |
| Catalog.FoundFromListing | logic/pulsed/predefined_generate_methods/multi_nv_methods.py:175-198 | a paired pulse comes from a listed name containing "amplitude", with its unique quadrature candidate as partner and defaults of 1 for missing parameters |
| Catalog.KeepAbsentFromSound | logic/pulsed/predefined_generate_methods/multi_nv_methods.py:199-206 | as written: a pulse is kept only if it was found and the pre-existing catalog has no entry with its key |
| Catalog.LoadAsWritten | logic/pulsed/predefined_generate_methods/multi_nv_methods.py:145-208 | definition of the loader as written: the listed outcomes kept when found and absent from the catalog held before the load |
| Catalog.LoadAsWrittenSound | logic/pulsed/predefined_generate_methods/multi_nv_methods.py:145-208 | as written: every loaded pulse comes from the listing and has a key absent from the catalog as it was before the load |
| Catalog.KeepFirstSound | logic/pulsed/predefined_generate_methods/multi_nv_methods.py:199-206 | corrected: checking against the catalog plus what this load already kept preserves key uniqueness, and only found pulses are kept |
| Catalog.KeepFirstComplete | logic/pulsed/predefined_generate_methods/multi_nv_methods.py:199-206 | corrected: every found pulse's key ends up in the catalog |
| Catalog.LoadUnique | logic/pulsed/predefined_generate_methods/multi_nv_methods.py:145-208 | definition of the corrected loader: the listed outcomes kept when found and absent from the catalog and from the pulses kept so far |
| Catalog.LoadUniqueSound | logic/pulsed/predefined_generate_methods/multi_nv_methods.py:145-208 | corrected load: the extended catalog has unique keys and every new pulse comes from the listing |
| Catalog.LoadUniqueComplete | logic/pulsed/predefined_generate_methods/multi_nv_methods.py:145-208 | corrected load: every pulse that can be paired from the listing has its key in the extended catalog |
| Catalog.ExamplePartners | logic/pulsed/predefined_generate_methods/multi_nv_methods.py:147-169 | in a listing of two pulses (x and y, each with an i and a q file) each i file finds exactly its own q file |
| Catalog.ExamplePulseOfInPhase | logic/pulsed/predefined_generate_methods/multi_nv_methods.py:175-198 | each i file of that listing pairs to a pulse on NV 1 of one pi, the parameter defaults |
| Catalog.ExamplePulseOfQuadrature | logic/pulsed/predefined_generate_methods/multi_nv_methods.py:181 | q files are skipped |
| Catalog.ExamplePulses | logic/pulsed/predefined_generate_methods/multi_nv_methods.py:175-198 | the outcomes for the whole listing, in listing order |
| Catalog.KeepAbsentFromKeepsBoth | logic/pulsed/predefined_generate_methods/multi_nv_methods.py:199-206 | as written, two found pulses are both kept against an empty prior catalog |
| Catalog.KeepFirstKeepsFirst | logic/pulsed/predefined_generate_methods/multi_nv_methods.py:199-206 | corrected, of two pulses with the same key only the first is kept |
| Catalog.LoadAsWrittenKeepsDuplicates | logic/pulsed/predefined_generate_methods/multi_nv_methods.py:79-84 | at first initialisation the loader as written keeps two pulses with the same key |
| Catalog.LoadUniqueDropsDuplicates | logic/pulsed/predefined_generate_methods/multi_nv_methods.py:79-84 | the corrected loader keeps only the first of them |
| Generator.MaskMembers | logic/pulsed/predefined_generate_methods/multi_nv_methods.py:2426-2429 | the boolean mask `x[amps != 0]` keeps exactly the values at channels with non-zero amplitude |
| Generator.MaskLength | logic/pulsed/predefined_generate_methods/multi_nv_methods.py:2424-2431 | masking equally long lists by the same amplitudes gives equally long results |
| Generator.KeptAmplitudes | logic/pulsed/predefined_generate_methods/multi_nv_methods.py:2424-2428 | the kept amplitudes are the non-zero ones, and none are kept exactly when all are zero |
| Generator.MaskAllKept | logic/pulsed/predefined_generate_methods/multi_nv_methods.py:2426-2429 | with no zero amplitude, masking changes nothing |
| Generator.PiLengths | logic/pulsed/predefined_generate_methods/multi_nv_methods.py:2426 | one duration per channel, `pi_x_length * rabi_period / 2` |
| Generator.MaskPiLengths | logic/pulsed/predefined_generate_methods/multi_nv_methods.py:2426 | masking the durations equals computing durations of the masked Rabi periods |
| Generator.MaxPiLengths | logic/pulsed/predefined_generate_methods/multi_nv_methods.py:2426 | the longest duration is that of the longest Rabi period |
| Generator.Targets | logic/pulsed/predefined_generate_methods/multi_nv_methods.py:2349-2350 | a scalar `on_nv` is wrapped into a one-element list |
| Generator.PiOc | logic/pulsed/predefined_generate_methods/multi_nv_methods.py:2347-2376 | definition of `_get_pi_oc_element`: ValueError for unequal phases and freqs, TypeError without a target, ValueError when targets and carriers differ in number or some target's lookup does not find exactly one pulse, otherwise the found files assembled into the optimal-pulse request |
| Generator.PiOcAccepts | logic/pulsed/predefined_generate_methods/multi_nv_methods.py:2349-2361 | the optimal pulse is requested exactly when phases, freqs and NV targets are equally long and every target has exactly one catalog entry; `on_nv=None` with equal phases and freqs is a TypeError, every other failure a ValueError |
| Generator.PiOcUsesCatalogPulse | logic/pulsed/predefined_generate_methods/multi_nv_methods.py:2357-2362 | the pulse used for a target is a catalog entry with that key and the only one |
| Generator.PiOcRequestNamesFiles | logic/pulsed/predefined_generate_methods/multi_nv_methods.py:2364-2372 | the request names the base names of the matched files and passes freqs, phases and the scale on |
| Generator.PiOcOnUniqueCatalog | logic/pulsed/predefined_generate_methods/multi_nv_methods.py:2357-2362 | with a catalog of unique keys holding every target, the request succeeds |
| Generator.TwinTargetsFail | logic/pulsed/predefined_generate_methods/multi_nv_methods.py:2357-2361 | two catalog entries with the same key make the lookup fail where one succeeds |
| Generator.DuplicateTargetBlocksOptimalPulse | logic/pulsed/predefined_generate_methods/multi_nv_methods.py:2357-2361 | on the two-pulse listing, the catalog loaded as written makes the optimal pi pulse fail; the corrected catalog lets it succeed |
| Generator.PiElement | logic/pulsed/predefined_generate_methods/multi_nv_methods.py:2408-2448 | definition of `get_pi_element`: the idle substitution, IndexError when Rabi periods or carriers differ in number from the amplitudes, the masks by non-zero amplitude, the empty list for `pi_x_length` 0, then the rectangular element list, the optimal pulse or ValueError by envelope |
| Generator.PiShapeError | logic/pulsed/predefined_generate_methods/multi_nv_methods.py:2419-2429 | IndexError exactly when the Rabi periods or the freqs do not match the amplitudes in length |
| Generator.PiZeroRotation | logic/pulsed/predefined_generate_methods/multi_nv_methods.py:2433-2434 | `pi_x_length == 0` gives the empty element list |
| Generator.PiIdleSubstitution | logic/pulsed/predefined_generate_methods/multi_nv_methods.py:2419-2422 | with `no_amps_2_idle` and all amplitudes zero, the call is the rectangular one with 1e-99 on every channel |
| Generator.PiIdleKeepsDuration | logic/pulsed/predefined_generate_methods/multi_nv_methods.py:2419-2443 | that idle substitute lasts as long as the pi rotation of the longest Rabi period |
| Generator.PiSilentDrop | logic/pulsed/predefined_generate_methods/multi_nv_methods.py:2424-2443 | without `no_amps_2_idle`, all amplitudes zero give the empty element list |
| Generator.PiRectangleDuration | logic/pulsed/predefined_generate_methods/multi_nv_methods.py:2436-2443 | the rectangular pulse lasts `pi_x_length` times half the longest kept Rabi period, and all its elements carry the masked freqs |
| Generator.PiOptimalNeedsCatalog | logic/pulsed/predefined_generate_methods/multi_nv_methods.py:2444-2445 | the optimal envelope succeeds exactly when each kept channel has an NV target with exactly one catalog entry, and then requests the masked freqs |
| Generator.PiOtherEnvelopeRejected | logic/pulsed/predefined_generate_methods/multi_nv_methods.py:2447-2448 | any other envelope raises ValueError |
| Generator.MultMwElement | logic/pulsed/predefined_generate_methods/multi_nv_methods.py:2319-2345 | definition of `get_mult_mw_element`: IndexError for unequal freqs and amps, otherwise the kept channels with one common length and increment through the multi-length element |
| Generator.MultMwElementAccepts | logic/pulsed/predefined_generate_methods/multi_nv_methods.py:2330-2339 | IndexError exactly when freqs and amps differ in length |
| Generator.UniformDuration | logic/pulsed/predefined_generate_methods/multi_nv_methods.py:2333-2345 | channels of one common length and increment give a list whose maximal duration is length + (n_tau − 1) increments |
| Generator.MultMwElementDuration | logic/pulsed/predefined_generate_methods/multi_nv_methods.py:2330-2345 | with some non-zero amplitude: succeeds, lasts length + (n_tau − 1) increments, carries the masked freqs in every element, and only the first element is swept |
| Generator.FindQFiles | logic/pulsed/predefined_generate_methods/multi_nv_methods.py:147-169 | the filtering loop returns exactly the quadrature candidates |
| Generator.SelectMatching | logic/pulsed/predefined_generate_methods/multi_nv_methods.py:136-143 | the selection loop returns exactly the lookup result |
| Generator.MultiNvGenerator.constructor | logic/pulsed/predefined_generate_methods/multi_nv_methods.py:76-88 | the catalog is the corrected load of the listing into an empty catalog: unique keys, every pulse from the listing |
| Generator.MultiNvGenerator.GetOcPulse | logic/pulsed/predefined_generate_methods/multi_nv_methods.py:134-143 | returns the lookup of the key in the current catalog |
| Generator.MultiNvGenerator.PulseFromFile | logic/pulsed/predefined_generate_methods/multi_nv_methods.py:175-198 | one iteration of the load loop: the pulse paired from that file, or none |
| Generator.MultiNvGenerator.LoadOptimalPulsesFromPathAsWritten | logic/pulsed/predefined_generate_methods/multi_nv_methods.py:145-208 | the load loop as written, deduplicating against the catalog as it was before the load |
| Generator.MultiNvGenerator.LoadOptimalPulsesFromPath | logic/pulsed/predefined_generate_methods/multi_nv_methods.py:145-208 | the corrected load loop, deduplicating against the catalog and the pulses already loaded |
| Generator.MultiNvGenerator.GetPiOcElement | logic/pulsed/predefined_generate_methods/multi_nv_methods.py:2347-2376 | the validation and request building of `_get_pi_oc_element` on the current catalog |
| Generator.MultiNvGenerator.GetPiElement | logic/pulsed/predefined_generate_methods/multi_nv_methods.py:2408-2448 | `get_pi_element` on the current catalog, with the partition built on fresh arrays |
| Deer.GetDeerPos | logic/pulsed/predefined_generate_methods/multi_nv_methods.py:960-965 | never first and last together, in-between exactly when neither, first only before and last only after the pi on NV 1 |
| Deer.TauHalfElement | logic/pulsed/predefined_generate_methods/multi_nv_methods.py:967-989 | before the pi on NV 1: the fixed first half exactly at the very first slot, otherwise the swept before-half; after it: the fixed last half exactly at the very last slot, otherwise the swept after-half |
| Deer.DeerDdLoop | logic/pulsed/predefined_generate_methods/multi_nv_methods.py:1084-1098 | the nested order × suborder loop appends exactly the modelled DEER train |
| Deer.DdItemsCounts | logic/pulsed/predefined_generate_methods/multi_nv_methods.py:1084-1098 | the count of each kind in the train laid down so far, before pulse p of order n, at any point of the loop |
| Deer.DeerTrainCounts | logic/pulsed/predefined_generate_methods/multi_nv_methods.py:1084-1098 | the train holds d·s pi pulses on NV 1 and d·s − 1 on NV 2, the end pulse on NV 2 only when requested, one fixed first and one fixed last half, and d·s − 1 swept halves of each kind |
| Deer.PhasePass | logic/pulsed/predefined_generate_methods/multi_nv_methods.py:1087-1098 | generating the train succeeds exactly when every pi pulse's number has an entry in the phase list of its NV, and otherwise fails with IndexError; one generated item per item of the train |
| Deer.PhasePassAt | logic/pulsed/predefined_generate_methods/multi_nv_methods.py:1087-1098 | item by item: halves are kept, a pulse on NV 1 takes the phase of its number in `dd_type`'s list, a pulse or end rotation on NV 2 that in the list given for NV 2 |
| Deer.TrainsAsWritten | logic/pulsed/predefined_generate_methods/multi_nv_methods.py:1084-1130 | definition of the block's trains as written: the first pass with NV 2 phases from `dd_type_2`, the alternating copy with NV 2 phases from `dd_type` |
| Deer.Trains | logic/pulsed/predefined_generate_methods/multi_nv_methods.py:1084-1130 | definition of the corrected trains: the alternating copy repeats the first pass |
| Deer.AlternatingAsWrittenUsesNv1Phases | logic/pulsed/predefined_generate_methods/multi_nv_methods.py:1114-1129 | in the alternating copy as written, every pi pulse and end rotation on NV 2 has `dd_type`'s phase for its pulse number |
| Deer.AlternatingAsWrittenDiffers | logic/pulsed/predefined_generate_methods/multi_nv_methods.py:1093-1129 | order 2, one pulse per order, `dd_type` phases [0], `dd_type_2` phases [90]: the fourth item, the pulse on NV 2, has phase 90 in the first pass and 0 in the alternating copy |
| Deer.CorrectedPassesKeepNv2Phases | logic/pulsed/predefined_generate_methods/multi_nv_methods.py:1084-1130 | in every corrected pass, the alternating copy included, pulses on NV 1 have `dd_type`'s phase and pulses on NV 2 `dd_type_2`'s phase for their pulse number |
| Deer.AsWrittenExactWithoutSecondPattern | logic/pulsed/predefined_generate_methods/multi_nv_methods.py:1006-1007 | when `dd_type_2` is left at its default `dd_type`, the trains as written are the corrected ones |
| Deer.BefAftKeepSpacing | logic/pulsed/predefined_generate_methods/multi_nv_methods.py:1057-1060 | at every sweep step a before-half and an after-half together last the pulse spacing |
| Deer.RejectsAsWritten | logic/pulsed/predefined_generate_methods/multi_nv_methods.py:1065-1067 | definition of the negative-spacing check as written: the maximal duration of the before-half or of the after-half over `num_of_points` steps is negative |
| Deer.AsWrittenChecksLastStep | logic/pulsed/predefined_generate_methods/multi_nv_methods.py:1065-1067 | the check as written looks at each swept half only at the last sweep step |
| Deer.AsWrittenMissesDownwardSweep | logic/pulsed/predefined_generate_methods/multi_nv_methods.py:1058-1067 | spacing 8, tau_start 5, tau_step −1, 3 points: the check passes although the before-half is −1 at the first step |
| Deer.RejectsNegativeSpacing | logic/pulsed/predefined_generate_methods/multi_nv_methods.py:1065-1073 | definition of the corrected check: some swept half is negative at the first or at the last step of the sweep |
| Deer.CorrectedCheckExact | logic/pulsed/predefined_generate_methods/multi_nv_methods.py:1065-1073 | checking both ends of the sweep rejects exactly the settings with a negative half at some step |
| Deer.AsWrittenExactForUpwardSweep | logic/pulsed/predefined_generate_methods/multi_nv_methods.py:1065-1067 | for non-negative tau_start and tau_step the check as written is exact |
| Tomography.InitElements | logic/pulsed/predefined_generate_methods/multi_nv_methods.py:374-416 | the supported initial states give their prepared elements; uy90 on both and the two Bell states raise ValueError |
| Tomography.RotationElements | logic/pulsed/predefined_generate_methods/multi_nv_methods.py:418-428 | none and the two CNOTs are supported; every other rotation raises ValueError |
| Tomography.ReadOutPasses | logic/pulsed/predefined_generate_methods/multi_nv_methods.py:437-452 | the inner loop appends exactly the passes over its NV labels |
| Tomography.AssembleTomographyBlock | logic/pulsed/predefined_generate_methods/multi_nv_methods.py:371-452 | the length check followed by the block loop yields exactly the modelled block |
| Tomography.RoundsAccepts | logic/pulsed/predefined_generate_methods/multi_nv_methods.py:432-452 | the passes of one rotation succeed exactly when there is no label or both its initial state and rotation are supported |
| Tomography.TomoBlock | logic/pulsed/predefined_generate_methods/multi_nv_methods.py:371-452 | definition of the block: ValueError for unequal rotations and initial states, otherwise the passes of every rotation in turn |
| Tomography.TomoBlockAccepts | logic/pulsed/predefined_generate_methods/multi_nv_methods.py:371-428 | the block is built exactly when rotations and initial states are equally many and, unless nothing is read out, every one is supported; else ValueError |
| Tomography.RoundLasers | logic/pulsed/predefined_generate_methods/multi_nv_methods.py:437-452 | a pass reads out once, or twice when alternating |
| Tomography.NumberOfLasers | logic/pulsed/predefined_generate_methods/multi_nv_methods.py:469 | definition of the announced laser count: twice the number of points when alternating, the number of points otherwise |
| Tomography.LaserCountMatchesAnnounced | logic/pulsed/predefined_generate_methods/multi_nv_methods.py:469 | the block holds exactly `number_of_lasers` laser pulses for `num_of_points` as computed at lines 328-332 |
| Tomography.RabiDrive | logic/pulsed/predefined_generate_methods/multi_nv_methods.py:515-526 | the Rabi drive goes on NV 1 or NV 2; any other label raises ValueError |

## Left out

- The element constructors and the block containers of the generator base
  class are not part of this model: `_get_mw_element`, `_get_idle_element`,
  `_get_laser_gate_element`, `_get_delay_gate_element`,
  `_get_multiple_mw_element`, `PulseBlock` and `PulseBlockEnsemble`.
  Elements are a record of (initial length, increment, amps, freqs, phases),
  or an idle record. Blocks are sequences.
- `_add_trigger`, `_get_ensemble_count_length` and `tau_2_pulse_spacing` are
  not modelled. The pulse spacing enters the DEER model as a parameter.
- The bodies of the `generate_*` recipes are left out, except the bookkeeping
  modelled in `Deer` and `Tomography`. They are scripted call sequences over
  the external constructors.
- Deer: the pi pulses inside the DEER train are abstract items (`PiOn1`,
  `PiOn2`, `EndPiOn2`) rather than element lists. The model does not cover the
  initial and read-out pi/2 pulses or the laser read-out. The alternating copy
  of the train (lines 1107-1130) is modelled through the phases of its pi
  pulses: it runs the same loop, but its pulses on NV 2 take their phases from
  `dd_type` (lines 1123, 1129) where the first pass takes them from
  `dd_type_2` (lines 1093, 1098); see Findings.
- Tomography: the prepared pi, pi/2 and CNOT element lists are parameters. The
  CNOT blocks come from `generate_c1not2` and `generate_c2not1`, which are not
  modelled.
- `_get_generation_method` and the external `oc_mw_multi_only` generator are
  foreign calls. `OcRequest` records the carriers, phases, file names and
  amplitude scale that `_get_pi_oc_element` passes to it. The block name
  `'optimal_pix'` and `folder_path` (the generator's assets path) are not
  recorded, and the returned blocks are not modelled.
- The directory listing (`Tk_file.get_dir_items`) and the parameters parsed
  from a file name (`oc_params_from_str`) are inputs. Both are foreign and do
  I/O.
- `Tk_string.filter_str` is taken to keep the names that contain the filter
  string and do not contain the excluded name.
- `get_parent_dir` is taken to return the text before the last `/` or `\`.
  Drive letters and path normalisation are not modelled.
- `Tk_file.get_filename_no_extension` is taken to return the
  `os.path.splitext` root of the base name.
- `csv_2_list` and the float formatting in `list_2_csv` are not modelled.
  Lists of numbers are kept as sequences of reals, and `list_2_csv` is
  modelled on a list of strings.
- Logging and warnings, and the shared-state setters of `rabi_period`,
  `microwave_amplitude`, `microwave_frequency` and
  `optimal_control_assets_path` (lines 95-126), are left out. They write into
  another object's private state.
- `_OLD_get_pi_oc_element` (lines 2378-2406) is left out as legacy code.
- Floating point is not modelled. numpy sums are exact real sums, `np.isnan`
  is the `Phase.Nan` flag, and `1e-15` and `1e-99` are positive constants.
- Elements.ElementLength: numpy's accumulated rounding is not modelled, so
  a list whose increments cancel exactly in reals is accepted.
- Generator.MultiNvGenerator.GetPiElement: it runs the partition on fresh
  arrays. `get_pi_element` hands `_get_multiple_mw_mult_length_element` fresh
  arrays too (masked copies), so no caller data is changed. Aliasing between
  the caller's lists is not modelled.
- Generator.MultiNvGenerator.constructor: it uses the corrected loader. The
  loader as written is kept as
  `Generator.MultiNvGenerator.LoadOptimalPulsesFromPathAsWritten`; see
  Findings.
- ParamArray.Reorder, ParamArray.Isolate: `n_nvs` and `idx_nv` are natural
  numbers. Python does not reject a negative `idx_nv`: the slice bounds
  `idx_nv * len_single_nv` then count from the end, so −1 and any value below
  −`n_nvs` give all zeros, while −k for 2 ≤ k ≤ `n_nvs` keeps chunk
  `n_nvs` − k. Every call site in the file passes 2 for `n_nvs` and 0 or 1 for
  `idx_nv`.
- Python's dynamic argument shapes are modelled as explicit variants:
  - `on_nv` as `None`, a scalar or a list (`NvSelection`);
  - increments as a scalar or a per-channel list (`IncrementArg`);
  - enum values as closed datatypes.
  Other argument types, such as strings where numbers are expected, are left
  out.

## Findings

| source | as written | input that shows it | evidently intended | confidence | as-written member | corrected member |
|---|---|---|---|---|---|---|
| logic/pulsed/predefined_generate_methods/multi_nv_methods.py:199-206 | each loaded pulse is checked only against the catalog as it was before the load (empty at first initialisation, lines 79-84), so two files with the same NV and pi multiple are both kept | a listing `d/xi`, `d/xq`, `d/yi`, `d/yq` (markers `i`/`q`, no parameters): two pulses with the same key are loaded, and every later optimal pi pulse on that key fails with ValueError because the lookup finds two | skip a pulse whose key is already in the catalog or among the pulses loaded so far, as the warning at lines 202-204 says | medium, not executed | Catalog.LoadAsWrittenKeepsDuplicates | Catalog.LoadUniqueSound |
| logic/pulsed/predefined_generate_methods/multi_nv_methods.py:1065-1073 | the negative-spacing check evaluates each swept tau-half only at the last sweep step, but the before-half shrinks as tau grows and the after-half shrinks as tau falls, so a downward sweep can go negative at the first step unnoticed | pulse spacing 8, tau_start 5, tau_step −1, 3 points: the before-half is 8/2 − 5 = −1 at step 0, yet both halves are non-negative at step 2 | reject when either half is negative at any step, which for a linear sweep means checking both the first and the last step | medium, not executed | Deer.AsWrittenMissesDownwardSweep | Deer.CorrectedCheckExact |
| logic/pulsed/predefined_generate_methods/multi_nv_methods.py:1114-1130 | in the alternating copy of the DEER train, the pi pulses and the end rotation on NV 2 take their phases from `dd_type.phases`, while the first pass takes them from `dd_type_2.phases` (lines 1093, 1098) | `dd_order` 2, a one-pulse `dd_type` with phase 0 and a one-pulse `dd_type_2` with phase 90, alternating: the pulse on NV 2 is generated at phase 90 in the first pass and at phase 0 in the alternating copy | the alternating copy repeats the first train, pulses on NV 2 included, and differs only in the read-out rotation | low, not executed | Deer.AlternatingAsWrittenDiffers | Deer.CorrectedPassesKeepNv2Phases |
