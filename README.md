# msbuddy core, modelled in Dafny

msbuddy annotates molecular formulas for mass-spectrometry features. This
project models the bookkeeping core around its machine-learning stages:

- the adduct notation parser (`[M+H-H2O]+`, `[M+2H]2+`, ...) in both versions:
  - the current one in `msbuddy/base.py`;
  - the older one in `msbuddy/base_class.py`.

  This covers the common-adduct table, the style and character checks, and
  abbreviation expansion. It also covers the `m` and charge digits, the
  segmentation into added and lost groups with repeat digits, and the
  12-slot net and loss formulas.
- the 12-slot formula arrays in alphabet order C, H, Br, Cl, F, I, K, N, Na,
  O, P, S. This covers DBE, truthiness, int16 storage in `msbuddy/base.py`
  (the older `Formula` keeps its array as given), the canonical
  serialiser and `read_formula` over an abstract formula parser.
- `Spectrum` construction: the length check, and sorting by m/z that keeps
  intensities paired.
- MS1 isotope picking: the nearest M0 peak, then the isotope steps up to the
  first empty step.
- MS2 preprocessing:
  - de-precursor and relative-intensity denoising;
  - the per-50-Da top-N mask, with ties kept;
  - the global fragment budget;
  - the older fragment cap.
- `MetaFeature`: construction from a nonzero charge, preprocessing gated on
  truthy raw spectra, and the top-5 result summary.
- `MsbuddyConfig` defaulting and validation, and the engine's sequential
  pipeline steps. The engine steps are the m/z filter, batch counting and
  partitioning, the batch write-back, the subformula candidate filter and the
  summary list.
- the `perf_run.py` helpers `parse_formula`, `formula_from_dict` and
  `add_adduct`.

Each module follows one part of the program:

| module | file | models |
|---|---|---|
| `PyStr` | `pystr.dfy` | the Python primitives the model relies on: ASCII `str.replace`, `str.count`, `str.index`, `int(str)` and `str(int)`; the exceptions raised as `Result` errors |
| `Formulas` | `formulas.dfy` | formula arrays and `read_formula` |
| `Sorting` | `sorting.dfy` | `np.argsort`/`np.sort` as insertion sort by key, and the n-th largest value |
| `Spectra` | `spectra.dfy` | `Spectrum` |
| `Segments` | `segments.dfy` | the marker, pairing and repeat loops of `_calc_loss_and_net_formula`, shared by both adduct versions |
| `Adducts` | `adducts.dfy` | the current `Adduct` class, on its specification functions |
| `Legacy` | `legacy.dfy` | the older `Adduct` class, the older MS1 loops `_func_a`/`_func_b` and the older MS2 fragment cap |
| `Ms1` | `ms1.dfy` | `ProcessedMS1`, `_find_m0` and `_find_iso_peaks` |
| `Ms2` | `ms2.dfy` | `ProcessedMS2`, `ms2_denoise` and `_calc_top_n_frag` |
| `Features` | `features.dfy` | `MS2Explanation`, the candidate formula record and `MetaFeature` |
| `Config` | `config.dfy` | `MsbuddyConfig` |
| `Pipeline` | `pipeline.dfy` | the engine class `Msbuddy` and the helpers `_get_batch` and `_gen_subformula` |
| `PerfRun` | `perfrun.dfy` | the `perf_run.py` formula-string helpers |

Wherever the Python objects change fields in place, the model uses classes
with `modifies` frames:

- the two `Adduct` classes;
- the two `ProcessedMS2` classes;
- `MetaFeature`, `MsbuddyConfig` and `Msbuddy`.

Each method is proved against a specification function of the old state. The
loops of the source are `while` loops with invariants. Examples are the
running minimum of `_find_m0`, the marker pop loop, the repeat scan, the
abbreviation table walk, the per-group `bool_arr` update over a Dafny
`array`, and the `perf_run.py` parse, sort and merge loops.

Sometimes the code and its documentation disagree, or the documentation is
silent. Apart from the timeout of `MsbuddyConfig` (see "## Findings"), the
model follows the code in those cases:

- The `_find_m0` docstring does not say which of equally near peaks is
  chosen; the code keeps the last, because it compares with `<=`.
- A bin of tied MS2 intensities keeps more than N peaks.
- On a batch failure, the sequential write-back appends the same feature
  object that the failing stage was working on. A slot therefore holds the
  state that object reached. When preprocessing itself raised, that state is
  the original feature, because preprocessing changes nothing before it
  raises.

## Model

| member | source | states |
|---|---|---|
| Formulas.AlphabetDistinct | msbuddy/base.py:31 | the twelve alphabet symbols are pairwise distinct, so a symbol names one slot |
| Formulas.SubAddInverse | msbuddy/base.py:390-392 | subtracting the lost array from the added array is undone by adding it back, and vice versa |
| Formulas.FalsyIffZero | msbuddy/base.py:57-59 | a formula is falsy exactly when every count is zero |
| Formulas.DbeAdd | msbuddy/base.py:68-76 | the DBE of a sum of two formulas is the sum of their DBEs less 1 |
| Formulas.DbeHalfInteger | msbuddy/base.py:68-76 | twice the DBE is a whole number |
| Formulas.Int16 | msbuddy/base.py:46 | the stored count lies in [-32768, 32767], is congruent to the input modulo 65536, and equals it when it is in range |
| Formulas.MakeFormula | msbuddy/base.py:41-49 | every stored count is the int16 wrap of the given one; in-range arrays are stored unchanged; charge is kept, isotope is 0, DBE comes from the unwrapped array |
| Formulas.SerializeEmptyIffZero | msbuddy/base_class.py:98-113 | the serialisation is the empty string exactly when every count is zero |
| Formulas.SerializeNotNull | msbuddy/base_class.py:98-113 | no array serialises to the text 'Null', so the falsy marker is unambiguous |
| Formulas.FormulaStr | msbuddy/base.py:61-64 | the printed formula is 'Null' exactly when all counts are zero |
| Formulas.FromCounts | msbuddy/base_class.py:85-95 | an array results exactly when every parsed element is in the alphabet; each slot then holds its symbol's parsed count, or 0 if the symbol was not parsed |
| Formulas.FromCountsOfVec | msbuddy/base_class.py:71-95 | reading back the nonzero counts of an array gives the same array |
| Formulas.ReadFormula | msbuddy/base_class.py:71-95 | None when the parser raises or an element is outside the alphabet, otherwise the filled array described by FromCounts |
| Spectra.MakeSpectrum | msbuddy/base.py:95-111 | ValueError exactly when the lengths differ; otherwise the m/z values ascend, both arrays keep their length, and the (m/z, intensity) pairs are a permutation of the input pairs |
| Spectra.MakeSpectrumNonEmpty | msbuddy/base.py:116-120 | equal-length input always builds a spectrum; it is truthy exactly when the input is non-empty, and its length is the input length |
| Spectra.At | msbuddy/base.py:471-481 | the peaks at the given indices are the raw peaks there, with the indices recorded |
| Segments.MarkersUpTo | msbuddy/base.py:303-311 | the scanned sign positions lie in 1 .. n - 1, hold a sign, and increase strictly |
| Segments.MarkersUpToNone | msbuddy/base.py:303-311 | no sign in the scanned range gives no marker |
| Segments.MarkersUpToSingle | msbuddy/base.py:303-311 | a single sign in the scanned range is the only marker |
| Segments.OfSign | msbuddy/base.py:305-308 | each list holds only positions of its own sign, drawn from the markers |
| Segments.OfSignComplete | msbuddy/base.py:305-308 | every marker of a sign is in that sign's list |
| Segments.CollectMarkers | msbuddy/base.py:303-311 | the loop builds exactly the `+` positions and the `-` positions of the scanned range |
| Segments.OneSignIffListEmpty | msbuddy/base.py:314 | the pairing loop stops, with markers left, exactly when one sign list is empty; both are empty exactly when there is no marker |
| Segments.PopFacts | msbuddy/base.py:315-332 | the first marker heads its own list and precedes the other list's head; after it is removed, the next marker is the nearer of its own list's next entry and the other head |
| Segments.PopGroup | msbuddy/base.py:315-332 | one round of the loop takes the slice from the first marker to the next one, tags it by its sign, and removes that marker from its list |
| Segments.Segment | msbuddy/base.py:313-341 | no marker gives the fallback; otherwise the added and lost texts are the segmentation of the markers up to `]` |
| Segments.SegGroupsStartWithSign | msbuddy/base.py:313-341 | the added text starts with `+` and the lost text with `-` (or is empty) |
| Segments.ExpandRepeats | msbuddy/base.py:343-365 | the repeat loop over a group text gives the result of the loop's specification, including its IndexError and fallback cases |
| Segments.RepeatText | msbuddy/base.py:352-356 | collects the text up to the next sign |
| Segments.ScanWithoutSign | msbuddy/base.py:343-365 | once no sign is left to visit, the result is the current text plus the collected repeats, blanks removed |
| Segments.RepeatedGroup | msbuddy/base.py:343-388 | a single group `sign digit text` stands for max(digit, 2) copies of its text once the signs are removed |
| Segments.RepeatTimes | msbuddy/base.py:357-358 | the text plus its repeats is max(t, 2) copies of it |
| Segments.TwoLostGroups | msbuddy/base.py:344-365 | in a lost text with two repeated groups, both repeat digits take effect |
| Segments.TwoAddedGroups | msbuddy/base.py:367-388 | in an added text with two repeated groups, the second repeat digit is skipped because the first deletion shifts the text |
| Segments.TwoAddedGroupsIndexError | msbuddy/base.py:372 | an added text ending in a second repeat digit reads past its end (IndexError) |
| Adducts.Default | msbuddy/base.py:204-216 | the fallback adduct keeps the ion mode and has m = 1; positive mode gives `[M+H]+` with charge +1, net H and no loss; negative mode gives `[M-H]-` with charge -1, loss H and net -H, the negated loss |
| Adducts.Invalid | msbuddy/base.py:200-216 | with report_invalid the result is ValueError and nothing else; without it, the fallback adduct of the mode |
| Adducts.Common | msbuddy/base.py:218-254 | a table hit keeps the string and the mode, has m = 1 and the mode's unit charge |
| Adducts.CommonWaterLossPositive | msbuddy/base.py:219-237 | `[M+H-H2O]+` is a table entry with charge +1, m = 1, loss H2O and net H-1 O-1, the added H less the loss |
| Adducts.CommonWaterLossNegative | msbuddy/base.py:238-253 | `[M-H2O-H]-` is a table entry with charge -1, m = 1, loss H3O and net H-3 O-1, the negated loss |
| Adducts.CharacterCheckMeaning | msbuddy/base.py:180-197 | the greedy scan accepts a segment exactly when every character is a one-character entry, a digit, or half of Br, Cl or Na |
| Adducts.GreedyIffLocal | msbuddy/base.py:187-197 | the same equivalence from any position that does not split a two-letter element |
| Adducts.CharSegment | msbuddy/base.py:183-185 | ValueError exactly when the string lacks `M` or `]` |
| Adducts.CalcM | msbuddy/base.py:270-276 | ValueError exactly when there is no `M`; otherwise m is a digit value or 1 |
| Adducts.CheckAdductIsStyle | msbuddy/base.py:398-415 | check_adduct accepts a string with a mode exactly when the constructor's style check passes for that mode; an invalid string never reports positive mode |
| Adducts.CommonFirst | msbuddy/base.py:152-153 | a table entry is the result whatever the strict flag and formula reader |
| Adducts.NoInputIsDefault | msbuddy/base.py:145-146 | no adduct string gives `[M+H]+` or `[M-H]-` |
| Adducts.CheckFailureIsInvalid | msbuddy/base.py:154-163 | a failed style or character check gives the invalid outcome |
| Adducts.SegmentationFallbackIgnoresStrict | msbuddy/base.py:333-335 | a string with no sign marker falls back to the default adduct even with report_invalid set |
| Adducts.ParsedRuleShape | msbuddy/base.py:137-163 | a parsed adduct keeps its mode; off the table and not the fallback, its string is the expanded one and its formulas are the segmentation's |
| Adducts.ExpandedShape | msbuddy/base.py:156-159 | the same for the general path on an expanded string |
| Adducts.ExchangePlain | msbuddy/base.py:279-292 | a string without the letters of any abbreviation is left unchanged |
| Adducts.ExchangeOneFA | msbuddy/base.py:283 | one "FA" among plain text becomes "HCOOH" |
| Adducts.ExchangeOneDmso | msbuddy/base.py:282 | one "DMSO" among plain text becomes "C2H6OS" |
| Adducts.FaShadowsHfaAndTfa | msbuddy/base.py:283-291 | "FA" is replaced first, so "HFA" becomes "HHCOOH" and "TFA" becomes "THCOOH": neither longer abbreviation is ever matched, and CF3COOH is never produced |
| Adducts.TfaFallsBack | msbuddy/base.py:154-163 | `[M+TFA]+` fails the character check and gives the invalid outcome |
| Adducts.DmsoLosesM | msbuddy/base.py:155-158 | `[DMSO+H]+` loses its only `M` during expansion, so the constructor raises ValueError |
| Adducts.BareMFallsBack | msbuddy/base.py:333-335 | `[M]+` has no marker and falls back to `[M+H]+` |
| Adducts.CommonAfterStripping | msbuddy/base.py:148 | `[M + H]+` is matched against the table after its spaces are removed |
| Adducts.DoubleProton | msbuddy/base.py:137-395 | `[M+2H]2+` has charge 2, m 1, net H2 and an empty loss |
| Adducts.PlainPath | msbuddy/base.py:152-159 | off the table with a valid style, the constructor is the general path on the expanded string |
| Adducts.SplitGroups | msbuddy/base.py:303-341 | the marker and pairing loops give the groups of the specification |
| Adducts.NetFromParts | msbuddy/base.py:343-395 | the repeat loops and the formula reading give the net outcome of the specification |
| Adducts.Adduct.Init | msbuddy/base.py:145-150 | the string is the input without spaces (or the mode's default string), the mode is kept, other fields hold placeholders |
| Adducts.Adduct.Make | msbuddy/base.py:137-163 | the constructor raises exactly where the specification does, with the same exception; otherwise the new object's state is the parsed adduct |
| Adducts.Adduct.ParseGeneral | msbuddy/base.py:154-161 | the general path on the object raises or sets the state as the specification does |
| Adducts.Adduct.CheckCommon | msbuddy/base.py:218-254 | reports a table hit exactly when there is one, sets the entry's fields on a hit and changes nothing otherwise |
| Adducts.Adduct.CheckValidStyle | msbuddy/base.py:168-177 | true exactly when the style rule holds for the string and mode |
| Adducts.Adduct.ExchangeNames | msbuddy/base.py:279-292 | the string becomes its expansion; every other field is unchanged |
| Adducts.Adduct.CheckValidCharacter | msbuddy/base.py:180-197 | the loop computes the character check, including its ValueError |
| Adducts.Adduct.MarkInvalid | msbuddy/base.py:200-216 | raises exactly in strict mode, leaving the state alone; otherwise sets the fallback adduct of the mode |
| Adducts.Adduct.ComputeM | msbuddy/base.py:270-276 | raises exactly when there is no `M`; otherwise sets only m |
| Adducts.Adduct.ComputeCharge | msbuddy/base.py:256-268 | raises exactly when the charge computation does; otherwise sets only the charge |
| Adducts.Adduct.ComputeLossAndNet | msbuddy/base.py:294-395 | raises as the specification does; without markers sets the fallback; otherwise sets only the net and loss formulas |
| Legacy.ExchangeExtendsLegacy | msbuddy/base_class.py:284-296 | the newer expansion is the older one followed by the remaining replacements |
| Legacy.ExchangeIsLegacyThenMeOH | msbuddy/base_class.py:284-296 | the newer expansion is the older one plus the MeOH replacement the older code lacks |
| Legacy.LegacyCharsValid | msbuddy/base_class.py:192-197 | raises exactly where the newer character check raises (no `M` or no `]`) |
| Legacy.LegacyCharsStricter | msbuddy/base_class.py:192-197 | a segment the older per-character check accepts is accepted by the newer check too |
| Legacy.SecondLetterRejected | msbuddy/base_class.py:192-197 | a segment holding one of the letters a, l, r (as in Na, Cl, Br) is rejected by the older check |
| Legacy.LegacyCharge | msbuddy/base_class.py:253-269 | the charge is one digit: 0 .. 9 in positive mode, -9 .. 0 in negative mode; `]` or a non-digit before the sign gives the unit charge |
| Legacy.LegacyChargeAgreesUnit | msbuddy/base_class.py:253-269 | for `...]+` or `...]-` the older charge equals the newer one |
| Legacy.LegacyChargeAgreesDigit | msbuddy/base_class.py:253-269 | for one digit between `]` and the sign the older charge equals the newer one |
| Legacy.LegacyMAgrees | msbuddy/base_class.py:271-281 | with an `M` present, the older m is the newer m, kept as the digit character when there is one |
| Legacy.LegacyStyleFallback | msbuddy/base_class.py:166-178 | a failed style check always gives the default adduct: the older code has no strict mode |
| Legacy.LegacyTableAfterExchange | msbuddy/base_class.py:166-169 | the older code looks up the table after the expansion |
| Legacy.LegacySecondLetterFallback | msbuddy/base_class.py:170-176 | an adduct naming Na, Cl or Br off the table falls back to the default |
| Legacy.LegacyParsedShape | msbuddy/base_class.py:152-178 | a parsed older adduct keeps its mode and has a one-digit charge of the mode's sign |
| Legacy.GeneralShape | msbuddy/base_class.py:168-176 | the same for the steps after the table lookup |
| Legacy.LegacyAdduct.Init | msbuddy/base_class.py:159-164 | the string is the input without spaces (or the mode's default), the mode is kept, other fields hold placeholders |
| Legacy.LegacyAdduct.Make | msbuddy/base_class.py:152-178 | the older constructor raises exactly where its specification does; otherwise the new object's state is the parsed adduct, whose formulas hold the arrays as read, with no int16 wrap |
| Legacy.LegacyAdduct.ParseGeneral | msbuddy/base_class.py:168-176 | the steps after the style check, on the object, agree with the specification, whose formulas are the older non-wrapping ones |
| Legacy.LegacyAdduct.ExchangeNames | msbuddy/base_class.py:284-296 | the string becomes the older expansion; every other field is unchanged |
| Legacy.LegacyAdduct.CheckCommon | msbuddy/base_class.py:215-251 | reports a table hit exactly when there is one and sets its entry; otherwise changes nothing |
| Legacy.LegacyAdduct.MarkInvalid | msbuddy/base_class.py:200-213 | sets the default adduct of the mode |
| Legacy.LegacyAdduct.CheckValidCharacter | msbuddy/base_class.py:192-197 | the loop computes the older character check |
| Legacy.LegacyAdduct.ComputeM | msbuddy/base_class.py:271-281 | sets only m, to the older m |
| Legacy.LegacyAdduct.ComputeCharge | msbuddy/base_class.py:253-269 | sets only the charge, to the older charge |
| Legacy.LegacyAdduct.ComputeLossAndNet | msbuddy/base_class.py:298-400 | raises as the segmentation does; without markers sets the default; otherwise sets only the two formulas, as the older `Formula` stores them, unwrapped |
| Legacy.LegacyNetFromParts | msbuddy/base_class.py:348-400 | the repeat loops and the older formula reading give the net outcome of the older specification, with unwrapped formulas |
| Legacy.LegacyNeutral | msbuddy/base_class.py:19-26 | the older `Formula(array, 0)` keeps the array as given, with isotope 0 and the same DBE; its int16 wrap is the newer formula, and within the int16 range the two are equal |
| Legacy.LegacyNetWraps | msbuddy/base_class.py:298-400 | the older net computation has the newer one's outcome on the same reader (fallback, error or success); on success the newer formulas are the int16 storage of the older arrays |
| Legacy.LegacyPartsWrap | msbuddy/base_class.py:395-399 | the same after the group loop: the formulas built from the two arrays differ only by the int16 wrap |
| Legacy.LegacyKeepsLargeCounts | msbuddy/base_class.py:24 | an array with 40000 carbons keeps them in the older formula, while the newer formula holds -25536 |
| Legacy.LegacyProcessMs1 | msbuddy/base_class.py:411-507 | an empty raw spectrum gives no peaks; no peak in the window leaves the arrays unset; charge 0 raises ZeroDivisionError once isotopes are sought; otherwise M0 is the nearest in-window peak (the last of equally near ones) and the isotope indices are those of the isotope search |
| Legacy.LegacyTopNFrag | msbuddy/base_class.py:652-668 | the budget never exceeds max_frag_reserved; 10 .. 90 below m/z 1000, 1 .. 10 up to 1450, 0 below 1550 and negative from there |
| Legacy.LegacyCapKeepsTies | msbuddy/base_class.py:568-575 | a positive budget keeps exactly the peaks reaching the n-th largest intensity: at least n peaks, fewer than n above it, in raw order |
| Legacy.LegacyCapZeroBudget | msbuddy/base_class.py:568-575 | a zero budget keeps every peak |
| Legacy.LegacyCapNegativeBudget | msbuddy/base_class.py:568-575 | a negative budget raises IndexError exactly when there are at most -n peaks |
| Legacy.LegacyMs2PreprocessFacts | msbuddy/base_class.py:543-575 | every surviving peak is a raw peak below the de-precursor bound, in raw order |
| Legacy.LegacyDenoiseFacts | msbuddy/base_class.py:563-565 | denoising keeps raw order and only drops peaks |
| Legacy.LegacyCapFacts | msbuddy/base_class.py:567-575 | the cap keeps raw order and only drops peaks |
| Legacy.LegacyProcessedMs2.Empty | msbuddy/base_class.py:529-532 | an empty raw spectrum leaves no peaks |
| Legacy.LegacyProcessedMs2.Make | msbuddy/base_class.py:518-575 | the object holds the preprocessed peaks; it raises IndexError exactly where the cap does |
| Legacy.LegacyProcessedMs2.Deprecursor | msbuddy/base_class.py:624-638 | the peaks become the raw peaks below precursor m/z - 1.5 - tolerance |
| Legacy.LegacyProcessedMs2.Denoise | msbuddy/base_class.py:577-622 | the peaks become the denoised peaks of the chosen threshold |
| Legacy.LegacyProcessedMs2.CapTopN | msbuddy/base_class.py:567-575 | raises IndexError exactly where the cap does; otherwise the peaks become the capped peaks |
| Ms1.M0ScanCharacterization | msbuddy/base.py:484-500 | M0 is found exactly when some peak lies in the window; the chosen peak is at minimal distance and is the last peak at that distance; with none found the index is 0 |
| Ms1.FindM0 | msbuddy/base.py:484-500 | the running-minimum loop computes that scan: found iff a peak is in the window, the index of the nearest such peak, the last one on ties |
| Ms1.Hits | msbuddy/base.py:519-522 | the recorded indices ascend and are exactly the peaks within the bin tolerance of the step centre |
| Ms1.CenterNext | msbuddy/base.py:516-517 | each isotope step moves the centre by one spacing |
| Ms1.IsoStepsSound | msbuddy/base.py:516-525 | every recorded isotope index lies within the bin tolerance of some step centre |
| Ms1.IsoStepsComplete | msbuddy/base.py:516-525 | every peak within tolerance of a step reached before the first empty step is recorded |
| Ms1.StepPeaks | msbuddy/base.py:518-522 | the inner loop records the hits of one step |
| Ms1.FindIsoPeaks | msbuddy/base.py:503-525 | ZeroDivisionError exactly when a step is taken with charge 0; otherwise the isotope indices of the steps 1 .. K - 1 (none when K < 2) |
| Ms1.ProcessMs1 | msbuddy/base.py:428-481 | no peaks for an empty raw spectrum or when no peak is within the window; otherwise M0 (the nearest, last on ties) followed by the isotope indices, every peak taken from the raw spectrum at its index; ZeroDivisionError exactly for charge 0 with a step to take |
| Ms2.Where | msbuddy/base.py:624 | the positions of the true entries of a mask, ascending |
| Ms2.SelectFacts | msbuddy/base.py:607-610 | selecting by a mask keeps raw order and keeps a peak exactly when its mask entry is true |
| Ms2.DeprecursorFacts | msbuddy/base.py:612-626 | the surviving raw indices ascend and are exactly the peaks with m/z below precursor - 1.5 - tolerance |
| Ms2.MaxOf | msbuddy/base.py:601-604 | the last entry of the ascending intensities is the maximum and is one of them |
| Ms2.DenoiseFacts | msbuddy/base.py:593-610 | denoising keeps raw order and only peaks with intensity at least cutoff times the maximum |
| Ms2.BinIdx | msbuddy/base.py:659-663 | the positions of a 50-Da bin are exactly the peaks whose m/z floor-divided by 50 is that bin |
| Ms2.Ms2DenoiseCrowded | msbuddy/base.py:662-666 | in a bin with more than N peaks, a peak is kept exactly when it reaches the N-th largest intensity of the bin; at least N peaks reach it and fewer than N exceed it |
| Ms2.Ms2DenoiseOrder | msbuddy/base.py:662-666 | a bin with at most N peaks keeps all of them; a dropped peak is weaker than every kept peak of its bin |
| Ms2.Ms2DenoiseUniform | msbuddy/base.py:655-668 | peaks of equal intensity are all kept |
| Ms2.Ms2DenoiseTiesExceedCap | msbuddy/base.py:662-666 | three tied peaks in one bin with N = 2 are all kept, so a bin can keep more than N peaks |
| Ms2.TopNFrag | msbuddy/base.py:671-679 | the global budget is at least 20 for a non-negative precursor m/z |
| Ms2.KeepTopNFacts | msbuddy/base.py:628-640 | the per-bin cap keeps raw order and only drops peaks |
| Ms2.GlobalCapFacts | msbuddy/base.py:584-591 | the global cap keeps raw order and only drops peaks |
| Ms2.GlobalCapKeepsTies | msbuddy/base.py:583-591 | with at most `int(20 + 0.05·mz)` peaks the global cap keeps all; with more, a peak is kept exactly when its intensity reaches the n-th largest, so at least n peaks are kept and fewer than n lie above the threshold |
| Ms2.Ms2PreprocessFacts | msbuddy/base.py:560-591 | the surviving raw indices ascend, every surviving m/z is below the de-precursor bound, and every surviving intensity reaches the relative cutoff of the de-precursored maximum |
| Ms2.ProcessedMs2.constructor | msbuddy/base.py:538-549 | the object holds the preprocessed peaks, none for an empty raw spectrum |
| Ms2.ProcessedMs2.Preprocess | msbuddy/base.py:560-591 | the stages in turn, each after the first only on a non-empty list, give the preprocessed peaks; the tolerance is unchanged |
| Ms2.ProcessedMs2.Deprecursor | msbuddy/base.py:612-626 | the peaks become the raw peaks below the de-precursor bound |
| Ms2.ProcessedMs2.Denoise | msbuddy/base.py:593-610 | the peaks become those reaching cutoff times the maximum |
| Ms2.ProcessedMs2.KeepTopN | msbuddy/base.py:628-640 | the peaks become the per-bin selection, or stay as they are when N <= 1 |
| Ms2.ProcessedMs2.CapTopNFrag | msbuddy/base.py:583-591 | the peaks become the globally capped selection |
| Ms2.MarkBin | msbuddy/base.py:665-666 | the mask entries of one bin become "intensity reaches the threshold"; the others are unchanged |
| Ms2.Ms2Denoise | msbuddy/base.py:655-668 | the per-group loop computes the per-bin mask |
| Sorting.Insert | msbuddy/base.py:109 | inserting into an ascending list keeps it ascending and adds exactly the new element |
| Sorting.SortBy | msbuddy/base.py:109-111 | the ascending order by a key is sorted and a permutation of its input (`np.argsort`, `np.sort`) |
| Sorting.CountIfMultiset | msbuddy/base.py:665 | a count over a list is the same over any permutation of it |
| Sorting.NthLargestReached | msbuddy/base.py:665-666 | at least n entries reach the n-th largest value (`np.sort(...)[-n]`) |
| Sorting.NthLargestExceeded | msbuddy/base.py:665-666 | fewer than n entries exceed the n-th largest value |
| Sorting.NthLargestUnique | msbuddy/base.py:665-666 | a value that at least n entries reach and fewer than n exceed is the n-th largest |
| Sorting.NthLargestIn | msbuddy/base.py:665 | the n-th largest value is one of the entries |
| Features.NewFeature | msbuddy/base.py:747-778 | charge 0 raises ValueError; otherwise the adduct is parsed in the mode of the charge's sign without report_invalid, any exception it raises is raised, and the feature keeps the identifier, m/z, retention time and raw spectra with nothing processed or annotated yet |
| Features.PreprocessFacts | msbuddy/base.py:788-809 | only the two processed fields change; a raw spectrum that is truthy gets processed and one that is not leaves its field alone; the only exception is ZeroDivisionError from MS1 picking with charge 0, which leaves the feature unchanged; MS1 peaks come from the raw MS1 spectrum; MS2 peaks come from the raw MS2 spectrum in raw order, below the de-precursor bound |
| Features.PreprocessRaisedKeeps | msbuddy/base.py:803-806 | a preprocessing that raises leaves the feature unchanged |
| Features.Ms1ResultFacts | msbuddy/base.py:804-806 | MS1 picking raises only ZeroDivisionError, and only for charge 0; its peaks are drawn from the raw MS1 spectrum |
| Features.Summarize | msbuddy/base.py:811-822 | the summary copies the identifier, m/z, retention time and adduct string, has five rank slots, and its FDR is the first candidate's when there is one |
| Features.SummarizeRank | msbuddy/base.py:820-830 | rank slot i is filled exactly when there are more than i candidates, with the serialised formula of candidate i |
| Features.MetaFeature.Init | msbuddy/base.py:767-778 | the object holds the given fields and no processed data or candidates |
| Features.MetaFeature.Make | msbuddy/base.py:747-778 | the constructor raises exactly where NewFeature does, with the same exception; otherwise the new object holds NewFeature's value |
| Features.MetaFeature.DataPreprocess | msbuddy/base.py:788-809 | the object's new state and the raised exception are those of the preprocessing specification |
| Config.Preset | msbuddy/main.py:93-109 | no instrument keeps the user's tolerances; orbitrap, fticr and qtof give their ppm presets (5/10, 2/5, 10/20); any other name raises ValueError, and only then |
| Config.CpuCount | msbuddy/main.py:113-118 | the worker count is always between 1 and the machine's CPU count; a requested count in that range is kept, any other becomes the CPU count |
| Config.TimeoutAsWrittenKeepsNonPositive | msbuddy/main.py:120-125 | as written, a non-positive timeout survives: -5 seconds stays -5 in sequential mode, and in parallel mode it never exceeds 30 |
| Config.TimeoutCorrected | msbuddy/main.py:120-125 | the corrected timeout is always positive: a positive value is kept, a non-positive one becomes 300, and parallel mode adds 30 seconds |
| Config.BatchSize | msbuddy/main.py:127-131 | the batch size is at least 2: a size above 1 is kept, any other becomes 1000 |
| Config.IsotopeBin | msbuddy/main.py:148-152 | the isotope bin tolerance is positive: a positive value is kept, any other becomes 0.02 |
| Config.MaxIsotopeCount | msbuddy/main.py:154-158 | the maximum isotope count is at least 1: a value of 1 or more is kept, any other becomes 4 |
| Config.RelCutoff | msbuddy/main.py:160-164 | the relative denoise cutoff lies in [0, 1): a value in that range is kept, any other becomes 0 |
| Config.TopNPer50Da | msbuddy/main.py:166-170 | the number of fragments kept per 50 Da is at least 1: a value of 1 or more is kept, any other becomes 6 |
| Config.ElementBoundsFacts | msbuddy/main.py:133-139 | each bound array holds the user's element ranges, as int16, in alphabet order; the K and Na slots are 0; without halogens the Br, Cl, F and I slots are 0, with halogens they hold the user's ranges |
| Config.ConfigureFacts | msbuddy/main.py:45-170 | construction raises ValueError exactly for an unknown instrument or for bounds with a negative entry or a lower above its upper; otherwise every parameter is in range (the timeout being the corrected one of the Findings row), the tolerances are the preset's and the database mode is 1 exactly with halogens |
| Config.DefaultConfig | msbuddy/main.py:45-67 | the keyword defaults construct: ppm tolerances 5 and 10, database mode 0, all CPUs, a 300-second timeout, batches of 1000, at most 80 carbons and no bromine |
| Config.DefaultBounds | msbuddy/main.py:55-64 | the default element ranges pass the bounds check |
| Config.SmallBoundsValid | msbuddy/main.py:133-145 | without halogens, ranges with 0 <= lower <= upper < 32768 always pass the bounds check and keep their upper values |
| Config.MsbuddyConfig.Make | msbuddy/main.py:45-170 | the constructor fails with ValueError exactly when the configuration function does, and otherwise yields a fresh object holding that configuration, with the corrected timeout |
| Config.MsbuddyConfig.SetTolerances | msbuddy/main.py:93-109 | the instrument step succeeds exactly when the preset does, and then stores the preset's tolerances |
| Config.MsbuddyConfig.SetRuntime | msbuddy/main.py:111-131 | the runtime step stores the database mode, the parallel flag, the worker count, the corrected timeout and the batch size, and leaves the tolerances alone |
| Config.MsbuddyConfig.SetBounds | msbuddy/main.py:133-145 | the bounds step stores both bound arrays, reports whether they are valid and changes nothing else |
| Config.MsbuddyConfig.SetSpectrumParams | msbuddy/main.py:147-170 | the spectrum step stores the four defaulted spectrum parameters and changes nothing else |
| Pipeline.FilterMz | msbuddy/main.py:360-362 | the filtered list is no longer than the input, and each of its features comes from the input with a precursor m/z strictly between 1 and 1500 |
| Pipeline.FilterMzKeeps | msbuddy/main.py:360-362 | every input feature whose m/z lies strictly between 1 and 1500 survives the filter |
| Pipeline.FilterMzConcat | msbuddy/main.py:362 | filtering a concatenation gives the concatenation of the filtered parts, so the filter keeps the input order |
| Pipeline.FilterMzSingle | msbuddy/main.py:362 | a single feature is kept exactly when its m/z is in range |
| Pipeline.BatchCount | msbuddy/main.py:377 | the number of batches is the ceiling of the list length over the batch size: enough batches to hold the list, and one fewer would not be enough |
| Pipeline.BatchesContiguous | msbuddy/main.py:475-485 | the batches of a non-empty list start at 0, end at its length, each one starts where the previous one ends, and none is empty |
| Pipeline.BatchesCover | msbuddy/main.py:475-485 | every index of the list falls in exactly one batch |
| Pipeline.WriteBackFacts | msbuddy/main.py:245-279 | writing a batch back keeps the list length, leaves every feature outside the batch unchanged, puts each batch feature's new state in its own slot, and leaves a feature whose preprocessing raised as it was |
| Pipeline.BatchRaisedKept | msbuddy/main.py:271-276 | a feature whose preprocessing raises reaches the batch result unchanged |
| Pipeline.SpliceSlots | msbuddy/main.py:279 | the slice assignment used for the write-back keeps the length, leaves the other slots alone and puts the new list in the batch's slots |
| Pipeline.MinPositive | msbuddy/main.py:532 | the minimum count is positive exactly when every count is |
| Pipeline.FilterExplainedKeepsAll | msbuddy/main.py:532-533 | when every candidate explains a peak, the filter keeps every candidate |
| Pipeline.GenSubformulaFacts | msbuddy/main.py:509-535 | a feature without processed MS2 peaks or without candidates is returned unchanged; otherwise a success returns exactly the assigned feature, and an error happens exactly when the assignment leaves no candidate list or an empty one |
| Pipeline.SubformulaBatchFacts | msbuddy/main.py:304-311 | the sequential subformula loop succeeds exactly when every feature's assignment does, and then yields their results in order; otherwise it raises the first feature's error, all earlier features having succeeded |
| Pipeline.SubformulaErrExtends | msbuddy/main.py:306-308 | once a prefix of the batch raises, the whole batch raises the same error |
| Pipeline.Msbuddy.constructor | msbuddy/main.py:186-199 | a new engine holds the given configuration and no data |
| Pipeline.Msbuddy.AnnotatePrepare | msbuddy/main.py:355-381 | the data becomes its m/z-filtered list; missing data raises TypeError, an empty filtered list ValueError, and otherwise the number of batches is returned; the configuration is unchanged |
| Pipeline.Msbuddy.PreprocessAndGenerate | msbuddy/main.py:227-279 | missing data raises TypeError and changes nothing; otherwise the batch's slots are replaced by the states after preprocessing and candidate generation, and the configuration is unchanged |
| Pipeline.Msbuddy.AssignSubformula | msbuddy/main.py:282-311 | missing data raises TypeError; a raising feature aborts the loop with its exception before the slice write-back, so the list itself is not reassigned; otherwise the batch's slots are replaced, one new feature per old one, in order; the configuration is unchanged |
| Pipeline.Msbuddy.GetSummary | msbuddy/main.py:408-420 | missing or empty data raises ValueError; otherwise the result holds one summary per feature, in order |
| PerfRun.DigitRun | perf_run.py:19 | the digit run is the longest prefix made of digits |
| PerfRun.AccumulateSums | perf_run.py:18-22 | accumulating tokens into a default-dict holds a key exactly when it was there before or some token names it, and then holds the old count plus the sum of its tokens' counts |
| PerfRun.ParsedCountsMeaning | perf_run.py:14-22 | the parsed dictionary holds exactly the symbols the regular expression matches, each with the sum of its counts, where an empty count reads as 1 |
| PerfRun.TokensSkip | perf_run.py:19 | a leading character that is not an upper-case letter is skipped by the match |
| PerfRun.ParseFormula | perf_run.py:14-22 | the character-by-character scan computes the parsed dictionary |
| PerfRun.ScanDigits | perf_run.py:19-21 | the digit scan stops at the first non-digit and returns the decimal value of the digits it passed |
| PerfRun.LexTotal | perf_run.py:29 | string comparison is total |
| PerfRun.LexReflexive | perf_run.py:29 | string comparison is reflexive |
| PerfRun.LexAntisymmetric | perf_run.py:29 | string comparison is antisymmetric |
| PerfRun.LexTransitive | perf_run.py:29 | string comparison is transitive |
| PerfRun.LeastExists | perf_run.py:29 | every non-empty set of keys has a least element |
| PerfRun.LeastUnique | perf_run.py:29 | the least key is unique |
| PerfRun.SortedKeys | perf_run.py:29 | the sorted key list has as many entries as the key set |
| PerfRun.SortedKeysMembers | perf_run.py:29 | the sorted key list holds exactly the dictionary's keys |
| PerfRun.SortedKeysOrdered | perf_run.py:29 | the sorted key list is strictly ascending |
| PerfRun.SortedKeysDistinct | perf_run.py:29 | the sorted key list has no repeats |
| PerfRun.FormulaFromDict | perf_run.py:24-31 | the loop computes the formula string: the keys in ascending order, each followed by its count when the count exceeds 1 |
| PerfRun.RoundTrip | perf_run.py:14-31 | parsing the formula string of a dictionary of element symbols with positive counts gives the dictionary back |
| PerfRun.ZeroCountReadsAsOne | perf_run.py:21-30 | a zero count is written without digits and so parses back as 1: H with count 0 becomes "H", which parses as one H |
| PerfRun.MergeStep | perf_run.py:45-46 | adding one more adduct element to the merge adds its count to the formula's |
| PerfRun.MergeNone | perf_run.py:45-46 | merging nothing leaves the formula's counts |
| PerfRun.MergeAll | perf_run.py:45-46 | merging every adduct key gives the full merge |
| PerfRun.AddCounts | perf_run.py:45-46 | the loop adds the adduct's counts to the formula's counts, key by key |
| PerfRun.AddAdduct | perf_run.py:33-51 | the result is the formula string of the merged parsed counts |
| PerfRun.ParsedCH4 | perf_run.py:53 | "CH4" parses as one C and four H |
| PerfRun.ParsedH | perf_run.py:53 | "H" parses as one H |
| PerfRun.FromDictCH5 | perf_run.py:53 | one C and five H are written "CH5" |
| PerfRun.MergeCH4H | perf_run.py:53 | merging one H into CH4 gives one C and five H |
| PerfRun.AddAdductExample | perf_run.py:53 | adding the adduct "H" to "CH4" gives "CH5" |

## Left out

- `read_formula` of `msbuddy/base.py` comes from `msbuddy.utils`, which is not part of this model. It is the function parameter `rf` from a formula string to an optional 12-slot array. The `chemparse` parser behind the older `read_formula` is also not part of this model; it is the parameter `parse`.
- The older `read_formula` fills a NumPy `int` array (64-bit); the model's counts are unbounded integers there, so an overflow past 64 bits is not modelled.
- Float32 mass arithmetic is left out: `calc_formula_mass`, the m/z expression of `mz_to_formula` and `mass_to_formula`. m/z and intensities are exact `real`s and no rounding is modelled.
- `normalize_intensity` is left out, because it only rescales floats.
- `np.ceil` and `int()` on reals are exact (`Trunc`, `BatchCount`).
- Formula counts of `msbuddy/base.py` are stored as int16 (the older `Formula` of `msbuddy/base_class.py` keeps its array as given; `Legacy.LegacyNeutral`). The model writes the wrap-around out explicitly (`Formulas.Int16`). Element bounds use the same wrap, which is what NumPy 1.x does when it stores an out-of-range Python int in an int16 array; NumPy 2 raises OverflowError there instead, and the model does not capture that.
- The older noise-level denoise branch computes a mean and a standard deviation over floats. It is the parameter `NoiseLevel(level)`, the threshold that branch computes; the relative-intensity branch is modelled.
- Sorting.SortBy: `np.argsort` with its default algorithm leaves the order of equal keys unspecified. The insertion sort of the model keeps them in input order, and its contract states only sortedness and permutation.
- `str.isdigit` and `str.isnumeric` are modelled on ASCII digits only. Python also accepts other Unicode digits.
- Legacy.LegacyCharge: requires a non-empty adduct string. Python would raise IndexError on an empty one, but the older constructor only reaches this step after the style check, which needs `M`, `[`, `]` and a sign.
- Legacy.LegacyM: requires a non-empty adduct string, for the same reason.
- Legacy.LegacyAdduct.ComputeM: requires a non-empty adduct string, for the same reason.
- Legacy.LegacyAdduct.ComputeCharge: requires a non-empty adduct string, for the same reason.
- Adducts.Adduct.Init: Python creates the charge, m and formula attributes only when the parse reaches them. The model starts them as placeholders (0, 0, zero arrays and no loss) that every path of `Make` overwrites.
- Legacy.LegacyAdduct.Init: the same placeholders.
- Ms2.GlobalCap: requires a precursor m/z of at least 0. The pipeline only processes features with 1 < m/z < 1500, and `floor(20 + 0.05·mz)` is then at least 20.
- Ms2.GlobalCapFacts: requires a precursor m/z of at least 0, for the same reason.
- Ms2.GlobalCapKeepsTies: requires a precursor m/z of at least 0, for the same reason.
- Ms2.Ms2Preprocess: requires a precursor m/z of at least 0, for the same reason.
- Ms2.Ms2PreprocessFacts: requires a precursor m/z of at least 0, for the same reason.
- Ms2.ProcessedMs2.constructor: requires a precursor m/z of at least 0, for the same reason.
- Ms2.ProcessedMs2.Preprocess: requires a precursor m/z of at least 0, for the same reason.
- Ms2.ProcessedMs2.CapTopNFrag: requires a precursor m/z of at least 0, for the same reason.
- Features.PreprocessFacts: requires a precursor m/z of at least 0 and raw spectra whose two arrays have equal length. `Spectrum` construction guarantees the second (`Spectra.MakeSpectrum`).
- Features.PreprocessRaisedKeeps: the same requirements.
- Features.MetaFeature.DataPreprocess: the same requirements.
- Pipeline.WriteBackFacts: the same requirements, for every feature of the batch.
- Pipeline.Msbuddy.PreprocessAndGenerate: the same requirements, for every feature of the batch.
- The multiprocessing pool, `apply_async`, per-feature timeouts, tqdm progress bars and logging are left out. Only the sequential branches of the batch methods are modelled. In the parallel branch, an exception there yields the original feature.
- The external stages are function parameters, with no properties assumed:
  - `gen_candidate_formula`, as the parameter `gen`;
  - `assign_subformula_cand_form`, as `assign`.

  `predict_formula_probability`, `calc_fdr`, `init_db`, the database queries, `load_mgf`/`load_usi`, `mz_to_formula`/`mass_to_formula` and the command-line output `annotate_formula_cmd`/`write_batch_results_cmd` are left out.
- The singleton `__new__`, the global `shared_data_dict`, `update_config`, `add_data` and `clear_data` are left out. `Msbuddy` takes its configuration in its constructor and its data as a field.
- `cpu_count()` is the parameter `cpu`.
- Config.ConfigureFacts: models the corrected constructor of the Findings row. A non-positive timeout becomes 300 seconds, where the code as written keeps it, so the promise that the timeout is positive holds of the corrected constructor only. `Config.TimeoutAsWrittenKeepsNonPositive` states the behaviour as written.
- Config.MsbuddyConfig.Make: the object holds the corrected timeout, for the same reason.
- Config.MsbuddyConfig.SetRuntime: stores the corrected timeout, for the same reason.
- Pipeline.Msbuddy.AssignSubformula: the batch features are the very objects of the data list, and `_gen_subformula` assigns their candidate lists in place. When a later feature raises, the earlier features of the batch have therefore already changed in the data list. The model's `assign` is a pure function, so the data stays as it was; that aliasing is not captured.
- Formulas.FormulaStr: `msbuddy/base.py` imports `form_arr_to_str` from `msbuddy.utils`, which is not part of this model. The model uses the serialiser of `msbuddy/base_class.py:98-113` in its place.
- Features.Summarize: uses the same serialiser for the formula strings of the ranks, for the same reason.
- Features.SummarizeRank: uses the same serialiser, for the same reason.
- Pipeline.GenSubformula: `_gen_subformula` mutates the feature it is given and returns it. The model returns the new feature value, so the aliasing of that object is not captured.
- PerfRun.FormulaFromDict: `sorted(items)` is modelled as repeated selection of the least remaining key under Python's string order. The order is over code points, ASCII in practice.
- PerfRun.RoundTrip: holds only for dictionaries whose keys are element symbols and whose counts are at least 1. `PerfRun.ZeroCountReadsAsOne` shows why counts of 0 are excluded.
- The dataset, rdkit and pandas script body of `perf_run.py` is left out.
- The end-to-end test file is left out, because its expected values depend on machine-learning models and data files.

## Findings

| source | as written | input that shows it | evidently intended | confidence | as-written member | corrected member |
|---|---|---|---|---|---|---|
| msbuddy/main.py:120-125 | a non-positive timeout is corrected to 300, but the next line assigns the raw value again, so the correction is lost | `timeout_secs=-5` with `parallel=False` gives a timeout of -5 seconds | a non-positive timeout becomes 300 seconds, plus 30 in parallel mode | not executed | Config.TimeoutAsWrittenKeepsNonPositive | Config.TimeoutCorrected |
