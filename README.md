# torsionfit: the parameter bookkeeping of the torsion-fitting models

torsionfit fits the torsion terms of a CHARMM-style force field to quantum
torsion scans with a Bayesian sampler. This project models the part of its
three model classes that keeps the parameter set and the sampled variables
in step:

- The parameter set (`Store.ParameterSet`) maps a torsion key (four atom
  types) to its list of Fourier terms. Each term has a force constant, a
  periodicity and a phase. The key's reversal indexes a parallel list.
- `add_missing` pads every selected torsion, and its reversal, with
  zero-force placeholder terms for each candidate periodicity (1, 2, 3, 4, 6,
  plus 5 when period 5 is sampled) that neither list has (`Completion`).
- The constructors create the latent values (`Init`):
  - a 6-bit multiplicity bitstring per torsion, holding 2^(m-1) for each
    candidate periodicity m present (`Bitstring`);
  - a force constant per candidate periodicity;
  - a phase per candidate periodicity. The standard model uses a 0/1 indicator
    for 0 or 180 degrees, the continuous-phase model a real phase, and the
    eliminated-phase model has no phase.
- The constructors also pad the store. The eliminated-phase model first
  sets to 0 the phase of every term of each selected torsion, and of the
  reversed term at the same index, passing over period-5 terms
  (`PhaseReset`, `Construct`).
- `update_param` writes the current latent values back into both
  orientations of every selected torsion (`Update`). It comes in three
  variants:
  - a term whose bit is clear, and decoupling is off, gets force constant 0;
  - an enabled period-5 term is passed over, unless the eliminated-phase
    model samples period 5;
  - the standard model stops scanning a torsion after the first phase it
    writes.

The methods change the store in place. Each is proved equal to a function
over the old store. The properties are lemmas about those functions
(`UpdateLaws`, `InitLaws`, and the lemmas beside each function).

## Model

| member | source | states |
|---|---|---|
| Bitstring.Candidates | torsionfit/model.py:134-136 | the candidate periodicities are exactly 1..6, with 5 only when period 5 is sampled, in increasing order |
| Bitstring.DecodeEncode | torsionfit/model.py:61-71 | the initial bitstring is below 64, and bit m-1 is set exactly when m is a candidate and some term has periodicity m |
| Bitstring.EncodeAsSum | torsionfit/model.py:64-71 | the bitstring is the sum of 2^(m-1) over the candidate periodicities present, each counted once |
| Bitstring.EncodeIsBinary | torsionfit/model.py:64-71 | the bitstring is the binary number whose digits are the six presence flags |
| Bitstring.FromBitsHasBit | torsionfit/model.py:163-164 | the bitmask test on a number built from flags reads back flag m-1 |
| Completion.MissingMembers | torsionfit/model.py:139-144 | a candidate is appended exactly when neither orientation's list has a term of that periodicity |
| Completion.AppendAllTwins | torsionfit/model.py:145-146 | for a non-palindromic torsion both lists get exactly one placeholder per missing periodicity, appended at the end |
| Completion.AppendAllPalindrome | torsionfit/model.py:145-146 | a torsion equal to its reversal gets every placeholder twice in its one list |
| Completion.AppendAllPadded | torsionfit/model.py:145-146 | appending placeholders keeps every existing term of every key and appends only zero placeholders with candidate periodicities, a key and its reversal growing by the same number of terms |
| Completion.AppendAllOthers | torsionfit/model.py:137-146 | padding one torsion leaves every key it does not touch unchanged |
| Completion.AddMissingOnlyAppends | torsionfit/model.py:125-146 | add_missing keeps every key and every existing term, only appends zero-force placeholders with candidate periodicities, keeps the reversal at least as long, and leaves unselected keys unchanged |
| Completion.AddMissingCovers | torsionfit/model.py:125-146 | afterwards every candidate periodicity occurs in each selected torsion or its reversal (the test `j in per` makes) |
| Completion.AddMissingOneHas | torsionfit/model.py:139-146 | when the two orientations agree on periodicities, padding a torsion puts every candidate on its own list and on its reversal's |
| Completion.AddMissingOneInStep | torsionfit/model.py:143-146 | padding a torsion whose orientations are in step keeps them in step, since both receive the same placeholders |
| Completion.AddMissingAllInStep | torsionfit/model.py:125-146 | for distinct selections in step, add_missing keeps every selected torsion in step and leaves every candidate periodicity on its own list and its reversal's |
| Completion.AddMissingNoop | torsionfit/model.py:143-144 | add_missing changes nothing when every selected torsion already has every candidate |
| Completion.AddMissingIdempotent | torsionfit/model.py:125-146 | a second add_missing with the same candidates changes nothing |
| Completion.AddMissingTorsion | torsionfit/model.py:138-146 | the loop for one torsion leaves the store that the one-torsion padding function specifies |
| Completion.AddMissing | torsionfit/model.py:125-146 | the whole method leaves the store that the padding function specifies for the candidates chosen by sample_n5 |
| Update.BreakIndex | torsionfit/model.py:173-181 | the standard scan stops at the first term that writes a phase; no term before it writes one |
| Update.UpdateTorsionStandard | torsionfit/model.py:157-185 | the standard loop over one torsion gives the store its specification function describes, break included |
| Update.UpdateTermStandard | torsionfit/model.py:162-185 | one term of the standard loop writes exactly the action its bit, the skip and the indicator select, in both orientations, and reports whether the scan breaks there |
| Update.UpdateTorsionContinuous | torsionfit/model.py:309-330 | the continuous-phase loop over one torsion gives the store its specification function describes |
| Update.UpdateTorsionEliminate | torsionfit/model.py:457-475 | the eliminated-phase loop over one torsion gives the store its specification function describes |
| Update.UpdateParam | torsionfit/model.py:148-185 | update_param over all selected torsions, in each of the three variants, gives the store that the specification fold describes |
| UpdateLaws.UpdateAllShape | torsionfit/model.py:161-185 | update_param keeps every key, every list length and every periodicity |
| UpdateLaws.UpdateAllLocal | torsionfit/model.py:157-160 | each selected torsion's lists come out as if that torsion were updated alone; keys no selected torsion touches are unchanged |
| UpdateLaws.UpdateAllUntouched | torsionfit/model.py:157-160 | a key that neither orientation of any selected torsion reaches keeps its list |
| UpdateLaws.UpdateAllSelected | torsionfit/model.py:157-160 | with distinct selections, a key reached by a selected torsion ends as that torsion's own update leaves it |
| UpdateLaws.UpdateAllTerm | torsionfit/model.py:161-185 | each forward term and its reverse partner undergo the same action |
| UpdateLaws.UpdateParamAgreement | torsionfit/model.py:170-180 | a written term has the same force constant in both orientations, and also the same phase when a phase was written |
| UpdateLaws.UpdateParamDisables | torsionfit/model.py:182-185 | up to the standard break, a term whose bit is clear, with decoupling off, gets force constant 0 in both orientations and nothing else changes |
| UpdateLaws.UpdateParamSetsK | torsionfit/model.py:164-171 | up to the standard break, an enabled term that is not skipped gets its periodicity's sampled force constant in both orientations |
| UpdateLaws.UpdateParamSkipsPeriod5 | torsionfit/model.py:165-166 | an enabled period-5 term is left unchanged in both orientations unless period 5 is sampled |
| UpdateLaws.UpdateParamStandardBreak | torsionfit/model.py:172-181 | at the break the phase becomes 180 for indicator 1 and 0 for indicator 0, in both orientations; later terms are untouched |
| UpdateLaws.UpdateParamStandardBeforeBreak | torsionfit/model.py:172-181 | before the break no phase changes, and an enabled term there has an indicator that is neither 0 nor 1 |
| UpdateLaws.UpdateParamContinuousPhase | torsionfit/model.py:316-326 | the continuous-phase update never stops early and copies the sampled force constant and phase into both orientations |
| UpdateLaws.EliminateTorsionKeepsPhases | torsionfit/model.py:461-475 | the eliminated-phase update of one torsion changes no phase anywhere |
| UpdateLaws.UpdateParamEliminateKeepsPhases | torsionfit/model.py:448-475 | the eliminated-phase update_param changes no phase anywhere |
| UpdateLaws.UpdateTorsionTwice | torsionfit/model.py:161-185 | updating one torsion twice with the same values equals updating it once |
| UpdateLaws.UpdateParamIdempotent | torsionfit/model.py:148-185 | a second update_param with the same latent values changes nothing |
| UpdateLaws.BreakIndexPers | torsionfit/model.py:162-181 | where the standard scan stops depends only on the periodicities, so force-constant and phase writes do not move it |
| PhaseReset.SetPhase0Torsion | torsionfit/model.py:484-490 | the reset loop over one torsion gives the store its specification function describes |
| PhaseReset.SetPhase0 | torsionfit/model.py:477-490 | _set_phase_0 gives the store that the reset fold describes |
| PhaseReset.ZeroAllOnlyZeroes | torsionfit/model.py:477-490 | the reset keeps keys, lengths, periodicities and force constants; each phase is kept or set to 0 |
| PhaseReset.ZeroAllZeroes | torsionfit/model.py:485-490 | every non-period-5 term of a selected torsion has phase 0 afterwards, in both orientations |
| PhaseReset.ZeroAllKeeps5 | torsionfit/model.py:485-490 | with distinct selections, a period-5 term of a selected torsion, and the reversed term at its index, come out unchanged |
| PhaseReset.ZeroAllKeepsZero | torsionfit/model.py:489-490 | a phase that is already 0 stays 0 |
| PhaseReset.ZeroAllUntouched | torsionfit/model.py:483-484 | keys that no selected torsion touches are unchanged |
| Init.ScanK | torsionfit/model.py:66-71 | the force-constant loop reports whether periodicity m occurs, and returns the first such term's force constant, else 0 |
| Init.ScanIndicator | torsionfit/model.py:76-86 | the indicator loop computes the indicator scan, including the value carried over from the previous scan |
| Init.ScanContinuousPhase | torsionfit/model.py:256-260 | the continuous-phase loop, which visits every term without stopping, computes the scan as written: the carried-over variable for an empty list, else the last term's phase when it has periodicity m, else 0 |
| Init.InitTorsion | torsionfit/model.py:64-88 | the per-periodicity loop of one torsion computes the variables that its specification function gives, failing when the phase is unbound |
| Init.InitLatent | torsionfit/model.py:58-92 | the constructor's variable creation returns the latent values of its specification, or fails exactly when that does |
| InitLaws.InitialK | torsionfit/model.py:66-71 | the initial force constant is that of the first term with periodicity m, and 0 when there is none |
| InitLaws.FirstPhiKAt | torsionfit/model.py:67-71 | the first term with periodicity m supplies the initial force constant; its phase is what the corrected continuous scan takes (see Findings) |
| InitLaws.FirstPhiKAbsent | torsionfit/model.py:66 | without a term of periodicity m the initial force constant is 0 |
| InitLaws.IndicatorScanValues | torsionfit/model.py:76-86 | the indicator is 0, 1 or the carried-over value, and a bound value never becomes unbound |
| InitLaws.IndicatorScanFirst | torsionfit/model.py:77-84 | when the first term of periodicity m has phase 0 or 180, the indicator is 0 or 1 accordingly |
| InitLaws.IndicatorScanAbsent | torsionfit/model.py:85-86 | a non-empty list without periodicity m gives indicator 0 |
| InitLaws.IndicatorScanDecided | torsionfit/model.py:76-86 | a scan that decides the indicator by itself ignores the carried-over value |
| InitLaws.IndicatorScanUnbound | torsionfit/model.py:76-88 | a scan starting unbound ends unbound exactly when every term has periodicity m and a phase other than 0 and 180 |
| InitLaws.ContinuousScanFirst | torsionfit/model.py:256-260 | the corrected continuous-phase scan of a non-empty list starts from the phase of the first term with periodicity m |
| InitLaws.ContinuousScanAsWrittenLast | torsionfit/model.py:256-260 | the loop as written yields the last term's phase, or 0 when the last term has another periodicity |
| InitLaws.ContinuousScanAsWrittenDiffers | torsionfit/model.py:256-260 | the loop as written gives phase 0 where the first matching term, which also supplies the force constant, has 180 |
| InitLaws.InitPersFrame | torsionfit/model.py:64-88 | creating one torsion's variables touches no other torsion's entries |
| InitLaws.InitAllFrame | torsionfit/model.py:58-88 | creating the variables of other torsions leaves a torsion's entries alone |
| InitLaws.InitPersRecords | torsionfit/model.py:64-88 | per torsion: bitstring grows by the encoding; force constant from the first matching term; standard phase is a 0/1 indicator; continuous phase is the last term's phase when it has the periodicity, else 0 |
| InitLaws.InitAllRecords | torsionfit/model.py:58-92 | for each selected torsion the constructor records its encoded bitstring, first force constants and phases |
| InitLaws.InitAllCarry | torsionfit/model.py:76-88 | the carried-over indicator stays 0, 1 or unbound throughout |
| InitLaws.InitialBitstring | torsionfit/model.py:58-92 | each selected torsion's initial bitstring is in 0..63 and decodes to the candidate periodicities present |
| InitLaws.InitPersBound | torsionfit/model.py:76-88 | once the phase variable is bound, creating a torsion's variables cannot fail |
| InitLaws.InitAllBound | torsionfit/model.py:58-88 | once the phase variable is bound, the rest of the construction cannot fail |
| InitLaws.InitSucceeds | torsionfit/model.py:58-92 | of the failures the model represents, the unbound phase variable, construction fails exactly when the first selected torsion's first scan leaves that variable unbound |
| Construct.ResetTable | torsionfit/model.py:378-379 | the eliminated-phase model reads its variables from the phase-reset store, which stays paired |
| Construct.Construct | torsionfit/model.py:378-423 | the constructor resets phases for the eliminated-phase model, creates the variables, and then pads the store with the variant's candidates |
| Construct.ConstructReady | torsionfit/model.py:104-109 | after a successful construction, for any values the sampler gives the variables (bitstrings in 0..63, same variables), every variable update_param looks up exists: bits above 5 are never set, so an enabled, unskipped term has a candidate periodicity |
| Construct.ConstructReadyInitial | torsionfit/model.py:58-109 | in particular update_param can run on the latent values the constructor creates |

## Left out

- The sampler itself is not modelled. The latent values (`Update.Latent`) are plain numbers that update_param reads; the priors, their bounds and the likelihood are left out.
- The per-fragment offsets, `log_sigma`, `sigma`, `precision`, and the `mm_energy` and `qm_fit` nodes are left out. They depend on the molecular mechanics engine, which is not part of this model.
- The selection of torsions comes from the caller. Deriving it from two parameter sets is not part of this model.
- The latent values are keyed by the torsion key, not by the joined atom-type string. Two distinct keys with the same joined name would share variables in the program; the model keeps them apart.
- A torsion selected twice, or together with its reversal, has its bitstring built and its terms updated twice. The lemmas that need distinct selections state `Distinct` as a precondition.
- Update.UpdateParam: requires `Ready`, meaning every variable update_param looks up exists. The program raises an error on a missing variable; the model does not represent that error path. `Ready` also asks for the variables of terms after the standard break, which update_param never reads.
- Update.UpdateParam: requires every selected periodicity to be at least 1. For periodicity 0 the program's bitmask is a fraction and the `&` test fails; the model does not represent that error.
- Completion.AddMissing, PhaseReset.SetPhase0, Construct.Construct: require `AllPaired`, so every selected key's reversal exists and is at least as long as the forward list. The program raises a KeyError or IndexError otherwise (model.py:142 in add_missing, model.py:490 in _set_phase_0); the model does not represent that error path. Update.UpdateParam has the same requirement inside `Ready` (model.py:171, 185).
- Init.InitLatent: failure stands for the unbound phase variable of the first scan, which the program reports only when it stores the variable. A selected torsion missing from the store is excluded by a precondition.
- Init.InitLatent: the sampling library rejects a variable whose initial value lies outside its prior's range. Examples are a force constant outside 0..20 (model.py:70, 250) or outside -20..20 (model.py:404), a continuous phase outside 0..180 (model.py:258), and an accumulated bitstring above 63 (model.py:92, 266, 411). These failures are not represented: the model creates the variable with that value.
- Init.InitPer: when a phase scan assigns nothing, the program stores the previous phase variable object under the new name (model.py:88, 262), so the two names are one sampled variable. The model copies its value into a separate entry, so `Update.UpdateParam` also accepts latent values in which the two differ, which the program cannot reach. No proved property depends on this.
- Construct.ConstructReady: requires every periodicity to be at least 1, and at most 6 under decoupling, since only those have variables.
- Construct.ConstructReady: takes as given that the sampler keeps each bitstring within its range 0..63 and neither adds nor removes variables, since the sampler is not modelled.
- Term fields are unbounded reals and integers. The parameter library's unit handling and float formatting are not modelled.

## Findings

| source | as written | input that shows it | evidently intended | confidence | as-written member | corrected member |
|---|---|---|---|---|---|---|
| torsionfit/model.py:256-260 | the continuous-phase initial-phase loop has no `break`, so the last term of the list decides the phase, and a trailing term of another periodicity resets it to 0 | terms [(k 1.5, per 2, phase 180), (k 0.8, per 3, phase 0)], m = 2: the force constant comes from the first term (1.5) but the phase is 0 instead of 180 | take the phase of the first term with periodicity m, the same term the force constant comes from, as the standard model's loop does with its `break` | not executed | InitLaws.ContinuousScanAsWrittenDiffers | InitLaws.ContinuousScanFirst |

The continuous-phase constructor is modelled as the program computes it: `Init.InitPer` and `Init.ScanContinuousPhase` use `Init.ContinuousScanAsWritten`. `Init.ContinuousScan` is the evidently intended scan, for two reasons found in the program itself. First, the force constant of periodicity m is taken from the first term of periodicity m, whose loop stops there (model.py:247-251). Second, the standard model's phase loop stops at its first decisive term with a `break` (model.py:76-86).

Two behaviours of the program that could look accidental are modelled as written, because nothing in the program contradicts them:

- The eliminated-phase model's phase reset passes over period-5 terms (model.py:487-488), so their phases keep their values (`PhaseReset.ZeroAllKeeps5`).
- The standard update's `break` (model.py:176, 181) leaves the loop over the torsion's terms, so it ends the whole scan of that torsion. Later terms get neither a phase nor a force constant, nor a disabling write.
