# RMG-website rate-model, thermodynamics and statistical-mechanics core in Dafny

This project models the self-contained evaluation code of the RMG website, together with the small pure and stateful routines around it. It then proves properties of that model. The three browser-side model engines form the centre:

- `kinetics.js` (module `Kinetics`, `kinetics.dfy`) holds the rate-coefficient variants:
  - tabulated k(T), interpolated in (1/T, ln k) with clamping at the ends;
  - Arrhenius, Evans–Polanyi Arrhenius and summed Arrhenius;
  - pressure-tabulated Arrhenius, with its bracket search;
  - Chebyshev, using reduced temperature and pressure;
  - third-body, Lindemann and Troe falloff.
- `thermo.js` (module `Thermo`, `thermo.dfy`) holds:
  - group-additivity Cp/H/S/G, integrating the piecewise-linear Cp in closed form;
  - Wilhoit;
  - one NASA polynomial;
  - the multi-range NASA model, which dispatches on temperature.
- `statmech.js` is split over two modules:
  - `StatMech` (`statmech.dfy`): the Bessel approximations, the AGM loop of `cellipk`, `convolve`, and the translation, rigid-rotor, harmonic-oscillator and hindered-rotor modes;
  - `States` (`states_model.dfy`): the `StatesModel` composition of those modes.

The secondary routines have one module each:

| module | what it covers |
|---|---|
| `Units` | `units.js` |
| `RenderKinetics` | rate-unit string algebra and plotting-range rules in `render_kinetics.py` |
| `DbTools` | the timestamp bookkeeping of `RMGWebDatabase`, the load gating, library reordering and section lookups in `database/tools.py` |
| `DbViews` | tree flattening, entry indices, reaction de-duplication, reaction URLs and template labels in `database/views.py` |
| `RmgModels` | the species-dictionary splitter and the input-form mappings of `rmg/models.py` |
| `MainViews` | presentation file names, element and atom-type error classification, and identifier dispatch in `main/views.py` |
| `DbForms`, `MainForms` | the form validators |
| `Universal` | the `split` filter and the reference tooltip |
| `DatabaseFilters` | `renderAdjlist` |
| `DbUrls` | the generated URL patterns of `database/urls.py` |
| `UpdateHeaders` | the licence-header rewriter `update_headers.py` |

Shared pieces:

- `Common` defines `Option` and `Result`.
- `PyText` models the Python string operations the sources rely on: `strip`, `split`, `find`, `replace`, `join`, `lower` and `os.path.splitext`.
- `JsMath` models the numbers of the JavaScript engines.
- `Tables` holds the sorted-table facts shared by the tabulated models.

Modelling choices:

- **Uninterpreted mathematics.**
  - Real arithmetic is exact (`real`).
  - `Math.exp`, `log`, `pow`, `sqrt`, `cos`, `acos` and `round` are uninterpreted functions of `JsMath`; `Log10` is defined from them as `Log(x) / Ln10`, as the scripts compute it.
  - A lemma needs only a few of their laws, such as `Exp(0) == 1` or `Sqrt(x) * Sqrt(x) == x`. These laws are taken only as `requires` of the lemmas that need them, never as axioms.
  - Division by zero gives an unspecified value (`JsMath.Div`), so no operation needs a division precondition.
- **Failures in the JavaScript engines.** `JsMath.Num` is either a real or `NaN`. `Result` models the cases where the scripts throw: a call on `undefined`, or the missing `Math.sum`.
- **Loops and mutable state stay imperative.**
  - The sources' loops are methods whose `for` and `while` loops carry invariants. Each method is proved against a specification function, and the properties are proved as lemmas about that function.
  - The harmonic-oscillator state count works in place on an `array<Num>`.
  - `RMGWebDatabase` is a class whose `timestamps` map the load methods update.
- **Foreign collaborators become parameters.** The file system becomes a path→mtime map plus the list of paths a directory walk yields. Other foreign collaborators (molecule parsers, isomorphism, the Django user table) become predicate or function parameters.

The model follows the code wherever the code departs from the evident design of the models:

- An interior temperature of ANY nonempty table falls in some bracket `Tdata[i] <= T < Tdata[i+1]`, sorted or not (`Kinetics.InteriorNeverZeroDefault`). So the `0.0` default of `KineticsDataModel` survives only for an empty table, not for an unsorted one.
- Pressure-dependent Arrhenius never interpolates. When the two bounds differ, the second branch is `undefined` and the script throws before its log-log line (`Kinetics.GetPDepRate`).
- Construction never rejects non-finite parameters or unsorted tables. Evaluation yields `NaN` or throws instead of returning typed errors, as the scripts do.
- Density of states for a Fourier hindered rotor is all zeros, and the Fourier thermodynamic functions fail on `Math.sum`. Neither reports that the operation is unsupported.

## Model

| member | source | states |
|---|---|---|
| DatabaseFilters.RenderHasNoNewline | rmgweb/main/templatetags/databasefilters.py:58-63 | `renderAdjlist` leaves no newline in its output: every `\n` becomes `<br/>` |
| DatabaseFilters.RenderLength | rmgweb/main/templatetags/databasefilters.py:58-63 | the output is four characters longer per newline of the input |
| DatabaseFilters.RenderIdentity | rmgweb/main/templatetags/databasefilters.py:58-63 | text without a newline is rendered unchanged |
| DatabaseFilters.RenderConcat | rmgweb/main/templatetags/databasefilters.py:58-63 | rendering distributes over concatenation, so the lines are rendered one by one |
| DbForms.AsDivs | rmgweb/database/forms.py:42-48 | no errors render as the empty text; otherwise the error divs, in order, inside one outer `<div>` |
| DbForms.CleanRequiredAdjlist | rmgweb/database/forms.py:59-71 | a required adjacency-list field is accepted, unchanged, exactly when it parses; otherwise the error is an invalid adjacency list |
| DbForms.CleanOptionalSpecies | rmgweb/database/forms.py:112-162 | `reactant2`, `product1`, `product2`: whitespace-only input is accepted as '' without parsing; anything else must parse |
| DbForms.CleanEmptyOrAdjlist | rmgweb/database/forms.py:177-192 | the molecule `species`, solvation `adjlist` and `group` fields: only the exact empty text skips the parser |
| DbForms.BlankShortCircuitsDiffer | rmgweb/database/forms.py:112-124 | a single space is accepted by an optional species field but reaches the parser, and fails, in an exact-empty field |
| DbForms.CleanTemp | rmgweb/database/forms.py:227-243 | a temperature that is not a number is rejected; with a solvent chosen it must lie in [280, Tc); the accepted value is the parsed number |
| DbForms.CleanTokenCount | rmgweb/database/forms.py:260-271 | a whitespace-separated list is accepted, unchanged, exactly when it has at most the limit of tokens |
| DbForms.CleanSolventSoluteList | rmgweb/database/forms.py:307-318 | solvent-solute pairs and triples: accepted exactly when there are at most 200 |
| DbForms.CleanSoluteSmiles | rmgweb/database/forms.py:353-364 | solute SMILES: accepted exactly when there are at most 100 |
| DbForms.BlankListAccepted | rmgweb/database/forms.py:260-271 | whitespace-only input is never over a limit |
| DbForms.CleanSoluteEstimator | rmgweb/database/forms.py:366-376 | an estimator must be chosen; the chosen one is kept |
| DbForms.CleanOptionSelected | rmgweb/database/forms.py:273-290 | rejected exactly when none of the five calculation flags is set; accepted as true otherwise |
| MainForms.WordRun | rmgweb/main/forms.py:76 | the longest prefix of word characters: all of it word characters, the next one not |
| MainForms.Tokens | rmgweb/main/forms.py:76 | every match of the username pattern is a valid username, a letter then letters, digits or underscores |
| MainForms.TokensSingleIffValid | rmgweb/main/forms.py:76-78 | the username is its own only match exactly when it is a valid username |
| MainForms.CleanUsername | rmgweb/main/forms.py:74-81 | accepted, unchanged, exactly when it is valid and not registered; the character check comes first |
| MainForms.ErrorDivs | rmgweb/main/forms.py:42-44 | the rendered text is exactly 25 characters of tags per error plus the errors' own text |
| MainForms.ErrorDivsStartWithFirst | rmgweb/main/forms.py:42-44 | a nonempty list's text starts with `<div class="error">`, the first error and `</div>` |
| MainForms.AsDivs | rmgweb/main/forms.py:42-44 | the error list renders as the empty text exactly when it has no errors |
| MainForms.ErrorDivsAppend | rmgweb/main/forms.py:42-44 | rendering two lists of errors is rendering one after the other |
| MainForms.ErrorDivsPosition | rmgweb/main/forms.py:42-44 | the k-th error's div sits between the divs of the errors before it and those after it |
| Universal.SplitFilter | rmgweb/main/templatetags/universal.py:40-45 | an empty separator raises; otherwise joining the pieces with the separator gives the text back |
| Universal.RefTooltip | rmgweb/main/templatetags/universal.py:47-100 | an unknown reference gives ''; otherwise the authors follow the title block |
| Universal.TitleLeadsWhenSet | rmgweb/main/templatetags/universal.py:56-59 | an article or thesis starts with its quoted title and a blank line exactly when the title is set, and otherwise with the authors |
| Universal.ArticleVenueNeedsJournal | rmgweb/main/templatetags/universal.py:60-70 | without a journal, the volume, number, pages and year of an article are not shown |
| Universal.ArticleIssueNeedsVolume | rmgweb/main/templatetags/universal.py:62-68 | without a volume, the number and pages of an article are not shown |
| Universal.ArticleYearLast | rmgweb/main/templatetags/universal.py:69-70 | an article with a journal and a year ends with the year in parentheses |
| Universal.BookDetailsNeedTitle | rmgweb/main/templatetags/universal.py:72-81 | without a title, a book shows no edition, volume or year and starts with the authors |
| Universal.BookTitleBlankLine | rmgweb/main/templatetags/universal.py:72-80 | the title part of a book ends with a blank line |
| Universal.BookAddressNeedsPublisher | rmgweb/main/templatetags/universal.py:82-85 | without a publisher, a book's address is not shown |
| Universal.ThesisDegreeLine | rmgweb/main/templatetags/universal.py:90-96 | without a degree only the school is shown on the last line; with one, the school follows the degree |
| Universal.ThesisYearLast | rmgweb/main/templatetags/universal.py:97-98 | a thesis year, when set, closes the tooltip |
| Units.TemperatureFrom | rmgweb/static/js/units.js:30-35 | defined exactly for K, C, F and R; K is kept as is; anything else is `undefined` |
| Units.TemperatureTo | rmgweb/static/js/units.js:40-45 | defined exactly for K, C, F and R; K is kept as is |
| Units.PressureTo | rmgweb/static/js/units.js:50-56 | defined exactly for bar, atm, Pa, psi and torr; Pa is kept as is |
| Units.EnergyTo | rmgweb/static/js/units.js:61-67 | defined exactly for kJ/mol, kcal/mol, J/mol, cal/mol and cm^-1; J/mol is kept as is |
| Units.HeatCapacityTo | rmgweb/static/js/units.js:72-75 | defined exactly for J/mol*K and cal/mol*K; J/mol*K is kept as is |
| Units.TemperatureRoundTrip | rmgweb/static/js/units.js:30-45 | converting a temperature to K and back, or from K and back, gives the value back in every unit |
| Units.DerivedUnits | rmgweb/static/js/units.js:50-66 | torr is atm divided by 760; kcal/mol is cal/mol divided by 1000 |
| Units.PressureLinear | rmgweb/static/js/units.js:50-56 | every pressure conversion is linear in the value |
| Units.EnergyLinear | rmgweb/static/js/units.js:61-67 | every energy conversion is linear in the value |
| Units.HeatCapacityLinear | rmgweb/static/js/units.js:72-75 | every heat-capacity conversion is linear in the value |
| Units.TemperatureAffine | rmgweb/static/js/units.js:32-43 | Celsius and Fahrenheit are affine, not linear: 0 does not map to 0 in either direction |
| Tables.LastBracket | rmgweb/media/thermo.js:57-62 | the pair found brackets T and no later pair among the first n does; none is found exactly when no pair brackets T |
| Tables.SomePairBrackets | rmgweb/media/thermo.js:52-62 | whatever the order of the table, a temperature from the first entry up to, not including, the last is bracketed by some pair |
| Tables.BracketUnique | rmgweb/media/thermo.js:57-62 | in an increasing table at most one pair brackets a temperature, so keeping the last pair is keeping the only one |
| Tables.BracketAtDataPoint | rmgweb/media/thermo.js:57-62 | in an increasing table a tabulated temperature is bracketed by the pair that starts there |
| UpdateHeaders.LJust | update_headers.py:33 | `ljust`: padded with spaces on the right to the width, never truncated |
| UpdateHeaders.BoxLineWidth | update_headers.py:31-34 | a licence line stripped to at most 75 characters gives an 80-character box line; a longer one widens it; the stripped text starts at column 2 |
| UpdateHeaders.BoxLinesAppend | update_headers.py:31-34 | one more licence line adds its box line at the end |
| UpdateHeaders.BuildHeader | update_headers.py:24-38 | the loop builds the top, one box line per licence line, then the bottom |
| UpdateHeaders.FindBar | update_headers.py:69 | the bar found is the first line starting with ten `#` at or after the start; none is found exactly when there is none |
| UpdateHeaders.CopiedNewline | update_headers.py:64-68 | the newline before the copied lines is written exactly when the first of them is not blank |
| UpdateHeaders.ReplaceHeader | update_headers.py:43-48 | a file whose extension is not `.py` is rejected before anything is written; otherwise the result is the rewritten file |
| UpdateHeaders.CopyWithHeader | update_headers.py:52-75 | the line loop with `found_bar`, `first_line` and `start` writes the rewritten file |
| UpdateHeaders.ScanStep | update_headers.py:69-75 | before copying starts, a bar line sets `found_bar` the first time and starts copying after the second |
| UpdateHeaders.LoopDone | update_headers.py:59-75 | after the last line, what was written is the rewritten file |
| UpdateHeaders.NoHeaderCopiesEverything | update_headers.py:60-63 | when the first line does not start with '#', the header follows the shebang and every line is copied |
| UpdateHeaders.FewerThanTwoBars | update_headers.py:69-75 | with fewer than two bar lines after a '#' first line, nothing follows the shebang: the file's content is lost |
| UpdateHeaders.OldHeaderDropped | update_headers.py:69-75 | everything up to and including the second bar line is replaced by the new header |
| UpdateHeaders.SecondBarStartsCopy | update_headers.py:69-73 | copying starts right after the second bar line |
| UpdateHeaders.ShebangSharesFirstLine | update_headers.py:22-24 | the shebang has no newline, so it and the header's first bar share the first line of the file |
| Thermo.GetHeatCapacity | rmgweb/media/thermo.js:50-65 | the loop returns the tabulated model's heat capacity: the first value below the table, the last at or past its end, otherwise the interpolation on the last bracketing pair |
| Thermo.HeatCapacityAtDataPoint | rmgweb/media/thermo.js:50-65 | at a tabulated temperature of an increasing table the tabulated heat capacity comes back |
| Thermo.SegmentStart | rmgweb/media/thermo.js:58-61 | the interpolation on a segment gives the segment's first value at its first temperature |
| Thermo.SegmentHeatCapacityBetween | rmgweb/media/thermo.js:58-61 | inside a segment the interpolated heat capacity lies between the segment's two end values |
| Thermo.EnthalpyStep | rmgweb/media/thermo.js:72-81 | each segment adds its increment, and a segment that starts at or above T adds nothing |
| Thermo.GetEnthalpy | rmgweb/media/thermo.js:70-85 | the loop returns H298 plus each segment's increment plus the constant-Cp tail past the table |
| Thermo.LineThroughLowerEnd | rmgweb/media/thermo.js:76-77 | the slope and intercept computed per segment give a line through the segment's first point |
| Thermo.EnthalpyIncrementIsTrapezoid | rmgweb/media/thermo.js:72-81 | the enthalpy a segment adds up to T is the trapezoid (T - lo)(Cp(lo) + Cp(T))/2 under the heat capacity that `getHeatCapacity` interpolates, so the two agree |
| Thermo.SegmentOnLine | rmgweb/media/thermo.js:58-61 | the interpolated heat capacity is the segment's line through its lower end |
| Thermo.FullSegmentIsTrapezoid | rmgweb/media/thermo.js:79 | a whole segment adds (hi - lo)(Cp(lo) + Cp(hi))/2 |
| Thermo.BelowTableIsReference | rmgweb/media/thermo.js:70-104 | at or below the first tabulated temperature the enthalpy is H298 and the entropy S298 |
| Thermo.PastTableUsesLastHeatCapacity | rmgweb/media/thermo.js:82-83 | past the table H(T) = H(T_last) + Cp_last (T - T_last) and S(T) = S(T_last) + Cp_last log(T / T_last) |
| Thermo.EnthalpyPastTable | rmgweb/media/thermo.js:82-83 | past the table the enthalpy is the segments' sum plus the constant-Cp tail |
| Thermo.EntropyPastTable | rmgweb/media/thermo.js:102-103 | past the table the entropy is the segments' sum plus the constant-Cp tail |
| Thermo.EnthalpyWithinTable | rmgweb/media/thermo.js:72-83 | up to the last tabulated temperature the enthalpy is the segments' sum alone |
| Thermo.EntropyWithinTable | rmgweb/media/thermo.js:92-103 | up to the last tabulated temperature the entropy is the segments' sum alone |
| Thermo.EnthalpyAtTableEnd | rmgweb/media/thermo.js:82 | at the last tabulated temperature no tail is added to the enthalpy |
| Thermo.EntropyAtTableEnd | rmgweb/media/thermo.js:102 | at the last tabulated temperature no tail is added to the entropy |
| Thermo.EntropyStep | rmgweb/media/thermo.js:92-101 | each segment adds its entropy increment, and a segment that starts at or above T adds nothing |
| Thermo.GetEntropy | rmgweb/media/thermo.js:90-105 | the loop returns S298 plus each segment's increment plus the constant-Cp tail |
| Thermo.GetFreeEnergy | rmgweb/media/thermo.js:111-113 | G = H - T S from the two evaluations |
| Thermo.WilhoitLimits | rmgweb/media/thermo.js:150-153 | the Wilhoit heat capacity is cp0 at y = 0 and cpInf at y = 1; with B nonzero, cp0 at T = 0 |
| Thermo.WilhoitBoundedWhenUnperturbed | rmgweb/media/thermo.js:150-153 | with a0..a3 zero and B positive, the heat capacity stays between cp0 and cpInf |
| Thermo.NASAHeatCapacityIgnoresConstants | rmgweb/media/thermo.js:202-204 | the heat capacity depends on a0..a6 only, not on the integration constants a7 and a8 |
| Thermo.NASAEnthalpyConstant | rmgweb/media/thermo.js:209-222 | raising a7 by d raises H by R d at every nonzero T and leaves S unchanged |
| Thermo.NASAEntropyConstant | rmgweb/media/thermo.js:209-222 | raising a8 by d raises S by R d and leaves H unchanged |
| Thermo.FirstCovering | rmgweb/media/thermo.js:247-251 | the polynomial chosen is the first whose closed range holds T; none is chosen exactly when no range holds T |
| Thermo.EvaluateNASAModel | rmgweb/media/thermo.js:238-291 | a missing polynomial list raises TypeError; otherwise the first covering polynomial is evaluated, and null comes back when none covers T |
| Kinetics.GetTabulatedRate | rmgweb/media/kinetics.js:46-62 | the loop returns the tabulated rate: the first value below the table, the last at or past its end, otherwise the log-linear interpolation in 1/T on the last bracketing pair |
| Kinetics.InteriorNeverZeroDefault | rmgweb/media/kinetics.js:47-59 | inside the table some pair always brackets T, whatever the order, so the initial 0.0 never survives |
| Kinetics.SegmentRateAtLowerEnd | rmgweb/media/kinetics.js:58 | a segment evaluated at its first temperature gives its first rate |
| Kinetics.TabulatedRateAtDataPoint | rmgweb/media/kinetics.js:46-62 | at a tabulated temperature of an increasing table the tabulated rate comes back |
| Kinetics.NewArrhenius | rmgweb/media/kinetics.js:70-83 | each field keeps its argument unless that is omitted or zero: A, n, Ea and Tmin then become 0, T0 becomes 1 (so T/T0 is always defined) and Tmax 99999.9 |
| Kinetics.ArrheniusConstantWhenFlat | rmgweb/media/kinetics.js:88-90 | with n = 0 and Ea = 0 the rate is A |
| Kinetics.ArrheniusEPIsShiftedArrhenius | rmgweb/media/kinetics.js:117-119 | Evans-Polanyi is Arrhenius with T0 = 1 and activation energy E0 + alpha dHrxn |
| Kinetics.GetMultiArrheniusRate | rmgweb/media/kinetics.js:140-145 | the loop returns the sum of the listed rates |
| Kinetics.SumOfRatesAppend | rmgweb/media/kinetics.js:140-145 | the summed rate of two lists joined is the sum of their rates |
| Kinetics.GetAdjacentExpressions | rmgweb/media/kinetics.js:169-182 | `ihigh` is the first index from 1 whose pressure is at most P and `ilow` the last; both bounds become P once one matches, otherwise they stay pressures[0] and 0 |
| Kinetics.GetPDepRate | rmgweb/media/kinetics.js:187-199 | when an index matches, the rate of the last matching branch; when none does, the first branch's rate if pressures[0] is 0, and otherwise an access of a null branch raising TypeError |
| Kinetics.ReducedTemperatureEndpoints | rmgweb/media/kinetics.js:221-223 | the reduced temperature maps Tmin to -1 and Tmax to 1 |
| Kinetics.ReducedPressureEndpoints | rmgweb/media/kinetics.js:225-227 | the reduced pressure maps Pmin to -1 and Pmax to 1 |
| Kinetics.ClosedFormStep | rmgweb/media/kinetics.js:229-252 | each hard-coded closed form is 2x times the one before minus the one before that |
| Kinetics.ClosedFormsAreChebyshev | rmgweb/media/kinetics.js:229-252 | for n up to 9 the closed forms are the Chebyshev polynomials of the first kind given by the recurrence |
| Kinetics.GetChebyshevRate | rmgweb/media/kinetics.js:257-266 | the double loop returns 10 to the power of the Chebyshev sum at the reduced temperature and pressure |
| Kinetics.SingleCoefficientChebyshev | rmgweb/media/kinetics.js:257-266 | a one-by-one coefficient matrix gives log10 k equal to that coefficient at every T and P |
| Kinetics.ThirdBodyRate | rmgweb/media/kinetics.js:291-293 | k = k_inf(T) P/(R T): zero at zero pressure and positive for positive T, P and k_inf |
| Kinetics.LindemannBelowBothLimits | rmgweb/media/kinetics.js:319-326 | with positive limits the falloff rate lies strictly between 0 and the high-pressure limit, and below the low-pressure limit times [M] |
| Kinetics.NewTroe | rmgweb/media/kinetics.js:334-352 | both limits are kept; alpha, T3, T1, T2, Tmin and Pmin keep a given value and are 0 when omitted (so an omitted T2 is not the sentinel 1e100); Tmax and Pmax become 99999.9 and 1e100 when omitted or zero |
| Kinetics.TroeIsScaledLindemann | rmgweb/media/kinetics.js:357-371 | Troe is the Lindemann rate of the same limits times its broadening factor F |
| Kinetics.OmittedT2AddsOne | rmgweb/media/kinetics.js:344-364 | an omitted T2 is stored as 0, not as the sentinel, so exp(-0/T) = 1 is still added to Fcent |
| Kinetics.SentinelT2DropsTerm | rmgweb/media/kinetics.js:363-364 | only T2 = 1e100 leaves the T2 term out of Fcent |
| StatMech.BesselI0Even | rmgweb/static/js/statmech.js:34-46 | I0 is even with I0(0) = 1, on both branches of the polynomial approximation |
| StatMech.BesselI1Odd | rmgweb/static/js/statmech.js:54-68 | I1 is odd with I1(0) = 0, on both branches of the polynomial approximation |
| StatMech.AgmStep | rmgweb/static/js/statmech.js:78-82 | one step of the arithmetic-geometric mean keeps 0 <= G <= A and at least halves the gap, so the loop ends |
| StatMech.AgmMean | rmgweb/static/js/statmech.js:78-82 | the mean the loop stops on lies between the starting G and A, and is positive when A is |
| StatMech.CompleteEllipticK | rmgweb/static/js/statmech.js:74-85 | the integral is never below pi/2, is pi/2 at m = 0, and is pi/2 when (1 - m)(1 + m) < 0 because the NaN square root stops the loop at once |
| StatMech.Cellipk | rmgweb/static/js/statmech.js:74-85 | the AGM loop returns the integral the mean defines |
| StatMech.Convolution | rmgweb/static/js/statmech.js:92-140 | the result has one entry per energy |
| StatMech.Convolve | rmgweb/static/js/statmech.js:92-140 | the loops return the sum when both operands are present, a copy of the present one, or zeros |
| StatMech.FindPositive | rmgweb/static/js/statmech.js:101-118 | the scan finds an operand exactly when its length matches and some entry is > 0 |
| StatMech.AccumulateEntry | rmgweb/static/js/statmech.js:122-126 | the inner loop accumulates the r + 1 terms of entry r and changes no other entry |
| StatMech.ConvolutionTermsFactor | rmgweb/static/js/statmech.js:123-125 | the first n terms of entry r are the sum of n entries of rho2 ending at r, times rho1[r], times dE |
| StatMech.ConvolutionFactorizes | rmgweb/static/js/statmech.js:120-127 | with both operands present, entry r is (rho2[0] + ... + rho2[r]) rho1[r] dE, a running sum of the second operand scaled by the first operand's own entry |
| StatMech.ConvolutionWithAbsent | rmgweb/static/js/statmech.js:128-138 | an operand with no positive entry leaves the other unchanged, and two absent operands give zeros |
| StatMech.NewTranslation | rmgweb/static/js/statmech.js:147-150 | an omitted mass is 0 |
| StatMech.NewRigidRotor | rmgweb/static/js/statmech.js:199-207 | omitted arguments give a nonlinear rotor with no moments and symmetry 1; the symmetry is never 0 |
| StatMech.NewHarmonicOscillator | rmgweb/static/js/statmech.js:291-294 | omitted frequencies give the empty list |
| StatMech.NewHinderedRotor | rmgweb/static/js/statmech.js:377-408 | the symmetry is never 0, and a rotor missing either Fourier list uses the cosine potential |
| StatMech.TranslationDensity | rmgweb/static/js/statmech.js:185-192 | the density has one entry per energy, and every entry is NaN because `Math.pi` is undefined |
| StatMech.TranslationDensityIsIgnored | rmgweb/static/js/statmech.js:185-192 | no entry of the translational density is > 0, so convolving it in never changes a density |
| StatMech.GetRotationalTemperatureProduct | rmgweb/static/js/statmech.js:250-254 | the loop returns the product of one rotational temperature per moment of inertia |
| StatMech.ClassicalModes | rmgweb/static/js/statmech.js:155-235 | translation and rigid rotation have H = Cv T, and S = R ln(Q + Cv/R) |
| StatMech.RigidRotorDensity | rmgweb/static/js/statmech.js:263-283 | one entry per energy: all NaN for a linear rotor without a moment of inertia, all numbers otherwise |
| StatMech.GetRigidRotorPartitionFunction | rmgweb/static/js/statmech.js:241-257 | the method returns T/(theta sigma) for a linear rotor and sqrt(pi T^n / theta)/sigma otherwise |
| StatMech.GetRigidRotorDensity | rmgweb/static/js/statmech.js:263-283 | the loop, which recomputes the rotational temperature at every energy, returns the rotor's density |
| StatMech.OscillatorHeatCapacitiesAdd | rmgweb/static/js/statmech.js:299-308 | the heat capacity of two joined frequency lists is the sum of theirs |
| StatMech.OscillatorEnthalpiesAdd | rmgweb/static/js/statmech.js:313-321 | the enthalpy of two joined frequency lists is the sum of theirs |
| StatMech.OscillatorPartitionFunctionsCompose | rmgweb/static/js/statmech.js:339-346 | the partition function of a + b is that of a further divided by the factor 1 - exp(-x) of each frequency in b |
| StatMech.GetOscillatorsHeatCapacity | rmgweb/static/js/statmech.js:299-308 | the loop returns R times the sum of x^2 e^x / (1 - e^x)^2 |
| StatMech.GetOscillatorsEnthalpy | rmgweb/static/js/statmech.js:313-321 | the loop returns R T times the sum of x/(e^x - 1) |
| StatMech.GetOscillatorsPartitionFunction | rmgweb/static/js/statmech.js:339-346 | the loop returns 1 divided once by 1 - exp(-x) for each frequency |
| StatMech.GetOscillatorsEntropy | rmgweb/static/js/statmech.js:326-334 | the loop returns R (ln Q + sum of x/(e^x - 1)) |
| StatMech.Stack | rmgweb/static/js/statmech.js:363-366 | one sweep keeps the length; a positive offset leaves the entries below it alone, and a negative one leaves NaN wherever the read runs past the end |
| StatMech.OscillatorsDensity | rmgweb/static/js/statmech.js:352-369 | the density has one entry per energy |
| StatMech.GetOscillatorsDensity | rmgweb/static/js/statmech.js:352-369 | the method copies rho0 into a new array and sweeps it in place once per frequency, returning the density the sweeps define; rho0 is only read |
| StatMech.SweepInPlace | rmgweb/static/js/statmech.js:364-366 | the in-place sweep rho[r] += rho[r - dr] for increasing r leaves the array equal to one sweep of its old contents |
| StatMech.StackedSumDominates | rmgweb/static/js/statmech.js:364-366 | a sweep over nonnegative entries keeps them real and never lowers one |
| StatMech.StackedSumOfZeros | rmgweb/static/js/statmech.js:364-366 | a sweep over zeros leaves zeros |
| StatMech.SweepsDominate | rmgweb/static/js/statmech.js:362-367 | the sweeps never lower an entry of a nonnegative density and leave an all-zero density all zero |
| StatMech.SweepsKeepLowEntries | rmgweb/static/js/statmech.js:362-367 | entries below every oscillator's offset keep their starting value |
| StatMech.SweptDensityAppend | rmgweb/static/js/statmech.js:362-367 | sweeping a + b is sweeping a and then b |
| StatMech.OscillatorsDensityCompose | rmgweb/static/js/statmech.js:352-369 | two oscillator sets applied one after the other give the density of the one set holding both frequency lists |
| StatMech.HinderedRotorFrequency | rmgweb/static/js/statmech.js:411-419 | the cosine branch gives a frequency; the Fourier branch raises, because `Math.sum` does not exist |
| StatMech.HinderedRotorPotential | rmgweb/static/js/statmech.js:425-436 | the cosine branch gives V0 (1 - cos(sigma phi))/2; the Fourier branch raises |
| StatMech.PotentialZeroAtOrigin | rmgweb/static/js/statmech.js:433-434 | the cosine potential is 0 at phi = 0 |
| StatMech.HinderedRotorPartitionFunction | rmgweb/static/js/statmech.js:520-536 | an error exactly on the Fourier branch |
| StatMech.HinderedRotorHeatCapacity | rmgweb/static/js/statmech.js:441-463 | an error exactly on the Fourier branch |
| StatMech.HinderedRotorEnthalpy | rmgweb/static/js/statmech.js:470-488 | an error exactly on the Fourier branch |
| StatMech.HinderedRotorEntropy | rmgweb/static/js/statmech.js:495-513 | an error exactly on the Fourier branch |
| StatMech.HinderedRotorDensityAt | rmgweb/static/js/statmech.js:545-557 | an entry is 0 for the Fourier potential and 0 exactly at the barrier; below and above it the integral is used |
| StatMech.HinderedRotorDensity | rmgweb/static/js/statmech.js:543-560 | the density has one entry per energy |
| StatMech.HinderedRotorDensityEntry | rmgweb/static/js/statmech.js:546-556 | the entry the loop computes, calling `cellipk` below or above the barrier, is the density entry |
| StatMech.GetHinderedRotorDensity | rmgweb/static/js/statmech.js:543-560 | the loop returns the hindered-rotor density |
| States.NewStatesModel | rmgweb/static/js/statmech.js:568-573 | omitted modes give the empty list and an omitted spin multiplicity 1; the multiplicity is never 0 |
| States.UseActiveKRotor | rmgweb/static/js/statmech.js:608-614 | the loop answers true exactly when no mode is a translation or a rigid rotor |
| States.ModeValue | rmgweb/static/js/statmech.js:578-633 | one mode's value raises exactly for a hindered rotor with a Fourier potential |
| States.Accumulate | rmgweb/static/js/statmech.js:578-605 | the loop over the modes raises exactly when some mode is a Fourier rotor |
| States.Evaluate | rmgweb/static/js/statmech.js:578-633 | Cp = R + sum Cv, H = RT + sum H, S = sum S and Q = [K-rotor] prod Q times the spin multiplicity, each raising exactly when some mode is a Fourier rotor |
| States.GetModeValue | rmgweb/static/js/statmech.js:580-582 | the method returns the mode's value as the model defines it |
| States.AccumulateModes | rmgweb/static/js/statmech.js:578-605 | the loop returns the accumulated value |
| States.GetHeatCapacity | rmgweb/static/js/statmech.js:578-584 | the method returns the model's heat capacity |
| States.GetEnthalpy | rmgweb/static/js/statmech.js:589-595 | the method returns the model's enthalpy |
| States.GetEntropy | rmgweb/static/js/statmech.js:600-606 | the method returns the model's entropy |
| States.GetPartitionFunction | rmgweb/static/js/statmech.js:619-633 | the method returns the model's partition function |
| States.ActiveKRotorAppend | rmgweb/static/js/statmech.js:608-614 | a K-rotor is active for a + b exactly when it is active for both |
| States.AccumulateAppend | rmgweb/static/js/statmech.js:578-605 | running the loop over a + b is running it over a and then over b from where it stopped |
| States.AccumulateFromUnit | rmgweb/static/js/statmech.js:578-605 | a run started from c is c combined with the run started from the unit |
| States.HasFourierRotorAppend | rmgweb/static/js/statmech.js:578-605 | a + b holds a Fourier rotor exactly when a or b does |
| States.AccumulateSplit | rmgweb/static/js/statmech.js:578-605 | the run over a + b is the start combined with the unit runs over a and over b |
| States.AccumulateCommutes | rmgweb/static/js/statmech.js:578-605 | the run over a + b equals the run over b + a |
| States.ModeOrderIrrelevant | rmgweb/static/js/statmech.js:578-633 | Cp, H, S and Q do not depend on the order of the modes |
| States.Zeros | rmgweb/static/js/statmech.js:643-644 | a zero array of the grid's length |
| States.PositiveEnd | rmgweb/static/js/statmech.js:648-653 | the length of the K-rotor array: one past the last positive energy, and 0 when there is none |
| States.KRotorDensity | rmgweb/static/js/statmech.js:647-655 | the K-rotor array ends after the last positive energy and has a value exactly at the positive energies, holes elsewhere |
| States.GetKRotorDensity | rmgweb/static/js/statmech.js:649-653 | the loop, which assigns past the end of the array, builds that K-rotor array |
| States.ModeDensity | rmgweb/static/js/statmech.js:658-663 | a non-vibrational mode's density has one entry per energy |
| States.StartDensity | rmgweb/static/js/statmech.js:643-655 | the zero density, convolved with the K-rotor's when active, has one entry per energy |
| States.ConvolveModes | rmgweb/static/js/statmech.js:658-663 | convolving in the non-vibrational modes keeps the grid's length |
| States.SweepModes | rmgweb/static/js/statmech.js:666-670 | sweeping in the vibrational modes keeps the grid's length |
| States.Density | rmgweb/static/js/statmech.js:640-673 | the density of states has one entry per energy |
| States.SweepModesMerge | rmgweb/static/js/statmech.js:666-670 | the vibrational modes act as one oscillator set holding all of their frequencies |
| States.DensityVibrationsLast | rmgweb/static/js/statmech.js:640-673 | the density is the direct count of all vibrations run on the convolution of the K-rotor (when active) and the other modes |
| States.KRotorEntryPositive | rmgweb/static/js/statmech.js:650-651 | a positive energy gives a positive K-rotor entry |
| States.StartDensityIsKRotor | rmgweb/static/js/statmech.js:646-655 | the density the mode loop starts from is the K-rotor's when it is active and the last energy is positive, and zero otherwise: a K-rotor array shorter than the grid is dropped by the convolution |
| States.GetModeDensity | rmgweb/static/js/statmech.js:660 | the method returns the mode's density |
| States.GetDensityOfStates | rmgweb/static/js/statmech.js:640-673 | the three loops return the model's density of states |
| States.ConvolveAll | rmgweb/static/js/statmech.js:658-663 | the loop returns the convolution of the non-vibrational modes in list order |
| States.SweepAll | rmgweb/static/js/statmech.js:666-670 | the loop returns the direct count of the vibrational modes in list order |
| MainViews.Rejected | rmgweb/main/views.py:103-110 | the first pass collects exactly the listed names that are not regular files or start with '.' |
| MainViews.Without | rmgweb/main/views.py:111-112 | the names of the listing not on the removal list, in order |
| MainViews.RemoveFirst | rmgweb/main/views.py:112 | `list.remove` of a present name removes exactly one entry |
| MainViews.Visible | rmgweb/main/views.py:101-112 | the shown names are exactly the listed regular files not starting with '.' |
| MainViews.RemoveFirstWithout | rmgweb/main/views.py:111-112 | in a listing without repeats, removing one more collected name is filtering it out |
| MainViews.WithoutRejected | rmgweb/main/views.py:103-112 | filtering out the collected names leaves exactly the visible ones |
| MainViews.RejectedDistinct | rmgweb/main/views.py:103-110 | the removal list of a listing without repeats has no repeats |
| MainViews.SortNames | rmgweb/main/views.py:117 | `files.sort()` gives the same names in ascending order |
| MainViews.Root | rmgweb/main/views.py:119 | the root and the extension put back together give the file name |
| MainViews.Slice | rmgweb/main/views.py:122 | a clamped slice is no longer than its bounds allow |
| MainViews.ParseAll | rmgweb/main/views.py:118-125 | one row per file |
| MainViews.ParseAllEntry | rmgweb/main/views.py:118-125 | row k is parsed from file k |
| MainViews.ParseRows | rmgweb/main/views.py:118-125 | the loop returns one parsed row per sorted file, in order |
| MainViews.CollectRejected | rmgweb/main/views.py:103-110 | the loop collects the names that are not regular files or are hidden |
| MainViews.RemoveStep | rmgweb/main/views.py:111-112 | each `files.remove(item)` removes exactly the next collected name |
| MainViews.DropHidden | rmgweb/main/views.py:101-112 | both passes together leave exactly the visible names |
| MainViews.Resources | rmgweb/main/views.py:94-126 | no rows without the folder; otherwise one row per visible file, sorted and parsed |
| MainViews.PresentationsShownSorted | rmgweb/main/views.py:94-126 | every row links a listed regular non-hidden file, and rows come in ascending file-name order |
| MainViews.EveryShownFileListed | rmgweb/main/views.py:94-126 | every visible file gets a row |
| MainViews.DateKeepsDigits | rmgweb/main/views.py:121-122 | a date part of at least six characters comes back with '-' after its fourth and sixth characters |
| MainViews.TitleFree | rmgweb/main/views.py:120-124 | a title never holds '_' or '+' |
| MainViews.NameConvention | rmgweb/main/views.py:119-125 | a file 'date_words.ext' gives that date cut by the date rule and the words with each '+' read as " and " |
| MainViews.TitleWithoutPlus | rmgweb/main/views.py:123-124 | without '+', the title is the parts after the date joined by single spaces |
| MainViews.LStripChar | rmgweb/main/views.py:418 | stripping on the left removes exactly the leading run of the character |
| MainViews.RStripChar | rmgweb/main/views.py:418 | stripping on the right removes exactly the trailing run of the character |
| MainViews.AnalyzeElementError | rmgweb/main/views.py:415-422 | the status is 501 or 400 |
| MainViews.StripQuoted | rmgweb/main/views.py:418 | stripping the quotes from a quoted symbol gives the symbol back |
| MainViews.ElementErrorStatus | rmgweb/main/views.py:415-422 | a quoted symbol is reported 501 exactly when it is in the periodic table, and 400 otherwise |
| MainViews.PlaceholderIsElement | rmgweb/main/views.py:52-58 | the placeholder 'X' counts as an element |
| MainViews.SymbolsShort | rmgweb/main/views.py:52-58 | every symbol of the table has one or two characters |
| MainViews.LongSymbolInvalid | rmgweb/main/views.py:415-422 | a quoted name of three or more characters is reported as invalid (400) |
| MainViews.TitleFrom | rmgweb/main/views.py:434 | `str.title()` keeps the length |
| MainViews.MatchIndex | rmgweb/main/views.py:433-435 | the search stops at the first candidate that matches, or at the last one when none does, and is -1 only for no candidates |
| MainViews.MatchIndexAt | rmgweb/main/views.py:433-435 | the search stops at i when nothing before i matches and i matches or is last |
| MainViews.FindElement | rmgweb/main/views.py:433-435 | the loop leaves the element at the stopping candidate, and unbound when there are no candidates |
| MainViews.TwoLettersFirst | rmgweb/main/views.py:63-69 | two-letter symbols are tried first, so a matching two-letter symbol wins over every one-letter one |
| MainViews.ChlorineBeatsCarbon | rmgweb/main/views.py:433-435 | in 'Cl1s' chlorine is found although carbon's symbol also occurs |
| MainViews.Classify | rmgweb/main/views.py:442-464 | 501 exactly when the orbitals stay within the bound (4 for an octet element, 6 otherwise) and the valence electrons balance; 400 otherwise |
| MainViews.AnalyzeAtomtypeError | rmgweb/main/views.py:425-464 | the method returns the outcome the error message, counts and candidate lists define |
| MainViews.UnsupportedElementIgnoresCounts | rmgweb/main/views.py:436-438 | an element without a valence entry gives 501 before the counts are read |
| MainViews.BalancedAtomsUnsupported | rmgweb/main/views.py:442-464 | methane's carbon and water's oxygen balance and are reported as an unsupported atom type (501) |
| MainViews.OctetAndExpandedOctet | rmgweb/main/views.py:446-455 | carbon with five single bonds breaks the octet rule, and sulfur may use six orbitals but not seven |
| MainViews.DispatchOrder | rmgweb/main/views.py:226-270 | after stripping, empty input gets an empty answer; an InChI is read, sent to the atom-type or element analyzer, or left uncaught; known names come next; a SMILES read goes to the same analyzers, and only IOError or ValueError reaches the resolver: each route exactly when its conditions hold |
| MainViews.KnownNamesIgnoreCase | rmgweb/main/views.py:215-248 | known names match ignoring case and never reach the SMILES reader, whatever it would do |
| PyText.LowerIsLowerCase | rmgweb/main/views.py:247-248 | lower-casing leaves no capital, so lower-casing twice is lower-casing once |
| PyText.StripEmptyIffBlank | rmgweb/main/views.py:226-230 | a string strips to "" exactly when it is all whitespace |
| PyText.Words | rmgweb/rmg/models.py:287-288 | `split()` gives the maximal runs of non-whitespace: none is empty and none holds whitespace |
| PyText.WordsOfBlank | rmgweb/rmg/models.py:281 | whitespace alone has no words |
| PyText.Find | rmgweb/rmg/models.py:289-291 | `find` gives the first occurrence, or none when the substring does not occur |
| PyText.Split | rmgweb/main/templatetags/universal.py:41-45 | `split(sep)` gives the pieces between the occurrences, none of which holds the separator |
| PyText.JoinSplit | rmgweb/main/templatetags/universal.py:41-45 | joining the pieces of a split with the same separator gives the string back |
| PyText.ReplaceAbsent | rmgweb/main/views.py:124 | replacing a substring that does not occur changes nothing |
| PyText.ReplaceCharFree | rmgweb/main/views.py:124 | a character absent from the replacement is absent from the result when it was the replaced one or absent from the input |
| PyText.JoinFree | rmgweb/main/views.py:123 | a character in neither the separator nor any part is not in the joined string |
| PyText.RFind | update_headers.py:46 | the index of the last occurrence of a character, or -1 |
| PyText.Extension | update_headers.py:46 | `splitext(path)[1]`: empty, or a suffix of the path that starts with '.' and holds no '/' |
| PyText.HiddenFileHasNoExtension | update_headers.py:93 | a name made only of dots before its one dot, such as `.py`, has no extension |
| PyText.SplitAtFirst | rmgweb/main/templatetags/render_kinetics.py:124 | splitting on a character cuts at its first occurrence |
| PyText.StripNoSpace | rmgweb/main/views.py:226 | text without whitespace strips to itself |
| PyText.ReplacePairFree | rmgweb/main/templatetags/render_kinetics.py:121 | replacing every doubled character by text free of it leaves no doubled character |
| RenderKinetics.NatStr | rmgweb/main/templatetags/render_kinetics.py:124-125 | `str(n)` of a natural number is a nonempty digit string whose value is n |
| RenderKinetics.IntStr | rmgweb/main/templatetags/render_kinetics.py:140 | `str(n)` of an integer is nonempty, without whitespace, and digits with at most a leading '-' |
| RenderKinetics.IntRoundTrip | rmgweb/main/templatetags/render_kinetics.py:124-125 | `int(str(n)) == n` |
| RenderKinetics.PartStep | rmgweb/main/templatetags/render_kinetics.py:122-131 | a part that fails to read ends the reading with its error; any other part is recorded |
| RenderKinetics.RecordPart | rmgweb/main/templatetags/render_kinetics.py:128-131 | the part's power is stored under its dimension, negated in a denominator |
| RenderKinetics.ReadFraction | rmgweb/main/templatetags/render_kinetics.py:122-131 | the inner loop records the parts of one fraction in order, stopping at the first that fails |
| RenderKinetics.GetRateUnitDimensionality | rmgweb/main/templatetags/render_kinetics.py:74-133 | the loops return the dimensions the unit string defines, or the error of its first unreadable part |
| RenderKinetics.ConstructRateUnits | rmgweb/main/templatetags/render_kinetics.py:136-180 | the loop over the map returns the unit string the dimensions define, or ValueError |
| RenderKinetics.AddConcDim | rmgweb/main/templatetags/render_kinetics.py:192-201 | the extra inverse concentration adds 3 to length and -1 to mol, creating either if absent, and leaves time alone |
| RenderKinetics.ReconstructRateUnits | rmgweb/main/templatetags/render_kinetics.py:183-221 | read the units, add the concentration dimension when asked, and rebuild them in the chosen base units |
| RenderKinetics.RateCoefficientUnits | rmgweb/main/templatetags/render_kinetics.py:250-267 | dimensionless kinetics give ('', '', 1); otherwise the high- and low-pressure units rebuilt in the user's base units |
| RenderKinetics.ArrheniusShape | rmgweb/main/templatetags/render_kinetics.py:59-71 | the temperature factor is left out exactly when n = 0 and is reduced by T0 exactly when T0 != 1; the exponential is left out exactly when Ea = 0 and its sign follows Ea |
| RenderKinetics.PlotWindow | rmgweb/main/templatetags/render_kinetics.py:526-543 | equal temperature bounds are widened by 5 K each way around the same centre, distinct ones are kept, and missing ranges default to 300-2000 K and 1e3-1e7 Pa |
| RenderKinetics.NormalizeKeeps | rmgweb/main/templatetags/render_kinetics.py:116 | text without a doubled '*' is left as it is |
| RenderKinetics.NormalizeIdempotent | rmgweb/main/templatetags/render_kinetics.py:116 | replacing '**' by '^' twice is doing it once |
| RenderKinetics.SpellingsAgree | rmgweb/main/templatetags/render_kinetics.py:116-133 | a unit string and its '^' spelling read as the same dimensions |
| RenderKinetics.PowerPart | rmgweb/main/templatetags/render_kinetics.py:123-125 | a part 'unit^n' reads as that unit's dimension with power n |
| RenderKinetics.BarePart | rmgweb/main/templatetags/render_kinetics.py:126-127 | a part without '^' reads as its unit's dimension with power 1 |
| RenderKinetics.PieceRead | rmgweb/main/templatetags/render_kinetics.py:151-169 | a base unit with the exponent written after it reads back with the magnitude of the power |
| RenderKinetics.LaterPartWins | rmgweb/main/templatetags/render_kinetics.py:131 | a dimension met twice in a fraction keeps the last power: powers overwrite and do not add up |
| RenderKinetics.UnknownUnitFails | rmgweb/main/templatetags/render_kinetics.py:50-56 | a unit outside the table makes the reading fail with KeyError |
| RenderKinetics.ReadThreeFractions | rmgweb/main/templatetags/render_kinetics.py:118-131 | in 'a/b/c' the third fraction counts as a numerator again, so its power is +1 |
| RenderKinetics.SettingsUseTable | rmgweb/main/templatetags/render_kinetics.py:204-219 | each of the four settings names units from the table |
| RenderKinetics.UnknownSettingFails | rmgweb/main/templatetags/render_kinetics.py:204-221 | an unknown setting leaves no base units, so nothing is rebuilt |
| RenderKinetics.ReadProduct | rmgweb/main/templatetags/render_kinetics.py:114-133 | 'length/(mol*time)' reads with the length power as written and the mol and time powers negated |
| RenderKinetics.ReadBackOne | rmgweb/main/templatetags/render_kinetics.py:143-146 | the string of a one-dimension construction reads back as that dimension |
| RenderKinetics.ConstructedThree | rmgweb/main/templatetags/render_kinetics.py:147-176 | a three-dimension construction that succeeds has all three dimensions, length at least 1 and mol and time at most 1, and writes 'length/(mol*time)' |
| RenderKinetics.ReadBackThree | rmgweb/main/templatetags/render_kinetics.py:147-176 | that string reads back with the length power and the negated magnitudes of the mol and time powers |
| RenderKinetics.IntendedRoundTrip | rmgweb/main/templatetags/render_kinetics.py:136-180 | with the signs the comments demand, every string built reads back as the dimensions it was built from |
| RenderKinetics.IntendedAgreesWithWritten | rmgweb/main/templatetags/render_kinetics.py:136-180 | what the intended check accepts, the check as written accepts and writes the same way |
| RenderKinetics.ReconstructKeepsOwnOutput | rmgweb/main/templatetags/render_kinetics.py:183-221 | units written in a setting are rebuilt in that setting to the same string |
| RenderKinetics.MolPowerOneMisread | rmgweb/main/templatetags/render_kinetics.py:160-164 | the mol test as written lets a power of +1 through and writes it like -1, so the string reads back with mol -1 |
| RenderKinetics.SecondOrderRoundTrip | rmgweb/main/templatetags/render_kinetics.py:183-221 | 'm^3/(mol*s)' is rebuilt in SI units unchanged |
| RenderKinetics.FirstOrderRead | rmgweb/main/templatetags/render_kinetics.py:114-146 | 's^-1' reads as time -1 and is written back as 's^-1' |
| RenderKinetics.FirstOrderRoundTrip | rmgweb/main/templatetags/render_kinetics.py:183-221 | 's^-1' is rebuilt unchanged |
| RenderKinetics.ConcentrationAdded | rmgweb/main/templatetags/render_kinetics.py:183-221 | rebuilding with the concentration dimension rebuilds the read powers with length +3 and mol -1 added |
| RenderKinetics.FirstOrderWithConcentration | rmgweb/main/templatetags/render_kinetics.py:192-201 | with the concentration dimension, first-order units become second-order units |
| DbTools.FileModified | rmgweb/database/tools.py:124-146 | a path that is not a file is modified exactly when it was recorded; a file is modified when it was not recorded or its time differs from the recorded one |
| DbTools.StampedValues | rmgweb/database/tools.py:115-122 | recording the walked files sets each to its current time and leaves every other record as it was |
| DbTools.StampedWalkUnmodified | rmgweb/database/tools.py:115-146 | right after recording, no walked file is modified |
| DbTools.ResetClean | rmgweb/database/tools.py:148-164 | after recording, a directory is unmodified exactly when every recorded path under it that the walk did not list still exists with its recorded time |
| DbTools.StaleEntryKeepsReloading | rmgweb/database/tools.py:115-164 | a recorded file that has since been deleted keeps its directory modified even after the times are recorded again |
| DbTools.Pruned | rmgweb/database/tools.py:148-164 | the records under the directory that the walk no longer lists are forgotten and every other record is kept |
| DbTools.PrunedResetIsClean | rmgweb/database/tools.py:148-164 | with vanished records forgotten, a directory is unmodified right after its times are recorded |
| DbTools.PresentMembers | rmgweb/database/tools.py:191 | the kept labels are the preferred ones that occur in the order |
| DbTools.OthersMembers | rmgweb/database/tools.py:192-194 | the appended labels are those of the order that are not preferred |
| DbTools.ReorderLibraries | rmgweb/database/tools.py:184-195 | the method returns the preferred libraries that are present, then the others |
| DbTools.KeepPresent | rmgweb/database/tools.py:191 | the comprehension keeps the preferred labels that occur, in preferred order |
| DbTools.AppendRest | rmgweb/database/tools.py:192-194 | the loop appends each label of the order not yet held |
| DbTools.AppendMissingFilters | rmgweb/database/tools.py:192-194 | with distinct labels, the loop appends exactly the labels not held, in order |
| DbTools.ReorderedShape | rmgweb/database/tools.py:184-195 | for distinct labels the new order is the present preferred labels in preferred order, then the other labels in their old order |
| DbTools.ReorderedIsPermutation | rmgweb/database/tools.py:184-195 | for distinct labels the new order is a permutation of the old one |
| DbTools.PlanChoices | rmgweb/database/tools.py:168-255 | `load()` considers every section, and `load('thermo', '')` exactly the thermo sections |
| DbTools.UnknownComponentLoadsNothing | rmgweb/database/tools.py:168-255 | an unknown component selects no section |
| DbTools.RMGWebDatabase.constructor | rmgweb/database/tools.py:61-72 | a new wrapper has no recorded times |
| DbTools.RMGWebDatabase.ResetTimestamp | rmgweb/database/tools.py:108-113 | the file's current time is recorded, and nothing else changes |
| DbTools.RMGWebDatabase.ResetDirTimestamps | rmgweb/database/tools.py:115-122 | every walked file's current time is recorded, and nothing else changes |
| DbTools.RMGWebDatabase.IsDirModified | rmgweb/database/tools.py:148-164 | the loops answer whether the directory is modified, and `to_check.remove` never raises |
| DbTools.RMGWebDatabase.LoadSection | rmgweb/database/tools.py:173-176 | a section is read again exactly when its directory is modified, and then its times are recorded |
| DbTools.RMGWebDatabase.LoadOne | rmgweb/database/tools.py:172-255 | one section read again exactly when modified; reading the thermo libraries again sets them in the preferred order |
| DbTools.RMGWebDatabase.LoadPlanned | rmgweb/database/tools.py:168-255 | the sections read are exactly those of the plan modified at their turn (`PlannedReload`), the new times record each of them in turn, none is read when no directory is modified, and the library order changes only when the thermo libraries were read |
| DbTools.RMGWebDatabase.Load | rmgweb/database/tools.py:168-255 | the sections read are exactly those `LoadReload` gives, each considered and modified at its turn, the kinetics families followed by the thermo sections; the new times record them in turn; only selected sections are read apart from that thermo load, and nothing when nothing is modified |
| DbTools.RMGWebDatabase.LoadTurn | rmgweb/database/tools.py:168-255 | one turn reads what `LoadHere` gives for the times before it and records those sections' times |
| DbTools.RMGWebDatabase.LoadSections | rmgweb/database/tools.py:168-255 | the turns over a list of sections read what `LoadReload` gives and record their times in turn |
| DbTools.PlannedReloadModifiedAtTurn | rmgweb/database/tools.py:168-255 | every section a plan reads again is one of the plan's and is modified given the times recorded by those read before it |
| DbTools.PlannedReloadFirst | rmgweb/database/tools.py:172-176 | a plan reads its first section again first exactly when that section's directory is modified |
| DbTools.QuietPlanReloadsNothing | rmgweb/database/tools.py:172-176 | a plan none of whose directories is modified reads nothing |
| DbTools.LoadReloadSelects | rmgweb/database/tools.py:168-255 | `load` reads only considered sections, and thermo sections only after the kinetics families |
| DbTools.LoadReloadQuiet | rmgweb/database/tools.py:168-255 | with no considered section modified, `load` reads nothing |
| DbTools.StampedAllAppend | rmgweb/database/tools.py:148-152 | recording two runs of sections is recording one run and then the other |
| DbTools.RepeatLoadIsQuiet | rmgweb/database/tools.py:168-255 | with no file changes, loading a section twice reads it at most once |
| DbTools.Entry | rmgweb/database/tools.py:257-273 | a lookup succeeds exactly when the subsection is a key, and a `KeyError` becomes an invalid subsection |
| DbTools.GetTransportDatabase | rmgweb/database/tools.py:257-273 | libraries or groups looked up by subsection; any other section is invalid |
| DbTools.GetSolvationDatabase | rmgweb/database/tools.py:275-293 | '' gives the whole database, libraries or groups are looked up, and any other section is invalid |
| DbTools.GetComponentDatabase | rmgweb/database/tools.py:295-333 | depository, libraries or groups looked up by subsection; any other section is invalid |
| DbTools.FirstLabelled | rmgweb/database/tools.py:355 | `next(...)` finds the first depository with the label, or none when no depository has it |
| DbTools.GetKineticsDatabase | rmgweb/database/tools.py:335-360 | libraries are looked up; families take 'family/part' and give `None` for any other shape; any other section is invalid |
| DbTools.FamilyWithoutSlashIsNone | rmgweb/database/tools.py:346-347 | a families subsection without '/' gives `None` |
| DbTools.FamilyWithEmptyNameIsNone | rmgweb/database/tools.py:347 | a families subsection with an empty family name gives `None` |
| DbTools.FamilyWithTwoSlashesIsNone | rmgweb/database/tools.py:347 | a families subsection with two '/' gives `None` |
| DbTools.FamilySubsection | rmgweb/database/tools.py:346-355 | 'family/part' with a nonempty family name names that part of the family |
| DbTools.FamilyGroups | rmgweb/database/tools.py:349-350 | 'family/groups' names the family's groups |
| DbTools.FamilyRules | rmgweb/database/tools.py:351-352 | 'family/rules' names the family's rules |
| DbTools.UnknownFamilyInvalid | rmgweb/database/tools.py:348 | a family that does not exist makes the subsection invalid (the error is raised at lines 358-359) |
| DbUrls.PatternShape | rmgweb/database/urls.py:125-140 | a generated pattern is the page prefix, then reactant1, and ends with '$' |
| DbUrls.LeadsWithReactant1 | rmgweb/database/urls.py:127 | the first fragment of every generated pattern is reactant1 |
| DbUrls.Product | rmgweb/database/urls.py:125 | `itertools.product([1, 0], repeat=n)` draws 2^n combinations of n flags |
| DbUrls.ProductComplete | rmgweb/database/urls.py:125 | every combination of n flags is drawn at some position |
| DbUrls.ProductEnds | rmgweb/database/urls.py:125 | the first combination drawn has every flag set, so the most specific pattern comes first, and the last has none |
| DbUrls.FragmentAt | rmgweb/database/urls.py:115-123 | the fragment at position i of `url_parts` |
| DbUrls.SelectedMember | rmgweb/database/urls.py:127-139 | a fragment is chained exactly when its bit is set |
| DbUrls.SelectedOrdered | rmgweb/database/urls.py:127-139 | the chained fragments keep the order of `url_parts` |
| DbUrls.Mask | rmgweb/database/urls.py:125-177 | seven bits, one per fragment |
| DbUrls.FragmentsShape | rmgweb/database/urls.py:125-177 | reactant1 first, the fixed order, reactant3 only with reactant2, product3 only with product2, and product1 in every group pattern |
| DbUrls.GroupHasProduct1 | rmgweb/database/urls.py:170 | every group pattern chains product1 |
| DbUrls.FragmentsDetermineMask | rmgweb/database/urls.py:125-177 | two combinations chain the same fragments exactly when their masks agree |
| DbUrls.IgnoredFlags | rmgweb/database/urls.py:130-136 | without reactant2 the reactant3 flag is ignored, and without product2 the product3 flag, so the loops append duplicate patterns |
| DbUrls.BuildFragments | rmgweb/database/urls.py:126-140 | the loop body chains exactly the selected fragments |
| DbUrls.GeneratedRoutes | rmgweb/database/urls.py:125-179 | one route per combination, in order |
| DbUrls.GroupRoutesHaveProduct1 | rmgweb/database/urls.py:163-179 | every group route chains product1 |
| DbUrls.AppendGenerated | rmgweb/database/urls.py:125-179 | a generator loop appends one route per combination, in the order drawn, and leaves the existing routes unchanged |
| DbUrls.SectionSizes | rmgweb/database/urls.py:125-179 | the loops append 64 results, 64 reaction and 32 group patterns |
| DbViews.PreorderStep | rmgweb/database/views.py:738-743 | the listing from the k-th root on is that root, its children's listing, then the later roots' listing |
| DbViews.GetDatabaseTreeAsList | rmgweb/database/views.py:732-743 | the loop with its recursive call returns each root and then the listing of its children, root after root |
| DbViews.PreorderLength | rmgweb/database/views.py:732-743 | the listing holds as many entries as the forest |
| DbViews.PreorderMembers | rmgweb/database/views.py:732-743 | the listing holds exactly the entries of the forest |
| DbViews.SubtreeFollows | rmgweb/database/views.py:732-743 | depth first: every entry is listed at some position immediately followed by the listing of its own children |
| DbViews.MinPositive | rmgweb/database/views.py:637 | the least positive index, and none when no index is positive |
| DbViews.MaxPositive | rmgweb/database/views.py:639 | the greatest positive index, and none when no index is positive |
| DbViews.ResolveIndex | rmgweb/database/views.py:628-644 | 0 redirects to the least positive index and -1 to the greatest; any other index is shown when an entry has it and is a 404 otherwise; `min`/`max` of nothing raises |
| DbViews.ResolveEntryIndex | rmgweb/database/views.py:1839-1855 | the `for ... else: raise Http404` search and the `min`/`max` redirects give that resolution |
| DbViews.Max | rmgweb/database/views.py:1372 | the greatest element of a nonempty list |
| DbViews.NewIndexFresh | rmgweb/database/views.py:1371-1372 | a new index is greater than every existing one and no entry has it: one past the greatest, or 1 for an empty database |
| DbViews.NewIndexPositive | rmgweb/database/views.py:1617-1618 | in a database of positive indices a new index is positive, so the 0 and -1 redirects can reach it |
| DbViews.FirstIsomorphic | rmgweb/database/views.py:2116-2120 | the inner loop breaks at the first unique reaction isomorphic to the result, or finds none |
| DbViews.Tallied | rmgweb/database/views.py:2113-2122 | one count per unique reaction |
| DbViews.RemoveDuplicates | rmgweb/database/views.py:2113-2122 | the loop returns the tally of the results, taken from first to last |
| DbViews.TallyCounts | rmgweb/database/views.py:2113-2122 | every count is at least 1 and the counts add up to the number of results |
| DbViews.AddResultCounts | rmgweb/database/views.py:2115-2122 | one more result keeps every count positive and adds one to their sum |
| DbViews.TallyDistinct | rmgweb/database/views.py:2113-2122 | no unique reaction is isomorphic to an earlier one |
| DbViews.TallyCovers | rmgweb/database/views.py:2113-2122 | every unique reaction is one of the results, and every result is a unique reaction or isomorphic to one |
| DbViews.TallyGrows | rmgweb/database/views.py:2113-2122 | unique reactions keep the order of their first results |
| DbViews.GetReactionUrl | rmgweb/database/views.py:1313-1342 | the reactant loop, the product loop and the route give the reaction's URL |
| DbViews.GroupReactantGivesNoUrl | rmgweb/database/views.py:1322-1326 | a reactant that is a group or a logic node, bare or in an entry, gives the empty URL whatever the products, family and estimator |
| DbViews.UsableReactantArgs | rmgweb/database/views.py:1322-1328 | usable reactants add exactly their keys reactant1.., each bound to its molecule, and keep every other argument |
| DbViews.UsableProductArgs | rmgweb/database/views.py:1329-1331 | products add exactly their keys product1.., each bound to its molecule, and keep every other argument |
| DbViews.UrlArguments | rmgweb/database/views.py:1313-1342 | with usable participants the URL reverses `kinetics-data` without a family and `kinetics-group` with a family and an estimator, whose spaces become '_' |
| DbViews.RouteArguments | rmgweb/database/views.py:1333-1342 | resonance, and with a family the family and the estimator, are added to the collected arguments |
| DbViews.FamilyWithoutEstimator | rmgweb/database/views.py:1335-1340 | a family without an estimator gives the empty URL whenever no exception is raised |
| DbViews.GroupProductRaises | rmgweb/database/views.py:1329-1331 | products are not checked for groups: a group product after usable reactants raises instead of giving the empty URL |
| DbViews.ProductErrorAt | rmgweb/database/views.py:1329-1331 | the first product that fails decides the error |
| DbViews.CountTemplates | rmgweb/database/views.py:2177-2184 | the first pass counts the forward and the reverse rate-rule templates |
| DbViews.TemplateCounters | rmgweb/database/views.py:2186-2216 | the second pass gives each result its counter label |
| DbViews.CountMonotone | rmgweb/database/views.py:2177-2184 | counting over a longer prefix never counts less, and never more than the whole list |
| DbViews.CounterRange | rmgweb/database/views.py:2205-2216 | a counter is shown exactly for rate-rule templates of a direction that has more than one, and its k lies between 1 and n |
| DbViews.CountersIncrease | rmgweb/database/views.py:2205-2216 | later templates of the same direction get larger numbers, so no two share one |
| RmgModels.InChIHasWord | rmgweb/rmg/models.py:287-288 | a line holding `InChI` has a first word, so `split()[0]` never fails |
| RmgModels.CleanLine | rmgweb/rmg/models.py:287-291 | a cleaned line never holds '//'; a line with neither mark is kept whole, one without `InChI` keeps a prefix of itself, and one with it at most its first word and a newline |
| RmgModels.CommentDropsNewline | rmgweb/rmg/models.py:289-291 | a comment cut drops the line's newline, so the next line continues the same text |
| RmgModels.CreateOutput | rmgweb/rmg/models.py:279-292 | the loop over the lines returns the adjacency lists the dictionary reading finishes, in order |
| RmgModels.FinishedNotBlank | rmgweb/rmg/models.py:281-285 | every adjacency list handed to species conversion holds something other than whitespace |
| RmgModels.GatherPlain | rmgweb/rmg/models.py:286-292 | plain lines after a finished list are gathered unchanged into the next one |
| RmgModels.PlainTextNotBlank | rmgweb/rmg/models.py:281 | plain lines are never blank together |
| RmgModels.EmptyLineFinishes | rmgweb/rmg/models.py:281-285 | an empty line finishes an adjacency list that is not blank |
| RmgModels.DictionaryRoundTrip | rmgweb/rmg/models.py:272-292 | a file of adjacency lists, each followed by an empty line, splits back into exactly those lists with nothing left over |
| RmgModels.LastBlockNeedsBlankLine | rmgweb/rmg/models.py:279-292 | a last adjacency list with no empty line after it is gathered but never converted |
| RmgModels.SaveDatabases | rmgweb/rmg/models.py:708-720 | the loop over the rows saves seed mechanisms, edge and non-edge reaction libraries as the form defines |
| RmgModels.LoadDatabases | rmgweb/rmg/models.py:551-562 | the loops give one thermo row per library, the seed mechanisms first with edge cleared, then the reaction libraries with their edge flags |
| RmgModels.EdgeLibrariesConcat | rmgweb/rmg/models.py:713-720 | saved reaction libraries and seed names of joined rows are those of each part joined |
| RmgModels.SeedRowsSaved | rmgweb/rmg/models.py:557-559 | seed rows save as seed mechanisms only (saving side: lines 719-720) |
| RmgModels.EdgeRowsSaved | rmgweb/rmg/models.py:560-562 | library rows save as reaction libraries with their edge flag only (saving side: lines 715-718) |
| RmgModels.DatabasesReload | rmgweb/rmg/models.py:551-562 | loading an input file's libraries and saving the form gives the same libraries back (saving side: lines 708-720) |
| RmgModels.LoadedRowsSplit | rmgweb/rmg/models.py:551-562 | reloading the saved seed names gives the seed rows with edge cleared, and reloading the libraries gives the other rows (saving side: lines 708-720) |
| RmgModels.DatabasesRegrouped | rmgweb/rmg/models.py:551-562 | saving and loading again keeps the thermo libraries and every reaction-library row, but lists the seed mechanisms first, each with its edge box cleared (saving side: lines 708-720) |
| RmgModels.NoSeedRowsKept | rmgweb/rmg/models.py:551-562 | rows with no seed mechanism come back exactly as they were (saving side: lines 708-720) |
| RmgModels.LookUpLabelsOk | rmgweb/rmg/models.py:749-753 | the lookup succeeds exactly when every stripped piece is a known label |
| RmgModels.LookUpLabelsFound | rmgweb/rmg/models.py:752-753 | a successful lookup gives the stripped pieces, in order |
| RmgModels.LookUpLabelsFirstMissing | rmgweb/rmg/models.py:752-753 | a failed lookup raises KeyError for the first piece that is not a known label |
| RmgModels.LookUpStops | rmgweb/rmg/models.py:752-753 | the pieces after the first missing label change nothing |
| RmgModels.SensitiveSpecies | rmgweb/rmg/models.py:748-753 | the loop over the pieces of the sensitivity text gives the sensitive species or the first missing label |
| RmgModels.SplitJoinedLabels | rmgweb/rmg/models.py:583 | splitting comma-joined pieces that hold no comma gives the pieces back (saving side: line 751) |
| RmgModels.SensitivityRoundTrip | rmgweb/rmg/models.py:580-588 | nonempty, comma-free, stripped, known labels survive a load and a save, and the threshold with them; with no labels the threshold falls back to 0.001 (saving side: lines 748-753) |
| RmgModels.LoadInterpolation | rmgweb/rmg/models.py:624-628 | the name is lower-cased; for Chebyshev the second and third entries are the basis sizes, and a shorter tuple raises IndexError |
| RmgModels.SaveInterpolation | rmgweb/rmg/models.py:776-780 | (name, temperature basis, pressure basis) for exactly 'chebyshev', (name,) otherwise |
| RmgModels.InterpolationRoundTrip | rmgweb/rmg/models.py:624-628 | a form saved and loaded again shows the same interpolation, and basis sizes exactly for Chebyshev (saving side: lines 776-780) |
| RmgModels.InterpolationReload | rmgweb/rmg/models.py:624-628 | an input file's lower-case interpolation model with two basis sizes for Chebyshev and none otherwise is saved back unchanged (saving side: lines 776-780) |
| RmgModels.SaveRestartPeriod | rmgweb/rmg/models.py:799 | a period is saved exactly when the field is set and nonzero, and it loads back with its units (loading side: lines 683-685) |
| RmgModels.AllowedBoxOfMeaning | rmgweb/rmg/models.py:652-654 | a name stands for a box exactly when, lower-cased, it is that box's name |
| RmgModels.TickedBoxesOk | rmgweb/rmg/models.py:650-654 | ticking succeeds exactly when every name stands for a box |
| RmgModels.TickedBoxesContents | rmgweb/rmg/models.py:650-654 | a successful ticking ticks exactly the boxes named |
| RmgModels.TickedBoxesFirstError | rmgweb/rmg/models.py:652-653 | a failed ticking raises KeyError for the first name that stands for no box |
| RmgModels.TickingStops | rmgweb/rmg/models.py:652-653 | the names after the first unknown one change nothing |
| RmgModels.TickAllowed | rmgweb/rmg/models.py:650-654 | the loop over the `allowed` list gives the ticked boxes or the first unknown name |
| RmgModels.AllowedList | rmgweb/rmg/models.py:808-812 | the saved names are those of the ticked boxes, each once, in the fixed order |
| RmgModels.LoadConstraints | rmgweb/rmg/models.py:648-662 | an empty dictionary turns the constraints off; otherwise they are on, a non-list `allowed` raises, and every other entry is copied as an initial value |
| RmgModels.SaveConstraints | rmgweb/rmg/models.py:806-821 | on: the ticked names under `allowed` and each of the eight limit fields as submitted, and no other key; off: the empty dictionary |
| RmgModels.LimitDefault | rmgweb/rmg/models.py:504-511 | the seven maxima default to None and `allowSingletO2` to False |
| RmgModels.AllowedNameRead | rmgweb/rmg/models.py:652-653 | each box's own name stands for that box (saving side: lines 809-811) |
| RmgModels.AllowedRoundTrip | rmgweb/rmg/models.py:650-654 | loading the saved names ticks exactly the boxes that were ticked (saving side: lines 808-812) |
| RmgModels.ConstraintsRoundTrip | rmgweb/rmg/models.py:648-662 | a form that is on with its eight limit fields comes back with the same boxes and limits; one that is off comes back off (saving side: lines 806-821) |
| RmgModels.ConstraintsReload | rmgweb/rmg/models.py:648-662 | constraints that load without error are saved back as the eight limit fields (defaults for those the file leaves out, other keys dropped) and an `allowed` list holding each box once, in the fixed order, in lower case; a file setting exactly the eight comes back unchanged but for `allowed` (saving side: lines 806-821) |

## Left out

- Chart rendering: the `plot*` functions of the three engines, the templated chart scripts and the Highcharts theme are chart configuration with nothing to compute.
- Django views, HTTP responses, template rendering, the ORM, settings (so also `settings_value` in `universal.py`), URL modules other than `database/urls.py`, migrations and the integration tests are framework plumbing.
- Network access: the NIST scraper, the NCI/NIST chemical-name resolvers, the GitHub API and the DOM menu. `getAdjacencyList` is modelled only up to the route it chooses (`MainViews.Dispatch`). RMG-Py's InChI and SMILES readers are the function parameters `readInChI` and `readSmiles`, which give only whether each reads the text or which exception it raises.
- File I/O:
  - `os.walk` and `os.stat` are replaced by a path→mtime map plus the list of walked paths;
  - the file writes of `update_headers.py` become a returned sequence of output pieces, and its input becomes a sequence of lines;
  - `readInputFile`, Chemkin export, git commits and directory creation are not modelled.
- RMG-Py and other foreign libraries:
  - reaction generation, isomorphism, adjacency-list parsing and thermo fitting are not modelled;
  - `Species().fromAdjacencyList` is abstracted: the splitter returns the adjacency-list texts it would convert;
  - `kfactor` is the function parameter `factorOf`;
  - `add_rules_from_training` and `generateReactions` are not modelled.
- Floating point:
  - arithmetic is exact over `real`, so IEEE rounding, overflow and infinities are not modelled;
  - the accuracy of the Bessel polynomial approximations and the convergence rate of the AGM loop are not modelled. Only the exit test, the invariant `A >= G` and termination are proved;
  - the mathematical functions are uninterpreted.
- Chebyshev orders of 10 and above are `Cos(n * Acos(x))`. With `Cos` and `Acos` uninterpreted, no recurrence property is proved for them.
- StatMech.HinderedRotorEnthalpy: the centred difference at T(1 ± 0.001) is modelled as written, and no accuracy claim is made about it. The same holds for StatMech.HinderedRotorEntropy.
- Fourier hindered rotors: their thermodynamic functions are modelled only as failing on the missing `Math.sum`. No eigenvalue input is modelled, because the scripts never assign `energies`.
- Thermo.WilhoitFreeEnergy: G = H − T·S is its definition. No property beyond the heat-capacity limits is proved for the Wilhoit enthalpy and entropy.
- Thermo.NASAFreeEnergy: G = H − T·S is its definition; the proved properties are about which coefficients enter Cp, H and S.
- DbUrls.IgnoredFlags: the counts of 36, 36 and 18 distinct patterns are stated structurally (r3 and p3 are ignored when r2 and p2 are off) and are not computed.
- Form mappings of `rmg/models.py`: only these fields of `loadForm`/`saveForm` are modelled:
  - reaction and seed libraries;
  - species constraints;
  - the interpolation model;
  - sensitivity labels;
  - the restart period.
- Further simplifications in those mappings:
  - RMG's default `speciesConstraints` is taken to be the empty dictionary;
  - a saved quantity is taken as truthy;
  - the form is taken to submit unchanged the values `loadForm` filled in, so `saveForm` writes each limit field's initial value or its default;
  - interpolation is modelled only when pressure dependence is not `'off'`.
- Error texts:
  - only the HTTP statuses and error kinds are modelled, not the message strings;
  - the detergent and deposit validators' 'Invalid SMILES entry.' errors are modelled by the same error kind as an invalid adjacency list.
- StatMech.OscillatorsDensity: on a grid whose first two energies are equal, or with fewer than two energies, the model skips the sweeps, as the script does for a nonnegative frequency (an offset of +Infinity or NaN). For a negative frequency the script's offset is -Infinity and its loop never ends; the model does not capture that. The same holds for States.Density.
- StatMech.RigidRotorPartitionFunction: requires a moment of inertia for a linear rotor, where the script reads `inertia[0]` as undefined and returns NaN. The same holds for StatMech.RigidRotorEntropy, StatMech.GetRigidRotorPartitionFunction and the entropy and partition function of States.ModeValue; only the density models that case (NaN).
- Falloff models: `ThirdBodyModel`, `LindemannModel` and `TroeModel` always hold their Arrhenius limits. The script stores `null` for an omitted limit, and `getRateCoefficient` then throws TypeError; that case is not modelled.
- MainViews.AnalyzeAtomtypeError: the counts `analyze_atomtype_error` extracts with the regular expression `\s-?\d\s` (main/views.py:445) are a parameter. That the pattern misses two-digit counts is not modelled.
- PyText: whitespace is the ASCII set and `Lower` maps only A-Z, while Python 3's `strip`, `split` and `lower` are defined over Unicode.
- Python 2 `.encode()` is treated as the identity on text.
- `get_rate_coefficients`: only the choice of plotting range is modelled (`RenderKinetics.PlotWindow`), not the data generation.
- The LaTeX form of `getArrheniusJSMath`: only which factors appear, and with which sign, is modelled (`RenderKinetics.ArrheniusShape`), not the formatting.
- `kineticsData`: only the template-label counters are modelled. The reaction, kinetics and thermo objects the view assembles are not.
- JavaScript implicit globals (`ilow`, `Plow`, `Cp`, …) are treated as locals: their leakage between calls is not modelled.

## Findings

| source | as written | input that shows it | evidently intended | confidence | as-written member | corrected member |
|---|---|---|---|---|---|---|
| rmgweb/main/templatetags/render_kinetics.py:160-168 | the mol and time checks `power > 1` reject only powers above 1, although both must be negative, and the builder then writes a power of +1 in the denominator like -1 | dimensions {length: 3, mol: 1, time: -1} with desired units 'm^3,mol,s' give 'm^3/(mol*s)', which reads back with mol -1 | reject every mol or time power that is not negative, as the comments beside the checks say | not executed | RenderKinetics.MolPowerOneMisread | RenderKinetics.IntendedRoundTrip |
| rmgweb/database/tools.py:148-164 | `reset_dir_timestamps` records the walked files but never forgets a recorded path that no longer exists, and `is_dir_modified` reports such a path as modified | a recorded file under the directory that has since been deleted: every later load finds the directory modified, reloads it and resets, and still finds it modified | forget records of vanished files when resetting, so that a reset directory reads as unmodified | not executed | DbTools.StaleEntryKeepsReloading | DbTools.PrunedResetIsClean |

The corrected definitions are `RenderKinetics.ConstructUnitsIntended` and `DbTools.Pruned`. `RenderKinetics.IntendedAgreesWithWritten` shows that the written builder gives the same string whenever the corrected one succeeds, so the round-trip lemmas about rate units hold for both. The `RMGWebDatabase` class keeps the written reset, because its methods model the source's update of `timestamps`.
