# fpbiolib in Dafny: correlation optimised warping and its utilities

This project is a Dafny model of the core of fpbiolib, with proofs about that model:

- **`cow`**: correlation optimised warping (COW) of `fpbiolib/twarp/cow.py`. The model covers
  - validation of the arguments and the segmentation of reference and signals;
  - the 1-based boundary tables and the slope and band windows;
  - the flattened dynamic-programming table and its forward max/argmax pass;
  - the backward pass over the pointers, and the reconstruction of the warped signals;
  - `interp_coeff`.
- **`optim_cow`**: the search over segment length and slack of `fpbiolib/twarp/optim_cow.py`. The model covers
  - the coarse grid and the table `OS` as it grows;
  - the memoised evaluation `optim_eval`;
  - the seeds and the discrete simplex steps chosen by the pattern table;
  - the stop rule and the final argmax.
- **`ref_select`**: reference selection (`fpbiolib/twarp/ref_select.py`), with
  - the mean, median and maximum references;
  - `biwmean`;
  - the correlation criterion.
- **The small list and string utilities**:
  - duplicate names: `fix_dups` and `rename_dup_cols_in_two_dfs` of `fpbiolib/df_cleanup.py`, and `make_list_vals_unique` of `tracetools/lists.py`;
  - superscripts: `get_super` and `to_sup` of `fpbiolib/characters.py`;
  - formatting: `to_sup`, `process_str_list`, `none_to_empty_str` and `str_px_width` of `fpbiolib/formatting.py`;
  - rounding: `base_roundup`, `base_rounddown` and `ten_to_the_x` of `fpbiolib/rounders.py`.

Code that updates state in place is modelled imperatively:

- the loops of `cow` over segments and nodes, its tables and `interp_coeff`'s arrays;
- the growing `OS` and the `while pt` loop of `optim_cow`;
- the loops of `fix_dups` over a list it rewrites;
- `biwmean` and the correlation matrix of `ref_select`.

Each such method is proved against a specification function, and the properties are proved as lemmas about that function. Pure code (superscripts, rounding, the references) is modelled as functions.

Numbers:

- Scores and signals are Dafny `real`s. A signal value is a `Float` that is a number or NaN (`Reals.Float`).
- NumPy's `np.round` is rounding half to even (`Reals.RoundHalfEven`).
- `np.argmax` takes the first maximum (`Reals.FirstArgMax`).
- An error the source raises becomes the `Failure` case of a `Result`.

Modules, one or more per source file:

| source | modules |
|---|---|
| fpbiolib/twarp/cow.py | `CowSegments` (segmentation, boundaries, windows, band), `CowTable` (table layout), `CowInterp` (`interp_coeff`), `CowGeometry`, `CowPaths`, `CowForward` (forward pass), `CowOptimum` (what the forward pass computes), `CowBackward` (pointers and backtracking), `CowMain` (validation, plan, warped output) |
| fpbiolib/twarp/optim_cow.py | `OptimGrid` (grid, seeds, options), `OptimStep` (position counts, pattern table), `OptimCow` (`optim_eval`, `OS`, the search) |
| fpbiolib/twarp/ref_select.py | `RefSelect`, with `Reals` and `Weighted` for sums, medians, weighted means and argmax |
| fpbiolib/df_cleanup.py | `DfCleanup` |
| tracetools/lists.py | `Lists` |
| fpbiolib/characters.py | `Characters` |
| fpbiolib/formatting.py | `Formatting` (its `to_sup` is the same table as that of `characters.py` and is `Characters.ToSup`) |
| fpbiolib/rounders.py | `Rounders` |
| (shared) | `Wrappers` (`Option`, `Result`), `Strings` (`str(n)`, `replace`, `split`, `join`) |

## Model

| member | source | states |
|---|---|---|
| Rounders.Ceil | fpbiolib/rounders.py:9 | `math.ceil` is the least integer not below its argument |
| Rounders.BaseRoundup | fpbiolib/rounders.py:5-9 | fails exactly for a zero base; otherwise a multiple of base, with x <= r < x + base for a positive base and x + base < r <= x for a negative one |
| Rounders.BaseRounddown | fpbiolib/rounders.py:12-16 | fails exactly for a zero base; otherwise a multiple of base, with x - base < r <= x for a positive base (it rounds down, whatever its docstring says) |
| Rounders.RoundupFacts | fpbiolib/rounders.py:9 | base * ceil(x / base) is a multiple of base within one base above x (below x for a negative base) |
| Rounders.RounddownFacts | fpbiolib/rounders.py:16 | base * floor(x / base) is a multiple of base within one base below x (above x for a negative base) |
| Rounders.DefaultBaseExample | fpbiolib/rounders.py:5-16 | without a base, 12 rounds up to 15 and down to 10 |
| Rounders.MultipleIsFixed | fpbiolib/rounders.py:9-16 | a multiple of base is returned unchanged by both roundings |
| Rounders.Pow10Succ | fpbiolib/rounders.py:71-74 | 10 ** (i + 1) == 10 * 10 ** i for every integer i, negative ones included |
| Rounders.Pow10Add | fpbiolib/rounders.py:71-74 | powers of ten are positive and 10 ** (a + b) == 10 ** a * 10 ** b |
| Rounders.TenToTheX | fpbiolib/rounders.py:67-74 | for integer exponents, a list gives a list of the same length whose k-th entry is 10 ** value[k]; a scalar gives 10 ** value |
| Lists.UniquifiedSnoc | tracetools/lists.py:4-9 | one more pass of the loop extends the relation between input and output, and the counter grows by one exactly on a collision |
| Lists.MakeListValsUnique | tracetools/lists.py:1-10 | the loop's output is related to its input as the specification says: name by name, each appended unchanged or as name_count, with count = 1 + the collisions so far |
| Lists.UniquifiedPrefix | tracetools/lists.py:4-9 | every prefix of an input and its output is related in the same way |
| Lists.UniquifiedEntries | tracetools/lists.py:5-9 | the i-th output is the name when it is not yet in the output, and name_count otherwise; it differs from the name exactly when the name was already there |
| Lists.CollisionsAreRenames | tracetools/lists.py:8-9 | the counter ends at 1 + the number of entries that were renamed |
| Lists.NotUniqueExample | tracetools/lists.py:5-9 | ["a_1", "a", "a"] gives ["a_1", "a", "a_1"], which repeats a name |
| Lists.FirstOccurrenceRenamedExample | tracetools/lists.py:5-9 | ["a", "a", "a_1"] gives ["a", "a_1", "a_1_2"]: the first "a_1" of the input is renamed |
| Lists.FixedOutputSnoc | tracetools/lists.py:4-9 | the corrected loop keeps its invariant: no repeats, a name not yet in the output kept, every entry the name or derived from it |
| Lists.MakeListValsUniqueFixed | tracetools/lists.py:1-10 | corrected version: the same length, no repeated name, a name not yet in the output kept, and every entry the name or the name followed by "_" and a number |
| Characters.Translate | fpbiolib/characters.py:18-18 | `str.translate`: same length; a character in the table is replaced by its image and any other is kept |
| Characters.MakeTransPositional | fpbiolib/characters.py:17 | for a key string without repeats, `maketrans` maps exactly the keys, each to the character at the same position |
| Characters.NormalDistinct | fpbiolib/characters.py:11-16 | both tables have 67 characters and `normal` has no repeated character |
| Characters.UpperBounds | fpbiolib/characters.py:12 | the upper-case part of `normal` is the 26 consecutive codes from 'A', without repeats |
| Characters.LowerBounds | fpbiolib/characters.py:12 | the lower-case part of `normal` is the 26 consecutive codes from 'a', without repeats |
| Characters.DigitSignBounds | fpbiolib/characters.py:12 | the digits are the 10 consecutive codes from '0'; the five signs are distinct and are neither digits nor letters |
| Characters.GetSuper | fpbiolib/characters.py:6-18 | same length; a character of `normal` becomes the superscript at its position; any other character is kept |
| Characters.GetSuperQ | fpbiolib/characters.py:11-16 | 'Q' maps to itself and 'q' maps to U+06F9 |
| Characters.ToSup | fpbiolib/characters.py:66-93 | same length; each of the 21 keys is replaced by its superscript and every other character is kept |
| Characters.ToSupChangesOnlyKeys | fpbiolib/characters.py:66-93 | to_sup changes a character exactly when it is one of the 21 keys |
| Characters.SharedKeyPositions | fpbiolib/characters.py:11-89 | where the keys of to_sup sit in `normal`, and where the two tables agree there |
| Characters.ToSupAgreesWithGetSuper | fpbiolib/characters.py:6-93 | on a key of to_sup the two functions agree, except on 'i' (U+2071 against U+1DA6) |
| Formatting.ExponentSuperscripts | fpbiolib/formatting.py:44-54 | the exponent text str(e) that `sci_notation` hands to `get_super` keeps its length, every digit d becomes the superscript d and "-" becomes U+207B |
| Formatting.SignDigitsSuper | fpbiolib/formatting.py:54 | `get_super` of a string of signs and digits maps each character to its superscript, position by position |
| Formatting.SignDigitSuper | fpbiolib/formatting.py:54 | `get_super` sends one "-" to U+207B and one digit d to the superscript d |
| Formatting.ParseAll | fpbiolib/formatting.py:112 | succeeds exactly when every piece parses, with one value per piece; otherwise it fails at a piece that does not parse, all earlier pieces having parsed |
| Formatting.FilterKeepsCount | fpbiolib/formatting.py:108-110 | deleting the characters "]['" does not change the number of commas |
| Formatting.ProcessStrList | fpbiolib/formatting.py:100-112 | None or empty input gives None. Otherwise: brackets and quotes deleted, split on ',', and success exactly when every piece parses, with comma count + 1 values |
| Formatting.NoneToEmptyStr | fpbiolib/formatting.py:115-116 | the same keys; truthy values kept and falsy values replaced by "" |
| Formatting.NoneToEmptyStrIdempotent | fpbiolib/formatting.py:115-116 | cleaning twice is cleaning once, and afterwards no value is None |
| Formatting.CharWidths | fpbiolib/formatting.py:156 | one width per character, the table's width of that character |
| Formatting.StrPxWidth | fpbiolib/formatting.py:150-159 | the width as a number, with open_sans_12pt_px as the default font: an empty text is 11 px wide; an unknown font fails, and so does a character missing from the font's table. Otherwise the width is the sum of the character widths, at least 11 |
| Formatting.SumFromFacts | fpbiolib/formatting.py:155-156 | the left-to-right sum fails exactly at a character without a width and otherwise adds the widths up |
| Formatting.DefaultFontExample | fpbiolib/formatting.py:150-159 | without a font, "10.5" is 28 px wide and "1" is widened to 11 |
| Formatting.FontWidthsPositive | fpbiolib/formatting.py:130-147 | every width in the table is positive |
| Formatting.WidthMonotone | fpbiolib/formatting.py:150-159 | appending characters never makes a measurable text narrower |
| Strings.NatToString | fpbiolib/df_cleanup.py:119 | `str(n)` of a natural is a non-empty string of decimal digits |
| Strings.IntToString | fpbiolib/df_cleanup.py:119 | `str(n)` is non-empty and starts with '-' exactly when n is negative |
| Strings.NatToStringInjective | fpbiolib/df_cleanup.py:119 | different naturals print differently |
| Strings.IntToStringInjective | fpbiolib/df_cleanup.py:119 | different integers print differently |
| Strings.IntToStringChars | fpbiolib/df_cleanup.py:119 | `str(n)` holds only digits and minus signs |
| Strings.NatToStringLong | fpbiolib/df_cleanup.py:119 | a number of at least 10^e has more than e digits |
| Strings.TakenCandidateIsShort | fpbiolib/df_cleanup.py:118-124 | a candidate prefix + str(num) that is among the keys has num below 10 to the length of the longest key, so `update_val` terminates |
| Strings.RemoveChar | fpbiolib/formatting.py:110 | `s.replace(c, "")` holds no c, is shorter by the number of c, and keeps the count of every other character |
| Strings.RemoveThenFilter | fpbiolib/formatting.py:109-110 | removing the characters of a set one at a time removes the whole set |
| Strings.Split | fpbiolib/formatting.py:111 | `s.split(sep)` with an explicit separator has at least one piece |
| Strings.SplitCount | fpbiolib/formatting.py:111 | a split has one piece more than there are separators |
| Strings.SplitPiecesClean | fpbiolib/formatting.py:111 | no piece contains the separator |
| Strings.JoinSplit | fpbiolib/formatting.py:111 | joining the pieces of a split gives the string back |
| Strings.SplitJoin | fpbiolib/formatting.py:111 | splitting a join of separator-free pieces gives the pieces back |
| DfCleanup.UpdateVal | fpbiolib/df_cleanup.py:118-124 | the first val + sep + str(m) with m >= num that is not an original value; every smaller candidate from num on is one |
| DfCleanup.Tally | fpbiolib/df_cleanup.py:109-115 | one entry per distinct value; its count is the value's multiplicity and its suffix start - 1 |
| DfCleanup.Relabel | fpbiolib/df_cleanup.py:127-132 | the second loop writes one name and one suffix per position and keeps the entries' counts |
| DfCleanup.RelabelInvariant | fpbiolib/df_cleanup.py:127-132 | over the whole list the second loop keeps the suffix bookkeeping and the facts about the names written |
| DfCleanup.StepShape | fpbiolib/df_cleanup.py:128-132 | one position: only its value's entry changes, and its suffix grows |
| DfCleanup.FixDupsKeepsSingles | fpbiolib/df_cleanup.py:128-129 | the length is unchanged and a value that occurs once is left alone |
| DfCleanup.FixDupsKeepsFirst | fpbiolib/df_cleanup.py:130 | with update_first false the first occurrence of every value is left alone |
| DfCleanup.FixDupsRenamesLater | fpbiolib/df_cleanup.py:129-132 | with update_first false a later occurrence becomes val + sep + str(m) with m > start |
| DfCleanup.FirstSuffix | fpbiolib/df_cleanup.py:113-129 | at a first occurrence with update_first false the suffix is start |
| DfCleanup.FixDupsRenamedAreNew | fpbiolib/df_cleanup.py:117-123 | a renamed entry is never a value originally in the list |
| DfCleanup.FixDupsSameValueDistinct | fpbiolib/df_cleanup.py:113-132 | two renamed occurrences of the same value get different names, because the suffix only grows |
| DfCleanup.SuffixedInjective | fpbiolib/df_cleanup.py:119 | with a separator that is not empty and does not end in a digit or '-', val + sep + str(m) determines val and m |
| DfCleanup.FixDupsPair | fpbiolib/df_cleanup.py:108-134 | with such a separator any two positions of the result differ |
| DfCleanup.FixDupsDistinct | fpbiolib/df_cleanup.py:108-134 | with such a separator (as "." is) no name of the result repeats |
| DfCleanup.FirstOccurrenceRenamed | fpbiolib/df_cleanup.py:129-132 | with update_first the first occurrence of a repeated value takes the first free val + sep + str(m), m >= start |
| DfCleanup.UpdateValSkips | fpbiolib/df_cleanup.py:120-124 | a taken candidate moves on to the next number |
| DfCleanup.UpdateValFree | fpbiolib/df_cleanup.py:120-121 | a free candidate is the answer |
| DfCleanup.RepeatExampleClimbs | fpbiolib/df_cleanup.py:118-124 | in the example, `update_val` for the first "a" climbs to "a11", and for "a1" from 1 it gives "a11" too |
| DfCleanup.DefaultSepRepeats | fpbiolib/df_cleanup.py:108-134 | with the defaults (sep "", start 1, update_first true) ["a","a","a1","a1","a2",...,"a10"] gets "a11" twice |
| DfCleanup.TallyNext | fpbiolib/df_cleanup.py:111-115 | the dictionary grows one value at a time |
| DfCleanup.CountValues | fpbiolib/df_cleanup.py:109-115 | the first loop builds exactly the specified dictionary |
| DfCleanup.FixDups | fpbiolib/df_cleanup.py:108-134 | rewrites the list in place to the specified result and returns the same list |
| DfCleanup.RewriteRepeats | fpbiolib/df_cleanup.py:127-132 | the second loop leaves the list equal to the specified names |
| DfCleanup.RewriteAt | fpbiolib/df_cleanup.py:128-132 | one iteration writes position i as one step of the specification and leaves the later positions alone |
| DfCleanup.FixDupsChecked | fpbiolib/df_cleanup.py:108-134 | corrected version: same list, no repeated name whatever the separator, a renamed entry is never an original value, and a single value is kept |
| DfCleanup.CheckedAt | fpbiolib/df_cleanup.py:128-132 | one iteration of the corrected loop keeps its invariant |
| DfCleanup.Concat | fpbiolib/df_cleanup.py:143 | a fresh list of df1's names followed by df2's |
| DfCleanup.CopyColumns | fpbiolib/df_cleanup.py:150-153 | the assignment loop copies the slice starting at the offset |
| DfCleanup.WriteBack | fpbiolib/df_cleanup.py:149-153 | df1 gets the first len(df1) names and df2 the rest (when they are the same frame, the second write wins) |
| DfCleanup.RenameDupCols | fpbiolib/df_cleanup.py:137-155 | the frames returned are the frames given; their names are the uniquified concatenation with sep ".", start 0 and update_first false |
| DfCleanup.RenameDupColsDistinct | fpbiolib/df_cleanup.py:137-155 | no name repeats across the two frames afterwards |
| DfCleanup.RenameDupColsKeepsFirst | fpbiolib/df_cleanup.py:137-155 | when df1's names are unique among themselves, df1 keeps all of them |
| DfCleanup.RenameDupColsKeepsNew | fpbiolib/df_cleanup.py:137-155 | a name of df2 that is unique in df2 and absent from df1 is kept |
| DfCleanup.RenameDupColsRenames | fpbiolib/df_cleanup.py:145-147 | a name of df2 that is also in df1 becomes name + "." + a number of at least 1 |
| Reals.Max | fpbiolib/twarp/ref_select.py:146 | `np.amax` of a non-empty sequence is one of its values and no value exceeds it |
| Reals.MeanBounds | fpbiolib/twarp/ref_select.py:70 | values within [lo, hi] have their mean within [lo, hi] |
| Reals.Sort | fpbiolib/twarp/ref_select.py:238 | `np.sort`: a sorted permutation of its input |
| Reals.Insert | fpbiolib/twarp/ref_select.py:238 | inserting into a sorted sequence gives a sorted sequence with one element more, the same values plus x |
| Reals.SortedFromInput | fpbiolib/twarp/ref_select.py:238 | every sorted value is a value of the input |
| Reals.SortedWithin | fpbiolib/twarp/ref_select.py:238 | bounds of the values bound the sorted values |
| Reals.MedianBetween | fpbiolib/twarp/ref_select.py:95-95 | the median lies between the two middle order statistics |
| Reals.MedianBounds | fpbiolib/twarp/ref_select.py:95-95 | values within [lo, hi] have their median within [lo, hi] |
| Reals.RoundHalfEven | fpbiolib/twarp/ref_select.py:237 | `np.round`: within 0.5 of x, and even on a tie |
| Reals.SumNonNegative | fpbiolib/twarp/ref_select.py:248 | non-negative values have a non-negative sum |
| Reals.FirstArgMax | fpbiolib/twarp/ref_select.py:182 | `argmax`: the first NaN when there is one; otherwise a position of the largest value that no earlier value equals |
| Weighted.Quotient | fpbiolib/twarp/ref_select.py:248 | the quotient a / n times n is a |
| Weighted.WSumBounds | fpbiolib/twarp/ref_select.py:248 | a non-negatively weighted sum of values within [lo, hi] lies between the weight sum times lo and times hi |
| Weighted.WeightedMeanBounds | fpbiolib/twarp/ref_select.py:248-258 | a mean with non-negative weights of positive sum, of values within [lo, hi], lies within [lo, hi] |
| Weighted.ScaledMeanBounds | fpbiolib/twarp/ref_select.py:248-258 | the same bound for any m with m * sum(w) == sum(w * x) |
| RefSelect.Values | fpbiolib/twarp/ref_select.py:46-57 | a matrix without NaN read as reals, row by row and column by column |
| RefSelect.MeanRef | fpbiolib/twarp/ref_select.py:70 | `np.mean(y, axis=0)`: one value per column, NaN exactly when there are no signals |
| RefSelect.MedianRef | fpbiolib/twarp/ref_select.py:95 | `np.median(y, axis=0)`: one value per column, NaN exactly when there are no signals |
| RefSelect.MaxRef | fpbiolib/twarp/ref_select.py:146 | `np.amax(y, axis=0)`: no signal exceeds it in any column, and some signal reaches it |
| RefSelect.MeanMedianWithin | fpbiolib/twarp/ref_select.py:69-95 | bounds shared by every signal in a column bound its mean and its median |
| RefSelect.QuarterCount | fpbiolib/twarp/ref_select.py:237 | `int(np.round(nx * 0.25))` is below nx |
| RefSelect.BiWeight | fpbiolib/twarp/ref_select.py:246-247 | the biweight is never negative |
| RefSelect.Weights | fpbiolib/twarp/ref_select.py:245-256 | one non-negative weight per value |
| RefSelect.Biwmean | fpbiolib/twarp/ref_select.py:235-260 | the loop computes the specified value, after at most 101 refinements |
| RefSelect.Reweigh | fpbiolib/twarp/ref_select.py:249-260 | the refinement loop computes the specified value, after at most 101 refinements |
| RefSelect.MovedSquared | fpbiolib/twarp/ref_select.py:252 | the loop test `(oldbiwm - biwm)**2 / oldbiwm**2 > 1e-8` holds exactly when abs(oldbiwm - biwm) > 1e-4 * abs(oldbiwm), the form the loop uses; with oldbiwm == 0 it holds exactly when biwm != 0 (an infinite quotient) and fails when both are 0 (NaN) |
| RefSelect.BiwmeanNarrow | fpbiolib/twarp/ref_select.py:240-243 | when 2 * iqr < eps the median is returned |
| RefSelect.WMeanWithin | fpbiolib/twarp/ref_select.py:248-258 | a weighted mean that is a number lies within any bounds of the values |
| RefSelect.RefineWithin | fpbiolib/twarp/ref_select.py:252-259 | every iterate that is a number lies within any bounds of the values |
| RefSelect.BiwmeanWithin | fpbiolib/twarp/ref_select.py:235-260 | `biwmean` returns a value within any bounds of x when it returns a number |
| RefSelect.BiwmeanConstant | fpbiolib/twarp/ref_select.py:240-243 | a constant column has that constant as its bi-weighted mean |
| RefSelect.BiwRef | fpbiolib/twarp/ref_select.py:120-121 | one bi-weighted mean per column |
| RefSelect.BiwColumns | fpbiolib/twarp/ref_select.py:120-121 | the loop over the columns gives exactly the specified row |
| RefSelect.Center | fpbiolib/twarp/ref_select.py:174-175 | centring keeps the length |
| RefSelect.RMatrix | fpbiolib/twarp/ref_select.py:171-180 | R is a square matrix over the signals |
| RefSelect.FilledNext | fpbiolib/twarp/ref_select.py:176-180 | one step of the inner loop writes the squared correlation at [a, b] and [b, a] |
| RefSelect.CorrMatrix | fpbiolib/twarp/ref_select.py:171-180 | the nested loops fill exactly the specified matrix |
| RefSelect.FilledRow | fpbiolib/twarp/ref_select.py:172-180 | a finished row leaves the entries written before row a + 1 |
| RefSelect.FilledAll | fpbiolib/twarp/ref_select.py:171-180 | after the last row the matrix is the specified one |
| RefSelect.Corr2Symmetric | fpbiolib/twarp/ref_select.py:176-180 | the squared correlation does not depend on the order of the two signals |
| RefSelect.RowProducts | fpbiolib/twarp/ref_select.py:181 | one product per row |
| RefSelect.CauchySchwarz | fpbiolib/twarp/ref_select.py:176-179 | dot(a, b)^2 <= |a|^2 |b|^2 |
| RefSelect.Corr2Within | fpbiolib/twarp/ref_select.py:176-179 | a squared correlation that is a number lies in [0, 1] |
| RefSelect.DotSelfZero | fpbiolib/twarp/ref_select.py:178 | a squared norm is zero exactly when every entry is zero |
| RefSelect.CenterZero | fpbiolib/twarp/ref_select.py:174-175 | the centred signal is zero exactly when the signal is constant |
| RefSelect.Corr2NaN | fpbiolib/twarp/ref_select.py:176-179 | the squared correlation is NaN (0 / 0) exactly when one signal is constant |
| RefSelect.Corr2Self | fpbiolib/twarp/ref_select.py:176-179 | a non-constant signal has squared correlation 1 with itself |
| RefSelect.RMatrixEntries | fpbiolib/twarp/ref_select.py:171-180 | R is symmetric and its entries that are numbers lie in [0, 1]. The diagonal is 1, except for constant signals strictly inside (the loops overwrite those). An off-diagonal entry is NaN exactly when one of its signals is constant |
| RefSelect.PyRow | fpbiolib/twarp/ref_select.py:229 | Python's `refs[k]` on five rows selects one of them |
| RefSelect.CorrIndex | fpbiolib/twarp/ref_select.py:181-182 | N is a signal's index when criterion 5 runs |
| RefSelect.Criterion | fpbiolib/twarp/ref_select.py:61-183 | a row of refs has ym values, and stays zero when its criterion does not run |
| RefSelect.RefSelectMethod | fpbiolib/twarp/ref_select.py:5-231 | the function with the loops of criteria 3 and 5 gives exactly the specified result |
| RefSelect.ComputeRefs | fpbiolib/twarp/ref_select.py:60-183 | the five rows and N are the specified ones |
| RefSelect.RefSelectErrors | fpbiolib/twarp/ref_select.py:52-58 | a label count that differs from the columns raises, and so does NaN in y, in that order. After them, an empty reduction raises exactly when a criterion among biwmean, amax and the correlation runs over no signals (biwmean only when there are columns): with no signals modes 0, 3 (with columns), 4 and 5 raise. Modes 0 to 5 succeed with signals; modes 1, 2, 3 without columns and -4..-1 succeed without them; a mode outside -4..5 fails on the selection |
| RefSelect.RefSelectListErrors | fpbiolib/twarp/ref_select.py:64-71 | with a list of options: after the label and NaN errors, an empty list fails at options[0]. A one-entry list selecting 0, 1 or 2 fails at options[1]; one selecting 3, 4 or 5 fails on the empty reduction when that criterion has no signals, else at options[1]. A list of two or more entries, or one entry outside 0..5, behaves as its first entry selects, and only those succeed |
| RefSelect.DefaultOptionsFail | fpbiolib/twarp/ref_select.py:5-64 | called without options, `ref_select` fails on every input: on the labels, on NaN, and otherwise exactly with the TypeError at options[0]; the documented default [0, 1] succeeds on every input with matching labels, no NaN and a signal |
| RefSelect.DefaultOptionsInteractive | fpbiolib/twarp/ref_select.py:5-64 | with the documented default [0, 1], the call is the interactive mode: it succeeds exactly when the labels match, there is no NaN and there is a signal, returns row choice - 1, and fails on the empty reduction without signals |
| RefSelect.RefSelectShape | fpbiolib/twarp/ref_select.py:60-229 | five rows of ym values; ref is row options[0] - 1 under Python indexing |
| RefSelect.RefSelectWithin | fpbiolib/twarp/ref_select.py:69-146 | bounds shared by all signals in a column bound the mean, median, bi-weighted mean and maximum references there |
| RefSelect.ColumnWithin | fpbiolib/twarp/ref_select.py:70-146 | the four column-wise references lie within the bounds of the column |
| RefSelect.RefSelectCorrelation | fpbiolib/twarp/ref_select.py:181-183 | refs[4] is signal N: the first row whose product is NaN if there is one, otherwise the first row with the largest product |
| CowSegments.Fill | fpbiolib/twarp/cow.py:107-114 | `np.empty(n).fill(v)` has n entries, all v |
| CowSegments.AddLast | fpbiolib/twarp/cow.py:119-121 | adding the remainder changes only the last segment, by exactly the remainder |
| CowSegments.SumAddLast | fpbiolib/twarp/cow.py:119-121 | adding the remainder to the last segment adds it to the total length |
| CowSegments.EqualTarget | fpbiolib/twarp/cow.py:105-108 | the equal-length target cut has one length per segment |
| CowSegments.DefaultSplit | fpbiolib/twarp/cow.py:111-118 | without Options[2], a cut that is accepted is well formed with at least one segment; it fails for Seg < 2 and when target and signal give different segment counts |
| CowSegments.DefaultSplitFirst | fpbiolib/twarp/cow.py:112-114 | a default cut has floor((ref_m - 1) / (Seg - 1)) segments; the first target segment has Seg - 1 intervals when there are several segments, and spans the whole target when there is one |
| CowSegments.Uniform | fpbiolib/twarp/cow.py:101-121 | the segmentation for a nominal length: an accepted cut is well formed with at least one segment; it fails with SegmentTooLong when Seg > min(ym, ref_m) |
| CowSegments.UniformAgrees | fpbiolib/twarp/cow.py:131-133 | the code as written and the corrected segmentation raise the same errors and cut the target alike; without Options[2] they are equal |
| CowSegments.UniformCovers | fpbiolib/twarp/cow.py:101-133 | accepted segments span ref_m - 1 target and ym - 1 signal intervals; without Options[2] every segment but the last has Seg - 1 intervals on both sides and the last one takes the remainder |
| CowSegments.EqualSignalCovers | fpbiolib/twarp/cow.py:109-109 | nSeg signal pieces of floor((ym - 1) / nSeg), plus the leftover on the last, span ym - 1 intervals |
| CowSegments.EqualTargetCovers | fpbiolib/twarp/cow.py:106-108 | the equal-length target cut spans ref_m - 1 intervals |
| CowSegments.DefaultCovers | fpbiolib/twarp/cow.py:112-121 | n pieces of Seg - 1 with the `%` remainder on the last span m - 1 intervals when n = floor((m - 1) / (Seg - 1)) |
| CowSegments.TargetRemainder | fpbiolib/twarp/cow.py:119-121 | on the target, `(ref_m - 1) % LenSeg[0, 0]` is exactly what the equal cut leaves over |
| CowSegments.EqualRemainderShort | fpbiolib/twarp/cow.py:131-133 | with ref_m 31, ym 36, Seg 3 and Options[2], the signal segments as written span 32 intervals, while the corrected ones span 35 |
| CowSegments.Diffs | fpbiolib/twarp/cow.py:96-96 | `np.diff` has one entry fewer, each the difference of neighbours |
| CowSegments.SumDiffs | fpbiolib/twarp/cow.py:96-96 | the differences of the boundaries add up to the last boundary minus the first |
| CowSegments.Predefined | fpbiolib/twarp/cow.py:89-98 | corrected check of predefined boundaries: accepted boundaries give well-formed segments |
| CowSegments.PredefinedCovers | fpbiolib/twarp/cow.py:89-99 | boundaries the corrected check accepts give segments spanning ref_m - 1 and ym - 1 intervals |
| CowSegments.ZeroBasedOvershoots | fpbiolib/twarp/cow.py:90-92 | the check as written accepts boundaries that start at (0, 0); then the last 1-based boundary bT[nSeg] is ref_m + 1 and bP[nSeg] is ym + 1, past the ends of both signals |
| CowSegments.Starts | fpbiolib/twarp/cow.py:144-145 | `np.cumsum(np.insert(1, 1, lens))` starts at 1 and rises by each length in turn |
| CowSegments.StartsLast | fpbiolib/twarp/cow.py:144-145 | the last boundary is 1 plus the sum of the lengths |
| CowSegments.Lower | fpbiolib/twarp/cow.py:165-170 | `Bounds[0]`, the larger of bP - Slack * i and bP - Slack * (nSeg - i), has one entry per boundary |
| CowSegments.Upper | fpbiolib/twarp/cow.py:165-171 | `Bounds[1]`, the smaller of bP + Slack * i and bP + Slack * (nSeg - i), has one entry per boundary |
| CowSegments.WindowShape | fpbiolib/twarp/cow.py:162-171 | the slope window of boundary i is bP[i] -/+ Slack * min(i, nSeg - i); it contains bP[i], and at both ends it is the single point bP[i] |
| CowSegments.BandLower | fpbiolib/twarp/cow.py:179-179 | every lower edge after the band is the larger of the slope edge, 0 and ym / ref_m * bT - band |
| CowSegments.BandUpper | fpbiolib/twarp/cow.py:180-180 | every upper edge after the band is the smaller of the slope edge, ym and ym / ref_m * bT + band |
| CowSegments.BandEdgeLow | fpbiolib/twarp/cow.py:179-179 | a lower edge is at least each of its three candidates and equal to one of them |
| CowSegments.BandEdgeHigh | fpbiolib/twarp/cow.py:180-180 | an upper edge is at most each of its three candidates and equal to one of them |
| CowSegments.BandNarrows | fpbiolib/twarp/cow.py:179-180 | the band only narrows each window |
| CowSegments.BandSignsSteady | fpbiolib/twarp/cow.py:181-182 | after a band that passes the first check, with positive upper edges, the sign check never fires |
| CowTable.Width | fpbiolib/twarp/cow.py:218-218 | every window has at least one node |
| CowTable.Start | fpbiolib/twarp/cow.py:217-219 | `Table_Index[i]` is at least i |
| CowTable.StartMono | fpbiolib/twarp/cow.py:217-219 | later windows start later, and window i lies wholly before window j for i < j |
| CowTable.Range | fpbiolib/twarp/cow.py:230-230 | `np.arange(lo, hi + 1)` is lo, lo + 1, .., hi |
| CowTable.Layout | fpbiolib/twarp/cow.py:229-233 | row 0 of the table has one entry per node of the windows set up |
| CowTable.LayoutAt | fpbiolib/twarp/cow.py:229-233 | node j of window i holds position lo[i] + j |
| CowTable.LayoutWindow | fpbiolib/twarp/cow.py:229-233 | the entries of window i in row 0 are its positions lo[i], lo[i] + 1, .. in order |
| CowTable.InitEntries | fpbiolib/twarp/cow.py:225-228 | rows 1 and 2 as set up have one entry per node |
| CowTable.TableIndex | fpbiolib/twarp/cow.py:217-219 | the method yields nSeg + 2 entries, entry i being the number of nodes before window i |
| CowTable.PlaceWindow | fpbiolib/twarp/cow.py:230-233 | writing one window appends its positions lo..hi after the entries already placed |
| CowTable.SetUpTable | fpbiolib/twarp/cow.py:225-233 | after set-up, row 0 holds the layout of every window, and rows 1 and 2 hold score 0 at node 0 and minus infinity elsewhere |
| CowInterp.Grid | fpbiolib/twarp/cow.py:406-406 | `np.arange(1, m + 1)` is 1..m |
| CowInterp.Digitize | fpbiolib/twarp/cow.py:408-408 | `np.digitize` returns at most the number of bins |
| CowInterp.DigitizeBetween | fpbiolib/twarp/cow.py:408-408 | for increasing bins, the bins below the result are at most x and the rest are above x |
| CowInterp.Cell | fpbiolib/twarp/cow.py:408-410 | after the two corrections, the cell lies in 1..m - 1 |
| CowInterp.GridIncreasing | fpbiolib/twarp/cow.py:406-406 | the grid 1..m rises strictly |
| CowInterp.CellOfPoint | fpbiolib/twarp/cow.py:408-412 | a point x in [1, m] lies in cell floor(x) (cell m - 1 for x = m) and is that cell plus a fraction in [0, 1], equal to 1 only at x = m |
| CowInterp.PointRange | fpbiolib/twarp/cow.py:407-407 | the sample points run from 1 in column 0 to nprime in column q |
| CowInterp.PointBelowEnd | fpbiolib/twarp/cow.py:407-410 | every column before the last samples strictly inside the grid |
| CowInterp.InterpCoeff | fpbiolib/twarp/cow.py:399-415 | `interp_coeff` fills a p x n table with, in row i and column t, the fraction of sample point t in its cell of the grid 1..nprime[i], and that cell minus offs[i] |
| CowInterp.CoefficientsMeaning | fpbiolib/twarp/cow.py:405-413 | each entry splits its sample point into a cell 1..nprime - 1 plus a fraction in [0, 1]; the first column is cell 1 with fraction 0, and the last is cell nprime - 1 with fraction 1 |
| CowGeometry.SlopeGeo | fpbiolib/twarp/cow.py:162-171 | the slope windows have one lower and one upper edge per boundary |
| CowGeometry.SlopeValid | fpbiolib/twarp/cow.py:162-171 | the slope windows form a valid window layout whose first and last windows are the single points bP[0] and bP[nSeg] |
| CowGeometry.Clamp | fpbiolib/twarp/cow.py:159-159 | a slack choice lies in -Slack..Slack (`Slacks_vec`) |
| CowGeometry.ArcInto | fpbiolib/twarp/cow.py:264-268 | every position of window i + 1 has an arc allowed by `Allowed_Arcs` from window i |
| CowGeometry.SlopeReach | fpbiolib/twarp/cow.py:273-275 | under the slope constraint every node of every window after window 0 has an allowed arc, so `N_AA` is never 0 |
| CowPaths.ArcChoice | fpbiolib/twarp/cow.py:264-270 | an arc from x to p is considered exactly when its slack choice lies in `Slacks_vec` and `Allowed_Arcs` holds for it, and its predecessor is x |
| CowPaths.AddGainMono | fpbiolib/twarp/cow.py:308-315 | adding the same gain keeps the order of two loss values |
| CowPaths.PathBound | fpbiolib/twarp/cow.py:306-317 | no warping path gains more up to boundary j than the value of the position it reaches there |
| CowPaths.AllFinite | fpbiolib/twarp/cow.py:227-228 | when window 0 is the single first node and every node is reachable, every node's value is finite |
| CowForward.AddGain | fpbiolib/twarp/cow.py:308-315 | a loss plus a gain is minus infinity exactly when the loss is |
| CowForward.Pick | fpbiolib/twarp/cow.py:317-317 | a pick is one of the allowed choices |
| CowForward.PickIsFirstMax | fpbiolib/twarp/cow.py:317-317 | `argmax` over the allowed arcs: the pick has the largest cost, every earlier allowed choice costs strictly less, and there is no pick exactly when no arc is allowed |
| CowForward.NodeResult | fpbiolib/twarp/cow.py:275-321 | each node yields at most one entry |
| CowForward.Pad | fpbiolib/twarp/cow.py:247-247 | the local table is padded to the window's width |
| CowForward.Results | fpbiolib/twarp/cow.py:318-321 | `Count` never exceeds the number of nodes visited |
| CowForward.Block | fpbiolib/twarp/cow.py:247-321 | `Bound_k_Table` has one slot per node of window i + 1 |
| CowForward.Splice | fpbiolib/twarp/cow.py:324-324 | copying the local table in keeps the table's size |
| CowForward.Advance | fpbiolib/twarp/cow.py:240-324 | one segment of the forward phase keeps the table's size |
| CowForward.Fwd | fpbiolib/twarp/cow.py:238-324 | the forward phase keeps the table's size |
| CowForward.FillBlock | fpbiolib/twarp/cow.py:262-321 | the node loop fills the local table with the results of the nodes that have one, in order, then zeros |
| CowForward.CopyBlock | fpbiolib/twarp/cow.py:324-324 | the copy replaces the entries from the window's first node by the local table and keeps the rest |
| CowForward.FillWindow | fpbiolib/twarp/cow.py:240-324 | the body of the segment loop replaces window i + 1 of the table by the padded results of its nodes |
| CowForward.Step | fpbiolib/twarp/cow.py:240-324 | segment i of the forward phase takes the table t to Advance(t) |
| CowForward.AdvanceBy | fpbiolib/twarp/cow.py:318-324 | the local table the node loop fills, spliced in, is Advance |
| CowForward.FwdStep | fpbiolib/twarp/cow.py:238-324 | segment i takes the table from its state after i segments to its state after i + 1 |
| CowForward.Forward | fpbiolib/twarp/cow.py:237-324 | the loop over segments leaves the table the forward phase defines |
| CowOptimum.MaxScore | fpbiolib/twarp/cow.py:317-317 | the larger of two loss values is at least both and is one of them |
| CowOptimum.BestOfIsMax | fpbiolib/twarp/cow.py:306-317 | the best value is at least the value via every allowed arc, and is minus infinity when there is none |
| CowOptimum.CostIsVia | fpbiolib/twarp/cow.py:308-315 | on a table that holds window i's values, the cost of an arc is the predecessor's value plus the arc's gain |
| CowOptimum.PickIsBest | fpbiolib/twarp/cow.py:317-317 | on such a table the argmax has the best value, and there is none exactly when the best is minus infinity for lack of arcs |
| CowOptimum.NodeResultOne | fpbiolib/twarp/cow.py:275-275 | a node with an allowed arc gets an entry |
| CowOptimum.ResultsFull | fpbiolib/twarp/cow.py:318-321 | when every node has an arc, `Count` keeps pace: slot k holds the result of node k |
| CowOptimum.BlockFull | fpbiolib/twarp/cow.py:318-324 | then every slot of the local table holds the result of its own node |
| CowOptimum.BlockOfFull | fpbiolib/twarp/cow.py:318-321 | a full list of results is the local table itself, with no padding |
| CowOptimum.SpliceAt | fpbiolib/twarp/cow.py:324-324 | the copy keeps the entries before and after the window and writes the local table into it |
| CowOptimum.NewEntry | fpbiolib/twarp/cow.py:262-321 | a reachable node gets its value and a pointer to its first best predecessor |
| CowOptimum.AdvanceKeeps | fpbiolib/twarp/cow.py:324-324 | a step of the forward phase does not change the windows before the one it fills |
| CowOptimum.AdvanceWrites | fpbiolib/twarp/cow.py:324-324 | a step writes the local table into window m + 1 |
| CowOptimum.AdvanceSolves | fpbiolib/twarp/cow.py:240-324 | when every node is reachable, a step gives window m + 1 its values and first best pointers |
| CowOptimum.FwdSolved | fpbiolib/twarp/cow.py:238-324 | when every node is reachable, after m segments each window up to m holds the value of every position and a pointer to its first best predecessor |
| CowOptimum.InitAgrees | fpbiolib/twarp/cow.py:227-228 | the table as set up holds window 0's values: 0 at its first node and minus infinity elsewhere |
| CowOptimum.CountLagExample | fpbiolib/twarp/cow.py:273-275 | without the slope constraint a node may have no allowed arc; then `Count` lags and a result lands in the slot of the wrong node |
| CowBackward.Chain | fpbiolib/twarp/cow.py:328-331 | the pointer after k steps stays within 0..the table's size |
| CowBackward.Backtrack | fpbiolib/twarp/cow.py:327-332 | the backward loop sets Warping[nSeg] = ym, and boundary b to the position of the node reached after nSeg - b steps |
| CowBackward.AdvancePtrs | fpbiolib/twarp/cow.py:320-320 | a segment of the forward phase stores only pointers to nodes of the table |
| CowBackward.FwdPtrs | fpbiolib/twarp/cow.py:238-324 | the tables of the forward phase hold pointers into themselves only |
| CowBackward.ArcOf | fpbiolib/twarp/cow.py:317-320 | a stored best pointer names a considered predecessor in window i whose value plus the gain is p's value, and every higher predecessor does strictly worse |
| CowBackward.ChainStep | fpbiolib/twarp/cow.py:330-331 | one step of the walk follows a best arc from window i + 1 into window i |
| CowBackward.ChainInWindow | fpbiolib/twarp/cow.py:327-332 | on a solved table the walk visits a node of each earlier window in turn |
| CowBackward.Walked | fpbiolib/twarp/cow.py:327-332 | the walk yields one position per boundary |
| CowBackward.WalkArc | fpbiolib/twarp/cow.py:330-332 | each arc of the walk is a best arc into its end |
| CowBackward.WalkGain | fpbiolib/twarp/cow.py:306-332 | along arcs that carry their ends' values, a finite value at boundary j leads back to the first node and equals the path's gain |
| CowBackward.BacktrackOptimal | fpbiolib/twarp/cow.py:327-332 | on a solved table the walk is a chain of best arcs from window 0 to the last position of window nSeg |
| CowBackward.BacktrackReads | fpbiolib/twarp/cow.py:331-332 | the boundaries Backtrack writes are the walk's positions, read from row 0 |
| CowBackward.BestWalk | fpbiolib/twarp/cow.py:237-332 | the boundaries of the warping: one per boundary |
| CowBackward.WarpSignal | fpbiolib/twarp/cow.py:225-332 | set-up, forward and backward phases give the walk of the forward phase's table |
| CowBackward.SignalFacts | fpbiolib/twarp/cow.py:238-332 | the forward phase's final table is solved, points into itself, and its walk is the warping |
| CowBackward.WalkTable | fpbiolib/twarp/cow.py:327-332 | the backward loop on a solved table writes the walk |
| CowBackward.FilledTable | fpbiolib/twarp/cow.py:225-324 | set-up and forward phase give the layout and the table of the forward phase |
| CowBackward.WalkRead | fpbiolib/twarp/cow.py:327-332 | on a solved table, what Backtrack writes is the walk |
| CowBackward.WalkOptimal | fpbiolib/twarp/cow.py:237-332 | when every node is reachable, the walk is a warping path to the last position whose gain is the table's value at its last node, and no warping path to that position gains more |
| CowMain.Segmentation | fpbiolib/twarp/cow.py:88-133 | the segments for a nominal length (cut with the corrected remainder of `CowSegments.Uniform`) or for predefined boundaries (checked as `CowSegments.Predefined` does) are well formed when accepted |
| CowMain.SegmentationCovers | fpbiolib/twarp/cow.py:88-145 | segments accepted by the corrected cut span ref_m - 1 and ym - 1 intervals, so both lengths are at least 1 |
| CowMain.UniformShares | fpbiolib/twarp/cow.py:195-204 | every segment but the last of a nominal cut has the lengths of the first, which is why one interpolation table serves them all |
| CowMain.PrepareMeaning | fpbiolib/twarp/cow.py:60-182 | an accepted call has a plan with 1-based boundaries from 1 to ref_m and ym that rise by the segment lengths, each at least Slack + 2; a bad power fails first, NaN second, then an empty target or empty rows when the signals are lengthened, and a nonzero band must cover the length difference; the segmentation is the corrected one |
| CowMain.EmptyTargetFails | fpbiolib/twarp/cow.py:73-75 | with the default options an empty target fails at the lengthening, where without it the same call fails later |
| CowMain.PlanOfCut | fpbiolib/twarp/cow.py:141-145 | a plan over accepted segments that pass the slack check is well formed |
| CowMain.Slacks | fpbiolib/twarp/cow.py:159-159 | `Slacks_vec` has 2 * Slack + 1 entries |
| CowMain.NPrime | fpbiolib/twarp/cow.py:191-191 | `nprime` has one length per slack choice |
| CowMain.SharedTables | fpbiolib/twarp/cow.py:188-204 | for a nominal length, every segment gets the interpolation table of its own lengths |
| CowMain.SegmentTable | fpbiolib/twarp/cow.py:210-212 | the table of one segment is `interp_coeff` of its lengths |
| CowMain.OwnTables | fpbiolib/twarp/cow.py:206-214 | for predefined boundaries, every segment gets the table of its own lengths |
| CowMain.GeoOf | fpbiolib/twarp/cow.py:162-171 | a plan's slope windows form a valid layout with one window per boundary |
| CowMain.Warp | fpbiolib/twarp/cow.py:326-332 | the warping of one signal has nSeg + 1 boundaries |
| CowMain.PlanGeo | fpbiolib/twarp/cow.py:162-171 | a plan's windows reach every node, and the first and last windows are the single positions 1 and ym |
| CowMain.CowOptimal | fpbiolib/twarp/cow.py:237-332 | for every signal the warped boundaries start at 1 and end at ym, form a path of the slope windows, and have the largest summed gain of all such paths |
| CowMain.SegBelow | fpbiolib/twarp/cow.py:341-342 | the last segment whose target columns start at or before column c |
| CowMain.WrittenStep | fpbiolib/twarp/cow.py:341-355 | writing segment m changes exactly the columns bT[m] - 1 .. bT[m + 1] - 1 |
| CowMain.PlanBoundaries | fpbiolib/twarp/cow.py:144-144 | the target boundaries of an accepted plan rise by at least 1 per segment from 1 to ref_m |
| CowMain.WriteSegment | fpbiolib/twarp/cow.py:344-355 | writing segment m of signal s sets exactly that signal's columns of the segment to the resampled values |
| CowMain.Reconstruct | fpbiolib/twarp/cow.py:341-355 | each column of XWarped holds the value the last segment containing it writes |
| CowMain.BoundsBelow | fpbiolib/twarp/cow.py:144-144 | the target boundaries lie between 1 and the last one |
| CowMain.Coverage | fpbiolib/twarp/cow.py:341-355 | every column 0..ref_m - 1 is written, by the last segment whose target columns contain it |
| CowMain.Trimmed | fpbiolib/twarp/cow.py:393-394 | `XWarped[:, :-200]` keeps every row and its first columns |
| CowMain.WarpedRow | fpbiolib/twarp/cow.py:393-396 | the warped signal has the requested number of columns |
| CowMain.WarpEach | fpbiolib/twarp/cow.py:327-332 | every signal gets the warping and table of its own gain |
| CowMain.WarpAll | fpbiolib/twarp/cow.py:237-332 | every signal gets the walk of the forward phase's table for its correlation gains |
| CowMain.PlanTables | fpbiolib/twarp/cow.py:188-214 | a plan gets an interpolation table of the right lengths for each segment |
| CowMain.Planned | fpbiolib/twarp/cow.py:185-368 | for a valid plan, each signal gets its optimal warping, bT and its warped row, and Diagnos holds the tables |
| CowMain.Cow | fpbiolib/twarp/cow.py:5-396 | `cow`, with the corrected segmentation and a band of 0, fails exactly when the checks fail, with the first failing check's error; otherwise each signal gets its optimal warping, bT, the warped signal of |ref| columns, and Diagnos |
| OptimGrid.AddSorted | fpbiolib/twarp/optim_cow.py:91-91 | inserting into a strictly increasing sequence keeps it strictly increasing and adds exactly the new value |
| OptimGrid.Unique | fpbiolib/twarp/optim_cow.py:91-91 | `np.unique` rises strictly and holds exactly the values of its input |
| OptimGrid.AddSortedLast | fpbiolib/twarp/optim_cow.py:91-91 | a value above all the others goes to the end |
| OptimGrid.UniqueOfAscending | fpbiolib/twarp/optim_cow.py:91-91 | `np.unique` of a strictly increasing sequence is that sequence |
| OptimGrid.Range | fpbiolib/twarp/optim_cow.py:74-75 | `np.arange(lo, hi + 1)` is lo..hi, empty when hi < lo |
| OptimGrid.Floors | fpbiolib/twarp/optim_cow.py:89-89 | the `dtype=int` cast keeps the length |
| OptimGrid.Quarters | fpbiolib/twarp/optim_cow.py:80-90 | the candidate grid of a wide range has five values |
| OptimGrid.QuartersRise | fpbiolib/twarp/optim_cow.py:80-88 | for a range of more than five integers, the three rounded quarter points lie strictly between the ends and rise strictly |
| OptimGrid.AxisWide | fpbiolib/twarp/optim_cow.py:79-91 | beyond five values the grid is the two ends and the three rounded quarter points, rising strictly, so `np.unique` removes nothing |
| OptimGrid.AxisFacts | fpbiolib/twarp/optim_cow.py:74-107 | a grid axis rises strictly, lies within lo..hi and holds both ends; it is empty exactly when the range is; it is the whole range up to five values, and has five values beyond |
| OptimGrid.FirstIndex | fpbiolib/twarp/optim_cow.py:147-147 | the first position of a value: it holds the value and no earlier position does |
| OptimGrid.TopFirsts | fpbiolib/twarp/optim_cow.py:147-148 | `c[-3:]`: the first positions of the last min(3, number of distinct values) distinct values |
| OptimGrid.SeedValues | fpbiolib/twarp/optim_cow.py:154-154 | the scores of the seeds, one per seed |
| OptimGrid.SeedsFacts | fpbiolib/twarp/optim_cow.py:147-148 | there are at most three seeds; each is the first column with its score; their scores rise strictly; and every score at least the first seed's (every score at all when there are fewer than three) is a seed's score |
| OptimGrid.TopFirstsRise | fpbiolib/twarp/optim_cow.py:147-148 | over the sorted distinct scores, the seeds' scores rise strictly |
| OptimGrid.TopFirstsCover | fpbiolib/twarp/optim_cow.py:147-148 | every score at least the first seed's is the score of a seed |
| OptimGrid.Effective | fpbiolib/twarp/optim_cow.py:55-56 | options not of length 4 (or absent) become `[0, 3, 50, 0.15]`; otherwise they are kept as given |
| OptimStep.Order3 | fpbiolib/twarp/optim_cow.py:182-182 | `np.argsort` of three scores is a permutation of 0..2 that orders them, with equal scores in their original order |
| OptimStep.Count | fpbiolib/twarp/optim_cow.py:185-190 | one entry of `position` counts at most all the points |
| OptimStep.Position | fpbiolib/twarp/optim_cow.py:185-190 | `position` has four counts, each at most the number of points |
| OptimStep.CountSides | fpbiolib/twarp/optim_cow.py:185-190 | a point of the simplex is not counted on either side of itself, so each pair of opposite counts is below the number of points |
| OptimStep.CountThree | fpbiolib/twarp/optim_cow.py:185-190 | a count over three points adds one indicator per point |
| OptimStep.PositionThree | fpbiolib/twarp/optim_cow.py:185-190 | the four counts of a point among three points, each as a sum of indicators |
| OptimStep.PositionBounds | fpbiolib/twarp/optim_cow.py:185-190 | for a point of a three-point simplex, the two counts of each axis add up to at most 2 |
| OptimStep.RenderFour | fpbiolib/twarp/optim_cow.py:208-208 | `f"{position}"` of four single-digit counts is `[a, b, c, d]` |
| OptimStep.CompileFour | fpbiolib/twarp/optim_cow.py:192-205 | a pattern of four cells is the four cell tokens separated by `, ` |
| OptimStep.CellAccepts | fpbiolib/twarp/optim_cow.py:197-204 | a cell's token (`\d` or a digit) accepts a digit exactly when the cell does, and never a bracket or a comma |
| OptimStep.OnlyAfterBracket | fpbiolib/twarp/optim_cow.py:207-208 | a match of a four-cell pattern in the printed counts can only start just after the opening bracket |
| OptimStep.AtOne | fpbiolib/twarp/optim_cow.py:207-208 | there the pattern matches exactly when each cell accepts its count |
| OptimStep.FoundIffFit | fpbiolib/twarp/optim_cow.py:207-208 | for counts below ten, `findall` finds the pattern exactly when its cells accept the counts |
| OptimStep.TableOK | fpbiolib/twarp/optim_cow.py:192-205 | every entry of the pattern table has four cells, each `\d` or a digit below ten |
| OptimStep.LastHit | fpbiolib/twarp/optim_cow.py:207-209 | the entry whose move is taken is the last entry that matches; there is none exactly when no entry matches |
| OptimStep.Dispatch | fpbiolib/twarp/optim_cow.py:207-209 | the loop over the table assigns the move of the last matching entry, and leaves the new column at (0, 0) when none matches |
| OptimStep.LastHitUnique | fpbiolib/twarp/optim_cow.py:207-209 | the last hit is determined by those properties |
| OptimStep.SmallCounts | fpbiolib/twarp/optim_cow.py:185-190 | the counts of a point of a three-point simplex print as single digits |
| OptimStep.HitsByCells | fpbiolib/twarp/optim_cow.py:192-209 | on those counts, entry k applies exactly when its cells accept the counts |
| OptimStep.SameThree | fpbiolib/twarp/optim_cow.py:183-209 | when the three points coincide no entry applies, and the candidate is the zero column's (0, 0) |
| OptimStep.CornerMove | fpbiolib/twarp/optim_cow.py:197-198 | the largest-slack point of an L-shaped simplex has counts [0, 1, 2, 0] and moves two steps down in slack |
| OptimStep.LaterEntryWins | fpbiolib/twarp/optim_cow.py:197-200 | counts [2, 0, 2, 0] fit two entries, and the later one decides the move |
| OptimCow.Earlier | fpbiolib/twarp/optim_cow.py:361-367 | `index3[0]`: the first earlier column with the same pair, none when there is none |
| OptimCow.Evaluate | fpbiolib/twarp/optim_cow.py:361-424 | `optim_eval` fails only when the checks of `cow` fail |
| OptimCow.EvaluateMeaning | fpbiolib/twarp/optim_cow.py:374-422 | a pair met before copies the first such column's scores, with exitflag 1; a new infeasible pair scores zero with exitflag 2; a new feasible pair fails exactly when the checks of `cow` fail, and otherwise has exitflag 0, the slack `cow` reports, and a warping effect equal to simplicity plus peak factor |
| OptimCow.ReportedSegment | fpbiolib/twarp/optim_cow.py:411-412 | after lengthening by 200 points, the slack recorded is the slack asked for; the segment recorded is the one asked for when there are several segments, and ref_m + 200 when there is one |
| OptimCow.PrepNominal | fpbiolib/twarp/optim_cow.py:393-399 | an accepted `cow` call of the search cuts the lengthened signals with the default split and keeps the slack asked for |
| OptimCow.OneSegmentExample | fpbiolib/twarp/optim_cow.py:411-412 | signals of 10 points with segment 150 and slack 1 give one segment, so the column records (210, 1) instead of (150, 1) |
| OptimCow.Record | fpbiolib/twarp/optim_cow.py:163-166 | appending one evaluated column keeps the earlier ones, and fails exactly when `optim_eval` does |
| OptimCow.Row | fpbiolib/twarp/optim_cow.py:120-124 | one pair per slack of bg |
| OptimCow.GridPoints | fpbiolib/twarp/optim_cow.py:117-124 | the grid has |ag| * |bg| pairs |
| OptimCow.GridOrder | fpbiolib/twarp/optim_cow.py:117-124 | column a * |bg| + b of the grid is the pair (ag[a], bg[b]), the segment loop outer |
| OptimCow.GridPhase | fpbiolib/twarp/optim_cow.py:113-136 | the grid phase gives |ag| * |bg| columns, asked in loop order, each the evaluation of its pair after the columns before it |
| OptimCow.Scores | fpbiolib/twarp/optim_cow.py:182-182 | `OS[2, ps]` has one score per point of the simplex |
| OptimCow.Pts | fpbiolib/twarp/optim_cow.py:185-190 | `OS[0:2, ps]` has one pair per point of the simplex |
| OptimCow.SimplexKept | fpbiolib/twarp/optim_cow.py:182-190 | appending columns does not change the scores or pairs of the simplex |
| OptimCow.StalledIntro | fpbiolib/twarp/optim_cow.py:219-262 | two reflections that each score no better than the point they reflect stop the search |
| OptimCow.Move | fpbiolib/twarp/optim_cow.py:181-267 | one pass of `while pt` appends one or two evaluated columns and keeps a simplex of three columns; when it stops the search, both reflections scored no better than the points they reflect |
| OptimCow.Descend | fpbiolib/twarp/optim_cow.py:157-270 | a search from a seed first probes one segment and one slack beyond it, then takes between 3 and Bound(options[2]) + 2 steps, where Bound(c) = max(floor(c), 2) (`OptimCow.Bound`), and ends when the step count reaches `options[2]` or both reflections fail to improve |
| OptimCow.FallbackNeverRuns | fpbiolib/twarp/optim_cow.py:58-59 | without a reference the code as written fails, even for signals without NaN from which the intended fallback picks a row |
| OptimCow.FallbackAsIntended | fpbiolib/twarp/optim_cow.py:58-59 | the intended fallback gives the row the correlation criterion picks, and fails only as `ref_select` does (NaN values, no signals) |
| OptimCow.GivenReference | fpbiolib/twarp/optim_cow.py:58-58 | a given reference is used as it is |
| OptimCow.Effects | fpbiolib/twarp/optim_cow.py:280-280 | `OS[2, :]`, one number per column |
| OptimCow.BestIsFirstMax | fpbiolib/twarp/optim_cow.py:280-281 | the optimum column has the largest warping effect, and every earlier column a smaller one |
| OptimCow.RealEffects | fpbiolib/twarp/optim_cow.py:147-147 | the real scores, one per column |
| OptimCow.SearchFrom | fpbiolib/twarp/optim_cow.py:157-278 | one search appends between 3 and Bound(options[2]) + 2 evaluated columns and keeps the earlier ones |
| OptimCow.Searches | fpbiolib/twarp/optim_cow.py:151-278 | the searches from the seeds keep the grid columns, and each adds at most Bound(options[2]) + 2 evaluated columns |
| OptimCow.Optimise | fpbiolib/twarp/optim_cow.py:113-282 | OS starts with the grid in loop order, every column is the evaluation of its pair, it has at most 3 * (Bound(options[2]) + 2) more columns, and the answer is the pair of the first column with the largest warping effect |
| OptimCow.ZeroSignalFails | fpbiolib/twarp/optim_cow.py:70-71 | a row of zeros makes the svd fail, and a row 0, 1, 2, ... does not |
| OptimCow.OptimCowSearch | fpbiolib/twarp/optim_cow.py:10-282 | `optim_cow` fails when the reference fails (an empty ref is replaced by the intended `ref_select` fallback), then when optim_space is not of length 4, then when y holds a NaN or only zeros (the svd of y over its norm raises), then for an empty range, and otherwise only when the checks of `cow` fail; on success it gives the optimum pair and OS as Optimise states |

## Left out

- Randomness: `extend_baseline` pads each signal with 200 values of random noise. Its failure on an empty target or empty rows is modelled (`EmptySignal`). The model keeps the lengthening by 200 points and the trim of the last 200 columns; the padding values are not modelled.
- Foreign numerics in `cow`: the correlation of an interpolated segment (centring, `np.dot`, `np.sqrt`) is the parameter `cc` of `CowMain.Cow`. It returns `None` for a non-finite value, which then counts as 0. `np.interp` in the reconstruction is the parameter `ip`. `cc` stands for the correlation of a segment resampled through the `interp_coeff` tables; `CowMain.PlanTables` builds those tables, but the model does not connect them to `cc`.
- CowMain.Cow: requires a band of 0 (`Options[3]`). For a nonzero band the validation and the narrowed windows are modelled (`CowSegments.BandLower`, `CowSegments.BandNarrows`), but the dynamic programming over fractional windows is not, because `Table_Index` casts them with `dtype=int`.
- CowMain.Cow: cuts the signals with the corrected segmentation of the Findings. Its failures and its boundaries therefore differ from the source's in two cases: the equal-length mode when (ym - 1) % LenSeg[1, 0] is not the signal's leftover, and predefined boundaries that start at 0 or have only one wrong end.
- CowMain.Segmentation: uses `CowSegments.Uniform` and `CowSegments.Predefined`, the corrected cuts, and not `CowSegments.UniformAsWritten` and `CowSegments.PredefinedAsWritten`. The code as written is modelled by the latter two and shown to differ by `CowSegments.EqualRemainderShort` and `CowSegments.ZeroBasedOvershoots`.
- CowMain.SegmentationCovers: the coverage is that of the corrected cut. The source's own cut can fall short of ym - 1 (`CowSegments.EqualRemainderShort`) or overshoot ref_m (`CowSegments.ZeroBasedOvershoots`).
- CowMain.PrepareMeaning: describes the checks with the corrected segmentation. Boundaries such as [[0, ref_m], [0, ym]], or with only one wrong end, pass the source's boundary check (cow.py:90-92) and are rejected here; with [[0, ref_m], [0, ym]] the source then reads past the end of ref (cow.py:255), as `CowSegments.ZeroBasedOvershoots` shows.
- Multiple slacks: `Slack` is one integer. The branch for a slack array (`cow.py` lines 151-156), which only prints and carries on, is not modelled.
- Correlation power: modelled as an integer 1..4. A non-integer power in range is not modelled.
- Signals: `y` is a sequence of rows, and a one-dimensional `y` is a single row. The rows are warped one after the other; numpy vectorises over them.
- Plan with no segments: then the slack plays no part, and a negative one is taken as 0 in the windows.
- Progress output: the prints of `cow`, `optim_cow` and `ref_select`, the timings, and the commented-out plotting.
- OptimCow.Evaluate: the simplicity (an SVD of the warped signals) and the peak factor (from their norms) are functions of the pair, given with the setting. They are not computed from the signals.
- OptimCow.Evaluate: when the call of `cow` on all rows raises, the source calls it again row by row (`optim_cow.py` lines 401-409). The model fails at once. The checks the model makes do not depend on the number of rows, except that there must be at least one signal, so the rows would fail them alike.
- OptimCow.SearchFrom: states only how many columns one search appends and that each is an evaluation. The probe pairs and the stop rule are stated by `OptimCow.Descend`.
- OptimCow.Searches: does not state that the searches start from the seeds. The seeds are described by `OptimGrid.SeedsFacts` and each search by `OptimCow.Descend`.
- OptimCow.Optimise: states the grid prefix, the bound on the size of OS and the argmax, but not the seeds the searches start from, for the same reason.
- OptimCow.OptimCowSearch: the same as `OptimCow.Optimise`.
- OptimCow.OptimCowSearch: with an empty `ref` it uses the intended fallback `OptimCow.Reference`. The source always raises there (`OptimCow.FallbackNeverRuns`), while the model goes on for NaN-free signals with at least one row.
- OptimCow.Evaluate: a call that passes the checks of `cow` is taken as succeeding. `optim_eval` passes a band of round(|ref| * fraction), which is in general nonzero. The dynamic programming for such a band, whose windows are fractional when ref_m differs from ym, is not modelled (see the `CowMain.Cow` line), so the model does not say whether it raises.
- OptimCow.EvaluateMeaning: its failure condition is that of the checks of `cow`, for the reason given for `OptimCow.Evaluate`.
- OptimCow.OptimCowSearch: `SvdFailed` is returned when y holds a NaN or has values that are all 0, which make `A` NaN. A y with no values at all (no rows, or rows of no samples) is not taken as an svd failure. Such a y fails later in `cow` (`NoSignals`, `EmptySignal`) once the grid is not empty. An overflow of the sum of squares to infinity is not modelled, because the values are exact reals.
- Ties and NaN in `optim_cow`: `np.argsort` of the three scores is taken as stable, and the warping effects are real numbers, never NaN.
- `optim_space`: a range with its maximum below its minimum gives an empty grid axis, and the model reports it as `EmptySpace`. The source raises nothing there. It seeds the searches from the only column of OS, which is still the uninitialised `np.empty((5, 1))`, so what follows depends on whatever that memory holds. `EmptySpace` is the model's choice. `options[1]` (the number of starts) is not used by the source, which always takes up to three seeds; the model does the same. Options given as `None` are taken as the empty sequence.
- Pattern table: `\d` is taken as the ASCII digits. The counts are single digits, so nothing else can occur.
- `ref_select`: the plotting and the interactive `input()` loop of mode 0 are left out. The loop asks again until the user types a number from 1 to 5, so the choice is a parameter of type `RefSelect.Choice`. The plotting flag options[1] is read but its value is not modelled; only whether it exists matters (`RefSelect.RefSelectList`). Options are integers: a list holding other values is not modelled. `not x` on a numpy array of labels is not modelled: an empty sequence stands for absent labels.
- `ref_select` numerics: `eps` is added as an exact real, and floating-point rounding is not modelled. The convergence test of `biwmean` is taken in its square-root form (`RefSelect.MovedSquared`), which agrees with the squared test over exact reals.
- `rounders.py`: only `base_roundup`, `base_rounddown` and `ten_to_the_x` are modelled. The log-based `interval_range` and the order-of-magnitude rounders are left out.
- Rounders.TenToTheX: only integer exponents are modelled, because 10 ** r for a non-integer r is in general irrational and has no Dafny `real`. The callers in fpbiolib/dash/log_single_float.py (line 81) and fpbiolib/dash/log_float_range.py (lines 92 and 98) pass slider values rounded to two decimals, which the model does not cover.
- Rounders.BaseRoundup: x / base and base * ceil(...) are exact reals. The rounding of the float division is not modelled.
- Rounders.BaseRounddown: the same, for floor.
- Formatting.StrPxWidth: returns the width as a number. The source returns the string f"{px_width}px". For a sum of float widths that string is Python's float repr, which is not modelled.
- Formatting.ProcessStrList: the conversion of each piece to a float is the parameter `parse`, because Python's float parsing is not modelled.
- Lists.MakeListValsUnique: does not state that the first occurrence of every name is kept, because that does not hold (`Lists.FirstOccurrenceRenamedExample`: `["a", "a", "a_1"]` gives `["a", "a_1", "a_1_2"]`). The property that holds instead, that a name not yet in the output is kept, is the one stated.
- DataFrames: `rename_dup_cols_in_two_dfs` works on the two column-name arrays. The rest of the DataFrames is not modelled.

## Findings

| source | as written | input that shows it | evidently intended | confidence | as-written member | corrected member |
|---|---|---|---|---|---|---|
| tracetools/lists.py:4-9 | a colliding name becomes `name_count` without a check that `name_count` is free | `["a_1", "a", "a"]` gives `["a_1", "a", "a_1"]` | the output names are pairwise distinct | not executed | `Lists.NotUniqueExample` | `Lists.MakeListValsUniqueFixed` |
| fpbiolib/df_cleanup.py:117-124 | `update_val` checks a generated name only against the original values, not against names already generated | with the defaults (sep "", start 1, update_first true), `["a", "a", "a1", "a1", "a2", ..., "a10"]`: the first "a" and the first "a1" both become "a11" | no name of the result repeats | not executed | `DfCleanup.DefaultSepRepeats` | `DfCleanup.FixDupsChecked` |
| fpbiolib/twarp/cow.py:131-133 | in the equal-length mode the signal remainder is `(ym - 1) % LenSeg[1, 0]` | ref_m 31, ym 36, Seg 3, `Options[2]` set: ten signal segments of 3 plus 2 span 32 of the 35 intervals, so bP ends at 33, not 36 | the last signal segment takes what is left, (ym - 1) - nSeg * LenSeg[1, 0], so the segments span ym - 1 | not executed | `CowSegments.EqualRemainderShort` | `CowSegments.UniformCovers` |
| fpbiolib/twarp/cow.py:90-92 | the check raises only when the first column differs from (0, 0) and the last from (ref_m, ym) at the same time, and it asks for a start at 0 | boundaries `[[0, ref_m], [0, ym]]` pass, and the 1-based `bT` then ends at ref_m + 1, past the reference | as the message says, the boundaries start at 1 and end at ref_m and ym, and either wrong end raises | not executed | `CowSegments.ZeroBasedOvershoots` | `CowSegments.PredefinedCovers` |
| fpbiolib/twarp/optim_cow.py:58-59 | without a reference, `ref_select(y=y, varlabels=None, options=[5, 0])` passes a keyword `ref_select` does not take, so the call always raises | any `y` with an empty `ref` | `ref_select(y, options=[5, 0])`: the row with the largest product of squared correlations | not executed | `OptimCow.FallbackNeverRuns` | `OptimCow.FallbackAsIntended` |
| fpbiolib/twarp/ref_select.py:5-64 | `options` defaults to None and line 64 reads `options[0]`, which raises TypeError | `ref_select(y)` for any `y` whose labels match and that has no NaN | the default [0, 1] the docstring gives (line 32): interactive selection with plotting | not executed | `RefSelect.DefaultOptionsFail` | `RefSelect.DefaultOptionsInteractive` |
