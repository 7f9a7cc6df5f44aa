# PyhDToolkit core, modelled in Dafny

PyhDToolkit is a toolbox for accelerator-physics studies: helpers around MAD-X
(driven through cpymad) for the LHC and HL-LHC, tune and resonance maths,
a parser for HTCondor's `condor_q` output, and plotting utilities. This project
models the parts of it that are sequential and deterministic, and proves what
they promise:

- the generic list, number and string helpers and the recursive quick sort
  (`utils/operations.py`, `utils/sorts.py`);
- the Farey-sequence generator and order tables of the tune diagram, and the
  resonance-driving-term decomposition (`plotting/tune.py`, `optics/rdt.py`);
- the footprint serializer, its parser and the `_Footprint` traversal
  (`cpymadtools/tune.py`);
- the `condor_q` output parser (`utils/htcondor.py`);
- the LHC configuration logic: knob arithmetic, orbit schemes, magnetic-error
  switches, knob-name tables, and the MAD-X commands emitted by the error,
  element and matching routines (`cpymadtools/lhc/*`, `cpymadtools/constants.py`,
  `cpymadtools/utils.py`, `cpymadtools/matching.py`);
- the small pure helpers of `plotting/utils.py`.

MAD-X itself is not modelled. Its global-variable table is a `map<string, real>`
keyed by the lower-cased variable name (MAD-X names are case-insensitive), and
every command a routine issues is appended to a log of `Madx.Command` values. A
routine is a function from one `Madx.Madx` state to the next; a routine that can
raise after it has issued commands returns an `Madx.Outcome` carrying the state
at the moment of the raise. Python exceptions are the `Errors.PyError` values of
a `Result`. Python floats are Dafny reals (exact); integer truncation and Python's
floor division and modulo are written out where the source uses them.

Files: `errors.dfy` (Result, Option, exception kinds), `text.dfy` (decimal
formatting and parsing, whitespace splitting, ASCII case mapping), one file per
modelled source module, and `madx.dfy` for the MAD-X state.

## Model

| member | source | states |
|---|---|---|
| ListOperations.AllUnique | pyhdtoolkit/utils/operations.py:28-44 | true exactly when no element of the list occurs twice |
| ListOperations.HasDuplicates | pyhdtoolkit/utils/operations.py:278-296 | true exactly when two different positions hold equal elements |
| ListOperations.SetSizeDetectsRepeats | pyhdtoolkit/utils/operations.py:44 | the set of a list is never larger than the list, and has the same size exactly when no element repeats |
| ListOperations.AllUniqueIsNotHasDuplicates | pyhdtoolkit/utils/operations.py:278-296 | `all_unique` is always the negation of `has_duplicates` |
| ListOperations.Bifurcate | pyhdtoolkit/utils/operations.py:91-94 | a filter list shorter than the input is an IndexError; otherwise the two halves hold as many elements as there are True and False filters, together the whole input, and merging them back along the filters gives the input |
| ListOperations.MergePick | pyhdtoolkit/utils/operations.py:91-94 | merging the True half and the False half along the filters rebuilds the input |
| ListOperations.PickMerge | pyhdtoolkit/utils/operations.py:91-94 | picking the two halves out of a merge gives back the halves, so bifurcation with fixed filters is a bijection |
| ListOperations.CountSplit | pyhdtoolkit/utils/operations.py:91-94 | every filter is counted in exactly one half |
| ListOperations.BifurcateBy | pyhdtoolkit/utils/operations.py:119 | the first half holds exactly the elements satisfying the predicate, the second exactly the others |
| ListOperations.BifurcateByIsBifurcate | pyhdtoolkit/utils/operations.py:97-119 | `bifurcate_by` equals `bifurcate` with the filters computed by the predicate |
| ListOperations.PickFlagsIsFilter | pyhdtoolkit/utils/operations.py:119 | picking by computed flags is filtering by the predicate and by its negation |
| ListOperations.CeilDivIsCeiling | pyhdtoolkit/utils/operations.py:145 | the chunk count is the least count whose chunks cover the list |
| ListOperations.Slices | pyhdtoolkit/utils/operations.py:145 | every chunk is non-empty and at most `size` long, and every chunk but the last is exactly `size` long |
| ListOperations.SlicesFlatten | pyhdtoolkit/utils/operations.py:145 | concatenating the chunks gives back the list |
| ListOperations.SlicesCount | pyhdtoolkit/utils/operations.py:145 | there are ceil(len/size) chunks |
| ListOperations.SlicesAreSlices | pyhdtoolkit/utils/operations.py:145 | chunk `x` is `s[x*size : x*size+size]`, clipped to the end of the list |
| ListOperations.ChunkList | pyhdtoolkit/utils/operations.py:143-145 | size 0 is a ZeroDivisionError; a size larger than the list returns the list itself; a negative size gives no chunks; otherwise ceil(len/size) chunks that concatenate to the input |
| ListOperations.ChunkListExample | pyhdtoolkit/utils/operations.py:139-140 | `chunk_list(range(10), 3)` is `[[0,1,2],[3,4,5],[6,7,8],[9]]` |
| ListOperations.EvalSome | pyhdtoolkit/utils/operations.py:225 | true exactly when some element satisfies the predicate |
| ListOperations.EvalNone | pyhdtoolkit/utils/operations.py:197 | true exactly when no element satisfies the predicate |
| ListOperations.GetIndices | pyhdtoolkit/utils/operations.py:248 | exactly the positions holding the element, strictly ascending; empty when the element is absent |
| ListOperations.GroupBy | pyhdtoolkit/utils/operations.py:270-275 | the keys are distinct, are exactly the images of the items and come in the order of their first occurrence, as the dict keeps them; each key's group is the in-order list of the items with that key |
| ListOperations.DedupFirstOccurrence | pyhdtoolkit/utils/operations.py:273-274 | assigning the keys in turn to a dict leaves them in the order of their first occurrence |
| ListOperations.GroupByPartitions | pyhdtoolkit/utils/operations.py:270-275 | together the groups hold exactly the input, as a multiset |
| ListOperations.SanitizeList | pyhdtoolkit/utils/operations.py:336 | exactly the truthy items are kept, in their order and with every copy (a Subsequence holding each truthy item as often as the input does), and sanitizing again changes nothing |
| ListOperations.FilterIdempotent | pyhdtoolkit/utils/operations.py:336 | filtering twice by the same predicate is filtering once |
| ListOperations.Spread | pyhdtoolkit/utils/operations.py:392 | a non-iterable element is a TypeError, anything else succeeds |
| ListOperations.SpreadIsFlatten | pyhdtoolkit/utils/operations.py:392 | spreading a list of lists is concatenating them |
| ListOperations.SpreadUndoesChunkList | pyhdtoolkit/utils/operations.py:392 | spreading the chunks of `chunk_list` gives back the list |
| ListOperations.SymmetricDifferenceBy | pyhdtoolkit/utils/operations.py:422-426 | the result is the items of the first list whose key the second lacks, in order and with every copy, followed by the items of the second list whose key the first lacks, likewise |
| ListOperations.FilterKeepsOrder | pyhdtoolkit/utils/operations.py:424-426 | a comprehension with a filter keeps the accepted items in order, each as often as in the input, and nothing else |
| ListOperations.FilterUnique | pyhdtoolkit/utils/operations.py:424-426 | the filtered list is the only in-order selection holding every copy of the accepted items and nothing else |
| ListOperations.SymmetricDifferenceBySymmetric | pyhdtoolkit/utils/operations.py:422-426 | swapping the two lists only reorders the result |
| ListOperations.UnionBy | pyhdtoolkit/utils/operations.py:459-460 | the result is strictly increasing and holds exactly the items of the first list and those of the second whose key the first list lacks |
| ListOperations.MaxLen | pyhdtoolkit/utils/operations.py:488 | the maximum length over the arguments |
| ListOperations.Zipper | pyhdtoolkit/utils/operations.py:488-489 | no argument is a ValueError; otherwise as many rows as the longest argument, row `i` holding `args[k][i]` for each argument or the fill value past its end |
| ListOperations.ZipperTwiceIsIdentity | pyhdtoolkit/utils/operations.py:488-489 | on equally long non-empty arguments, zipping twice gives the arguments back |
| NumberOperations.ClampNumber | pyhdtoolkit/utils/operations.py:577 | the result lies between the two bounds, equals the number when it already does, and is the nearest such point to the number |
| NumberOperations.ClampNumberSymmetric | pyhdtoolkit/utils/operations.py:577 | the order of the two bounds does not matter |
| NumberOperations.ClampNumberIdempotent | pyhdtoolkit/utils/operations.py:577 | clamping a clamped number changes nothing |
| NumberOperations.GcdIsGreatestCommonDivisor | pyhdtoolkit/utils/operations.py:633 | `math.gcd` divides both arguments and every common divisor divides it |
| NumberOperations.GcdFoldIsGreatest | pyhdtoolkit/utils/operations.py:633 | the left fold of `math.gcd` divides every element and every common divisor of all elements divides it |
| NumberOperations.GreatestCommonDivisor | pyhdtoolkit/utils/operations.py:633 | an empty sequence is a TypeError; one element is returned as is; otherwise a non-negative greatest common divisor of all the elements |
| NumberOperations.GreatestCommonDivisorExamples | tests/test_utils.py:451 | gcd([54,24]) = 6, gcd([57,37,18]) = 1 and gcd([0,0]) = 0 |
| NumberOperations.PyMod | pyhdtoolkit/utils/operations.py:654 | Python's `%`: the remainder takes the sign of the divisor and differs from the dividend by a multiple of it |
| NumberOperations.IsDivisibleBy | pyhdtoolkit/utils/operations.py:654 | a zero divisor is a ZeroDivisionError; otherwise true exactly when the divisor divides the dividend |
| NumberOperations.PyModZeroIffDivides | pyhdtoolkit/utils/operations.py:654 | a zero Python remainder means exact divisibility, and back |
| NumberOperations.IsDivisibleByExamples | tests/test_utils.py:462-469 | 25 by 5 and -5 by 5 are divisible, -100 by -7 and 35 by 15 are not, and 50 by 0 is a ZeroDivisionError |
| NumberOperations.LcmPair | pyhdtoolkit/utils/operations.py:683-685 | two zeros are a ZeroDivisionError (gcd 0 as divisor) |
| NumberOperations.LcmPairIsLeastCommonMultiple | pyhdtoolkit/utils/operations.py:683-685 | `x*y/gcd(x,y)` is a multiple of both, divides every common multiple, and is 0 exactly when one argument is |
| NumberOperations.LcmFoldIsLeast | pyhdtoolkit/utils/operations.py:687 | the fold fails exactly when two zeros meet, is 0 exactly when a 0 is present, and is otherwise a common multiple dividing every common multiple |
| NumberOperations.LeastCommonMultiple | pyhdtoolkit/utils/operations.py:680-687 | a non-iterable argument or no numbers at all is a TypeError; otherwise the least-common-multiple fold over the spread arguments with its error cases |
| NumberOperations.LcmFoldStep | pyhdtoolkit/utils/operations.py:687 | the fold is a left fold: the last number is combined with the result of the others |
| NumberOperations.LeastCommonMultipleExamples | tests/test_utils.py:476-482 | lcm of 4 and 5 is 20, and two zeros are a ZeroDivisionError |
| NumberOperations.LeastCommonMultipleExampleNegative | tests/test_utils.py:476 | lcm of -1, 5, 10 is -10 (signs carry through the product) |
| NumberOperations.LeastCommonMultipleExampleZero | tests/test_utils.py:476 | lcm of 0, 10, 50 is 0 |
| NumberOperations.LeastCommonMultipleExampleLong | tests/test_utils.py:476 | lcm of 2, 5, 17, 632 is 53720 |
| NumberOperations.LcmPairAsWritten | pyhdtoolkit/utils/operations.py:685 | with float true division, the result is the exact lcm whenever that lies below 2^53 |
| NumberOperations.LcmPairAsWrittenLosesPrecision | pyhdtoolkit/utils/operations.py:685 | for 2^53+1 and 2 the float division rounds to 2^54, which 2^53+1 does not divide |
| StringOperations.Capitalize | pyhdtoolkit/utils/operations.py:769 | the length is kept, the first character is upper-cased, and the rest is lower-cased when asked and otherwise kept |
| StringOperations.CapitalizeIdempotent | pyhdtoolkit/utils/operations.py:769 | capitalizing twice is capitalizing once |
| StringOperations.CapitalizeLowerRestIgnoresCase | pyhdtoolkit/utils/operations.py:769 | with `lower_rest`, the case of the input does not matter |
| StringOperations.CapitalizeExamples | pyhdtoolkit/utils/operations.py:769 | "aStR" becomes "Astr" with `lower_rest` and "AStR" without; "" stays "" |
| StringOperations.Clean | pyhdtoolkit/utils/operations.py:828 | a character is in the cleaned text exactly when it is a letter or digit of the lower-cased text |
| StringOperations.CleanKeepsOrder | pyhdtoolkit/utils/operations.py:828 | `re.sub` keeps the letters and digits of the lower-cased text in order, each as often as before, and removes everything else |
| StringOperations.IsPalindrome | pyhdtoolkit/utils/operations.py:828-829 | true exactly when the cleaned text reads the same backwards |
| StringOperations.IsPalindromeOfReverse | pyhdtoolkit/utils/operations.py:828-829 | a text and its reverse are palindromes together |
| StringOperations.IsPalindromeOfMirror | pyhdtoolkit/utils/operations.py:828-829 | a text followed by its reverse is a palindrome |
| StringOperations.IsPalindromeOfMirroredText | pyhdtoolkit/utils/operations.py:828-829 | a mirrored text of lower-case letters and digits is a palindrome |
| StringOperations.IsPalindromeExamples | tests/test_utils.py:565 | "racecar" is a palindrome |
| StringOperations.IsPalindromeEmpty | tests/test_utils.py:565 | "" is a palindrome |
| StringOperations.IsPalindromeCounterExample | tests/test_utils.py:565 | "definitelynot" is not a palindrome |
| StringOperations.CleanReverse | pyhdtoolkit/utils/operations.py:828 | cleaning commutes with reversal |
| StringOperations.Letters | pyhdtoolkit/utils/operations.py:797-802 | the compared text is the lower-cased text without its spaces and apostrophes: the other characters stay in order, each as often as before |
| StringOperations.IsAnagram | pyhdtoolkit/utils/operations.py:797-802 | true exactly when the two compared texts hold the same characters with the same multiplicities |
| StringOperations.SortedCodesEqualIffSameMultiset | pyhdtoolkit/utils/operations.py:802 | two sorted character lists are equal exactly when the texts are permutations of each other |
| StringOperations.IsAnagramIgnoresSpacesAndApostrophes | pyhdtoolkit/utils/operations.py:797-800 | appending spaces and apostrophes does not change the verdict |
| StringOperations.IsAnagramExamples | tests/test_utils.py:551-552 | "" is an anagram of "", and not of a non-empty word |
| Sorts.Lesser | pyhdtoolkit/utils/sorts.py:24-28 | only elements not greater than the pivot go to `lesser` |
| Sorts.Greater | pyhdtoolkit/utils/sorts.py:24-28 | only elements greater than the pivot go to `greater` |
| Sorts.PartitionIsPermutation | pyhdtoolkit/utils/sorts.py:20-28 | the two partitions together are the rest of the list, duplicates included |
| Sorts.QuickSort | pyhdtoolkit/utils/sorts.py:16-29 | lists of length at most one come back unchanged, and the length is always kept |
| Sorts.QuickSortPermutes | pyhdtoolkit/utils/sorts.py:20-29 | the result is a permutation of the input |
| Sorts.QuickSortSorts | pyhdtoolkit/utils/sorts.py:20-29 | the result is in ascending order |
| Sorts.QuickSortCorrect | pyhdtoolkit/utils/sorts.py:10-29 | sorted and a permutation of the input |
| Sorts.QuickSortCall | pyhdtoolkit/utils/sorts.py:16-29 | besides the sorted permutation, the caller's list loses exactly its last element when it had more than one |
| Sorts.SortedPermutationsAreEqual | pyhdtoolkit/utils/sorts.py:10-29 | a sorted permutation is unique, so quick sort agrees with any other sort |
| Sorts.QuickSortExampleDuplicates | tests/utils/test_sorts.py:6-7 | [0,5,3,2,2] sorts to [0,2,2,3,5] |
| Sorts.QuickSortExampleNegatives | tests/utils/test_sorts.py:10-15 | [] stays [], and [-2,-5,-45] sorts to [-45,-5,-2] |
| TuneDiagram.FareySequence | pyhdtoolkit/plotting/tune.py:74-80 | the output starts at 0/1; for order at least 1 it ends at 1/1, every term lies in [0, 1] with denominator at most the order, neighbours have determinant one and denominators summing past the order; orders 1 and 2 give [(0,1),(1,1)] and [(0,1),(1,2),(1,1)] |
| TuneDiagram.StepKeepsNeighbours | pyhdtoolkit/plotting/tune.py:76-78 | one step of the recurrence with k = (order + b) div d keeps the new denominator in 1..order and the neighbours at determinant one |
| TuneDiagram.FareyChainIncreasing | pyhdtoolkit/plotting/tune.py:55-62 | the terms are strictly increasing fractions |
| TuneDiagram.FareyChainComplete | pyhdtoolkit/plotting/tune.py:55-62 | every fraction in [0, 1] with denominator at most the order occurs, by value |
| TuneDiagram.FareyChainReduced | pyhdtoolkit/plotting/tune.py:55-62 | every term is in lowest terms |
| TuneDiagram.FareyChainUnique | pyhdtoolkit/plotting/tune.py:55-62 | there is only one sequence of that shape, so the output is the Farey sequence of that order |
| TuneDiagram.FareyChainSmallOrders | pyhdtoolkit/plotting/tune.py:74-80 | the only such sequences of orders 1 and 2 are [(0,1),(1,1)] and [(0,1),(1,2),(1,1)] |
| TuneDiagram.TablesCoverOrders | pyhdtoolkit/plotting/tune.py:25-52 | every ORDER_TO_* table is defined for exactly the orders 1 to 6 |
| TuneDiagram.StylesEmphasiseLowOrders | pyhdtoolkit/plotting/tune.py:25-42 | lower orders are drawn more opaque and thicker, and solid exactly up to order 3 |
| TuneDiagram.StyleFor | pyhdtoolkit/plotting/tune.py:153-158 | the table lookups fail with a KeyError outside orders 1 to 6; inside, the style carries the order's label, and the colour is plain blue exactly when orders are not differentiated |
| TuneDiagram.PlotTuneDiagramStyles | pyhdtoolkit/plotting/tune.py:143-159 | a maximum order outside 1 to 6 is a ValueError; otherwise one style per order, from the maximum order down to 1 |
| Rdt.Decompose | pyhdtoolkit/optics/rdt.py:23 | the RDT's text must be exactly four digits, otherwise ValueError; the digits are the indices j, k, l, m |
| Rdt.DecomposeOfIndicesText | pyhdtoolkit/optics/rdt.py:23 | decomposing the text of four digit indices gives them back |
| Rdt.IntegerRdtBelowThousandFails | pyhdtoolkit/optics/rdt.py:23 | an integer RDT below 1000 has fewer than four digits and fails |
| Rdt.IntegerRdtDecomposes | pyhdtoolkit/optics/rdt.py:23 | an integer RDT of four digits decomposes into its decimal digits |
| Rdt.OrderName | pyhdtoolkit/optics/rdt.py:25-34 | the order name exists exactly for orders 1 to 8, otherwise a KeyError naming the order |
| Rdt.RdtToOrderAndType | pyhdtoolkit/optics/rdt.py:23-35 | a malformed RDT is a ValueError; an order outside 1 to 8 a KeyError; otherwise "normal" when l+m is even and "skew" when odd, an underscore, then the name of order j+k+l+m |
| Rdt.OrderNamesInjective | pyhdtoolkit/optics/rdt.py:25-34 | different orders have different names |
| Rdt.RdtToOrderAndTypeDistinguishes | pyhdtoolkit/optics/rdt.py:24-35 | two RDTs get the same answer exactly when they share the parity of l+m and the order |
| Rdt.RdtToOrderAndTypeExampleInteger | pyhdtoolkit/optics/rdt.py:23-35 | 1001 is a skew quadrupole term |
| Rdt.RdtToOrderAndTypeExampleSkew | pyhdtoolkit/optics/rdt.py:23-35 | "0030" is a skew sextupole term |
| Rdt.RdtToOrderAndTypeExampleNormal | pyhdtoolkit/optics/rdt.py:23-35 | "0011" is a normal quadrupole term |
| Rdt.RdtToOrderAndTypeExampleTooHigh | pyhdtoolkit/optics/rdt.py:25-35 | "5500" has order 10 and is a KeyError |
| Rdt.DetermineRdtLine | pyhdtoolkit/optics/rdt.py:53-55 | a malformed RDT is a ValueError; a plane other than "X" or "Y" (case-sensitive) a KeyError; the third component is always 0 |
| Rdt.RdtLineIsIndexDifference | pyhdtoolkit/optics/rdt.py:54 | the X line is (1-j+k, m-l, 0) and the Y line (k-j, 1-l+m, 0) |
| Rdt.RdtLinesOfBothPlanes | pyhdtoolkit/optics/rdt.py:54 | the X line is the Y line shifted by one unit from Qy to Qx |
| Rdt.DetermineRdtLineExamples | pyhdtoolkit/optics/rdt.py:49-55 | f1001 gives (0,1,0) in X and (-1,2,0) in Y; plane "x" is a KeyError; "101" is a ValueError |
| Footprint.ParseFloat | pyhdtoolkit/cpymadtools/tune.py:339 | `float()` accepts exactly the decimal, exponent, inf and nan literals between whitespace, otherwise ValueError; the value is kept as its text |
| Footprint.FloatTextChars | pyhdtoolkit/cpymadtools/tune.py:339 | an accepted float literal is non-empty and holds none of the delimiters `,` `;` `<` `>` of the serialization |
| Footprint.StartFormula | pyhdtoolkit/cpymadtools/tune.py:297 | amplitude n ≥ 1 starts at row 1+(n-1)·ANGLE |
| Footprint.Row | pyhdtoolkit/cpymadtools/tune.py:292 | `tunx[k]`, `tuny[k]` read row k, and a missing row is a KeyError |
| Footprint.DynapStringRep | pyhdtoolkit/cpymadtools/tune.py:290-299 | the serialization starts with "TMPNAME," |
| Footprint.DynapStringRepOutcome | pyhdtoolkit/cpymadtools/tune.py:292-299 | the serialization succeeds exactly when the table has the 1+(AMPLITUDE-1)·ANGLE rows it reads, otherwise a KeyError for the first missing row |
| Footprint.DynapStringRepOfBlocks | pyhdtoolkit/cpymadtools/tune.py:292-299 | the string is "TMPNAME", the amplitude, then "1" and row 0, then for each amplitude n ≥ 1 the angle count and its ANGLE rows, comma-joined |
| Footprint.ParseCount | pyhdtoolkit/cpymadtools/tune.py:330 | `int()` of a field succeeds exactly on decimal integer text, otherwise ValueError |
| Footprint.ParseTunePoint | pyhdtoolkit/cpymadtools/tune.py:338-339 | reading a point fails only with IndexError or ValueError |
| Footprint.PointItemRoundTrip | pyhdtoolkit/cpymadtools/tune.py:297-339 | a written item `<h;v>` is read back as the same point |
| Footprint.ParseFields | pyhdtoolkit/cpymadtools/tune.py:336-340 | reading `count` points consumes exactly `count` fields |
| Footprint.ParseGroups | pyhdtoolkit/cpymadtools/tune.py:332-340 | one group per amplitude, each group read after its angle count |
| Footprint.ParseGroupsErrors | pyhdtoolkit/cpymadtools/tune.py:330-340 | the group reader fails only by running out of fields (IndexError) or on a bad number (ValueError) |
| Footprint.MakeTuneGroups | pyhdtoolkit/cpymadtools/tune.py:327-341 | the parser fails only with IndexError or ValueError, and the `dsigma` argument plays no part |
| Footprint.SplitStripJoin | pyhdtoolkit/cpymadtools/tune.py:329 | stripping and splitting on commas undoes the comma join of the written fields |
| Footprint.TuneGroupsShape | pyhdtoolkit/cpymadtools/tune.py:292-299 | the groups of a table: one per amplitude, group 0 being row 0 alone |
| Footprint.TuneGroupsSlot | pyhdtoolkit/cpymadtools/tune.py:297 | slot m of group n ≥ 1 is row 1+(n-1)·ANGLE+m |
| Footprint.MakeTuneGroupsOfDynapStringRep | pyhdtoolkit/cpymadtools/tune.py:290-341 | round trip: parsing the serialization of a table with valid float rows gives exactly its groups |
| FootprintPlot.GetTune | pyhdtoolkit/cpymadtools/tune.py:353-361 | Python indexing of the groups: an amplitude out of range is an IndexError; an angle between the group's length and the maximum angle count gives the group's last point; other angles index the group, negative ones from the end, and fail past it |
| FootprintPlot.GetHTune | pyhdtoolkit/cpymadtools/tune.py:353-356 | the horizontal tune of the point `GetTune` selects |
| FootprintPlot.GetVTune | pyhdtoolkit/cpymadtools/tune.py:358-361 | the vertical tune of the point `GetTune` selects |
| FootprintPlot.Arange | pyhdtoolkit/cpymadtools/tune.py:365-396 | `np.arange(start, stop, step)`: term k is start+k·step, all on the start side of stop |
| FootprintPlot.TrailInGrid | pyhdtoolkit/cpymadtools/tune.py:363-397 | every lookup of the traversal is at an amplitude below the amplitude count and an angle below the angle count, or -1 |
| FootprintPlot.TrailCovers | pyhdtoolkit/cpymadtools/tune.py:363-397 | every (amplitude, angle) pair of the grid is visited |
| FootprintPlot.LookupAll | pyhdtoolkit/cpymadtools/tune.py:363-397 | the lookups succeed together or the first failure is an IndexError; on success one point per visit |
| FootprintPlot.GetPlottable | pyhdtoolkit/cpymadtools/tune.py:363-397 | the horizontal and vertical lists are equally long, one entry per visit of the traversal, holding that visit's tunes |
| FootprintPlot.GetTuneOfTuneGroups | pyhdtoolkit/cpymadtools/tune.py:353-361 | on the groups of a table, each lookup in the grid reads the table row of that amplitude and angle; amplitude 0 repeats row 0 for every angle |
| FootprintPlot.GetFootprintLinesOfFrame | pyhdtoolkit/cpymadtools/tune.py:179-186 | on a well-formed table the footprint lines exist, are equally long, and entry k is the row the k-th visit names |
| HtCondor.BreakIndex | pyhdtoolkit/utils/htcondor.py:172 | the first line boundary `str.splitlines` recognises, or the end of the text |
| HtCondor.SplitLines | pyhdtoolkit/utils/htcondor.py:172 | `str.splitlines()`: no line holds a boundary character, and only the empty text has no lines |
| HtCondor.SplitLinesOfJoinLines | pyhdtoolkit/utils/htcondor.py:172 | splitting lines joined with newlines gives those lines back |
| HtCondor.Search | pyhdtoolkit/utils/htcondor.py:300 | `re.search`: a match exists iff the anchored matcher succeeds at some offset, and the result is the one at the first such offset |
| HtCondor.SearchFirst | pyhdtoolkit/utils/htcondor.py:300 | the search returns the match at the first offset that matches |
| HtCondor.SchedAtMeaning | pyhdtoolkit/utils/htcondor.py:27 | the anchored `Schedd:\s+(?P<cluster>[^.]+)\.cern\.ch` matcher succeeds exactly when the pattern can match there, and captures the shortest capture the pattern allows (the greedy whitespace run leaves) |
| HtCondor.SchedAtComplete | pyhdtoolkit/utils/htcondor.py:27 | every way the pattern can match is found, with a capture no longer than its own |
| HtCondor.ParseSchedulerLine | pyhdtoolkit/utils/htcondor.py:281-307 | the scheduler name is found exactly when the pattern matches somewhere in the line; it is non-empty and has no dot; otherwise SchedulerInformationParseError carrying the line |
| HtCondor.ParseSchedulerLineOfText | pyhdtoolkit/utils/htcondor.py:281-307 | from a line `-- Schedd: <name>.cern.ch...` the name is read back, for a dot-free name not starting with whitespace |
| HtCondor.DigitRun | pyhdtoolkit/utils/htcondor.py:31-38 | the greedy `\d+` run at the front of the text |
| HtCondor.MatchCountsComplete | pyhdtoolkit/utils/htcondor.py:31-38 | the seven counts and labels of the summary pattern are read back from text that follows it |
| HtCondor.MatchCountsSound | pyhdtoolkit/utils/htcondor.py:31-38 | whatever the counts matcher reads comes from text of the pattern's shape with those digits |
| HtCondor.SummaryAtComplete | pyhdtoolkit/utils/htcondor.py:30-38 | a text starting with `Total for <query>: <n> jobs; <n> completed, …, <n> suspended` is matched, the counts being those numbers |
| HtCondor.SummaryAtSound | pyhdtoolkit/utils/htcondor.py:30-38 | every match has that shape |
| HtCondor.ParseClusterSummaryLine | pyhdtoolkit/utils/htcondor.py:341-394 | the summary is read exactly when the pattern, with the escaped query or the `[^:]+` wildcard, matches somewhere in the line, and it is the first match; otherwise ClusterSummaryParseError carrying the line |
| HtCondor.ParseClusterSummaryLineOfText | pyhdtoolkit/utils/htcondor.py:341-394 | a printed summary line is read back under its own query name, or under the wildcard when the name has no colon |
| HtCondor.IntOf | pyhdtoolkit/utils/htcondor.py:325-331 | `int()` of a field: the integer it spells, otherwise ValueError |
| HtCondor.ParseTaskLine | pyhdtoolkit/utils/htcondor.py:310-338 | the whitespace words of the line give owner, batch name (word 2), submission (words 3 and 4), done, run, idle, total (word 8) and job ids (word 9); a line of fewer than ten words is an IndexError and a non-integer batch (word 2) or total (word 8) a ValueError; the words are read in keyword-argument order, so whichever fault comes first is raised (fewer than three words: IndexError; three or more with a bad batch: ValueError) |
| HtCondor.ParseTaskLineOfText | pyhdtoolkit/utils/htcondor.py:310-338 | printing a task as condor_q does and reading the line back gives the task |
| CondorQ.ClassifyScheduler | pyhdtoolkit/utils/htcondor.py:173 | a line is taken for the scheduler line exactly when it starts with "-- Schedd:", whatever the mode |
| CondorQ.InTaskModeStep | pyhdtoolkit/utils/htcondor.py:176-183 | task mode starts at an "OWNER" header line and ends at a blank line |
| CondorQ.LastOfKind | pyhdtoolkit/utils/htcondor.py:172-195 | the last line of a kind before a position, if any |
| CondorQ.StepsMeaning | pyhdtoolkit/utils/htcondor.py:172-195 | the loop over the lines succeeds exactly when every line's parser succeeds, and then its state holds the task lines in order, the mode, and the value of the last line of each summary kind |
| CondorQ.ReadCondorQMeaning | pyhdtoolkit/utils/htcondor.py:139-203 | `read_condor_q` succeeds exactly when every line parses and a scheduler, query, owner and all-users line all occur; the tasks are those of the task lines in order and each summary is read from the last line of its kind |
| CondorQ.ReadCondorQNeedsScheduler | pyhdtoolkit/utils/htcondor.py:197-199 | a report without a scheduler line fails with UnboundLocalError on `scheduler_id` |
| Powering.OpticsBeam | pyhdtoolkit/cpymadtools/lhc/_powering.py:324 | beam 4 uses the optics of beam 2; any other beam is kept |
| Powering.ColinearityKeysDistinct | pyhdtoolkit/cpymadtools/lhc/_powering.py:68-69 | the two correctors of the colinearity knob are different MAD-X variables |
| Powering.ApplyColinearityKnob | pyhdtoolkit/cpymadtools/lhc/_powering.py:60-74 | an IR outside 1, 2, 5, 8 (or none) is a ValueError; otherwise KQSX3.R{ir} holds value·1e-4 and KQSX3.L{ir} its negation, nothing else changes |
| Powering.ApplyColinearityKnobDelta | pyhdtoolkit/cpymadtools/lhc/_powering.py:107-127 | the same IR check; the right corrector gains delta·1e-4 and the left one loses it, starting from their evaluated values (0 when undefined); nothing else changes |
| Powering.ColinearityDeltasAdd | pyhdtoolkit/cpymadtools/lhc/_powering.py:118-127 | two deltas in a row are one delta of their sum |
| Powering.ColinearityDeltaFromScratch | pyhdtoolkit/cpymadtools/lhc/_powering.py:118-127 | on undefined correctors a delta is the same as setting the knob to it |
| Powering.ScaleTriplets | pyhdtoolkit/cpymadtools/lhc/_powering.py:194-199 | the right triplet is scaled by 1−s and the left by 1+s, nothing else changes |
| Powering.ApplyRigidityWaistShift | pyhdtoolkit/cpymadtools/lhc/_powering.py:181-203 | ValueError for a bad IR, KeyError for an undefined `kqx.r{ir}` then `kqx.l{ir}`, then side "left" scales by value·0.005, "right" by its negation, any other side is a ValueError (case-insensitive) |
| Powering.WaistShiftSidesMirror | pyhdtoolkit/cpymadtools/lhc/_powering.py:194-199 | shifting the waist left by v is shifting it right by −v |
| Powering.WaistShiftSideCase | pyhdtoolkit/cpymadtools/lhc/_powering.py:194 | the side is read case-insensitively |
| Powering.ApplyCouplingKnob | pyhdtoolkit/cpymadtools/lhc/_powering.py:241-248 | the knob `CMRS.b{beam}` (with `_sq` for telescopic squeeze) must already exist, else KeyError; then it holds the value and nothing else changes, no variable is added |
| Powering.CouplingKnobNamesDistinct | pyhdtoolkit/cpymadtools/lhc/_powering.py:241-244 | the squeeze and non-squeeze knobs are different variables |
| Powering.CarryKeysAreColinearityKeys | pyhdtoolkit/cpymadtools/lhc/_powering.py:279-288 | the carried variables are the correctors of the colinearity knob |
| Powering.CarryColinearityKnobOver | pyhdtoolkit/cpymadtools/lhc/_powering.py:279-288 | both correctors must exist (left checked first, KeyError); the sum of the two powerings is kept, the de-powered side is 0, nothing else changes |
| Powering.CarryOverIdempotent | pyhdtoolkit/cpymadtools/lhc/_powering.py:279-288 | carrying over twice to the same side is carrying over once |
| Powering.CarryOverCancelsColinearityKnob | pyhdtoolkit/cpymadtools/lhc/_powering.py:279-288 | after the colinearity knob the correctors sum to 0, so carrying over leaves both at 0 |
| Powering.AllLhcArcs | pyhdtoolkit/cpymadtools/lhc/_powering.py:501-516 | eight arcs |
| Powering.AllLhcArcsFormula | pyhdtoolkit/cpymadtools/lhc/_powering.py:516 | arc i is `A{i+1}{(i+1)%8+1}B{beam}` |
| Powering.MagneticRigidity | pyhdtoolkit/cpymadtools/lhc/_powering.py:315-320 | undefined `nrj` or `clight` is the AttributeError about NRJ; a zero `clight` a ZeroDivisionError; otherwise brho·clight = nrj·1e9 |
| Powering.OctupoleStrength | pyhdtoolkit/cpymadtools/lhc/_powering.py:315-323 | the rigidity's error first, then undefined or zero Imax_MO, undefined Kmax_MO, zero brho, in evaluation order; otherwise strength·Imax_MO·brho = current·Kmax_MO |
| Powering.OctupoleNames | pyhdtoolkit/cpymadtools/lhc/_powering.py:326-330 | sixteen octupole families, two per arc |
| Powering.OctupoleNamesAreKoKnobs | pyhdtoolkit/cpymadtools/lhc/_powering.py:326-330 | the names written are exactly the `kof/kod.aXYbB` variables of the beam, F and D in every sector |
| Powering.DefectiveOctupoleKnob | pyhdtoolkit/cpymadtools/lhc/_powering.py:333 | `KOD.A56B1` is the D family of sector 56 of beam 1 |
| Powering.PowerLandauOctupoles | pyhdtoolkit/cpymadtools/lhc/_powering.py:314-333 | fails exactly when the strength cannot be computed, with that error; only octupole variables of the (beam-4-mapped) beam change |
| Powering.OctupolesPowered | pyhdtoolkit/cpymadtools/lhc/_powering.py:323-333 | every octupole of the beam holds the strength, except KOD.A56B1 which holds 4.65/6 of it when the defective arc is asked for on beam 1 |
| Powering.SextupoleNames | pyhdtoolkit/cpymadtools/lhc/_powering.py:361-366 | thirty-two sextupole families |
| Powering.SextupoleNamesAreKsKnobs | pyhdtoolkit/cpymadtools/lhc/_powering.py:361-366 | the names written are exactly the `ksf1/ksd2…` arc sextupole variables of the beam |
| Powering.DeactivateLhcArcSextupoles | pyhdtoolkit/cpymadtools/lhc/_powering.py:358-366 | every arc sextupole variable of the beam is 0 and nothing else changes |
| Powering.ErrorSettingPrecedence | pyhdtoolkit/cpymadtools/lhc/_powering.py:483-492 | the most specific keyword wins: `{A or B}{order}{s or r}`, then `{A or B}{order}`, then `AB{order}`, then `default`, then False |
| Powering.ErrorWrites | pyhdtoolkit/cpymadtools/lhc/_powering.py:485-495 | sixty flags are written |
| Powering.ErrorFlagsDistinct | pyhdtoolkit/cpymadtools/lhc/_powering.py:485-495 | the sixty flags are sixty different variables |
| Powering.SwitchMagneticErrors | pyhdtoolkit/cpymadtools/lhc/_powering.py:483-495 | only the `ON_` error flags change |
| Powering.SwitchMagneticErrorsValue | pyhdtoolkit/cpymadtools/lhc/_powering.py:483-495 | flag `ON_{ab}{order}{sr}` holds `int()` of its most specific setting |
| Powering.PowerCircuitsDomain | pyhdtoolkit/cpymadtools/lhc/_powering.py:418-429 | the circuit table covers exactly quadrupoles 4 to 13 |
| Powering.VaryQuadrupole | pyhdtoolkit/cpymadtools/lhc/_powering.py:434-440 | one vary command on the quadrupole knob, step 1e-7, bounds ∓ the circuit's `kmax/brho` |
| Powering.VaryIndependentIrQuadrupoles | pyhdtoolkit/cpymadtools/lhc/_powering.py:408-440 | ValueError unless the IP is 1, 2, 5 or 8, every side is R or L in any case and every quadrupole is 4..13; otherwise the globals are unchanged and the vary commands are appended |
| Powering.QuadVariesCount | pyhdtoolkit/cpymadtools/lhc/_powering.py:431-440 | one command per quadrupole and side |
| Powering.QuadVariesLayout | pyhdtoolkit/cpymadtools/lhc/_powering.py:431-440 | quadrupoles outer, sides inner: command i·(number of sides)+j varies quadrupole i on side j |
| LhcMisc.CavityVoltage | pyhdtoolkit/cpymadtools/lhc/_misc.py:57 | the RF voltage is 8 below the energy threshold and 16 from it on |
| LhcMisc.CavityVoltageMonotone | pyhdtoolkit/cpymadtools/lhc/_misc.py:57 | a higher energy never gives a lower voltage |
| LhcMisc.MakeSixtrackOutput | pyhdtoolkit/cpymadtools/lhc/_misc.py:54-63 | VRF400 holds the cavity voltage, LAGRF400.B1 0.5 and LAGRF400.B2 0, nothing else changes, and TWISS then SIXTRACK(cavall, radius 0.017) are sent |
| LhcMisc.MakeSixtrackOutputTwice | pyhdtoolkit/cpymadtools/lhc/_misc.py:54-63 | a second call changes no variable and sends the two commands again |
| LhcMisc.BumpFlagsCount | pyhdtoolkit/cpymadtools/lhc/_misc.py:84-91 | the reset covers 37 flag names |
| LhcMisc.ResetLhcBumpFlags | pyhdtoolkit/cpymadtools/lhc/_misc.py:83-93 | every bump flag holds 0 and nothing else changes |
| LhcMisc.ResetLhcBumpFlagsIdempotent | pyhdtoolkit/cpymadtools/lhc/_misc.py:83-93 | resetting twice is resetting once |
| LhcMisc.ResetLhcBumpFlagsCrossing | pyhdtoolkit/cpymadtools/lhc/_misc.py:86 | every crossing-angle flag is among those reset |
| LhcMisc.KnobSuffix | pyhdtoolkit/cpymadtools/lhc/_misc.py:143-148 | `_op` for Run 3 whatever the squeeze, else `_sq` for telescopic squeeze, else nothing |
| LhcMisc.LhcTuneAndChromaKnobs | pyhdtoolkit/cpymadtools/lhc/_misc.py:142-168 | NotImplementedError unless the accelerator is LHC or HLLHC in any case; otherwise the four knobs are the machine's stems with `.b{beam}` (beam 4 as 2) and the suffix |
| LhcMisc.KnobsOfBeam4 | pyhdtoolkit/cpymadtools/lhc/_misc.py:142 | beam 4 gets the knobs of beam 2 |
| LhcMisc.KnobsRun3Dominates | pyhdtoolkit/cpymadtools/lhc/_misc.py:143-146 | with Run 3 the squeeze flag plays no part |
| LhcMisc.KnobsCaseInsensitive | pyhdtoolkit/cpymadtools/lhc/_misc.py:150-168 | the accelerator name is read case-insensitively |
| LhcMisc.KnobsDistinct | pyhdtoolkit/cpymadtools/lhc/_misc.py:155-168 | the four knobs are different names |
| LhcMisc.KnobsLhcRun3Example | pyhdtoolkit/cpymadtools/lhc/_misc.py:134-135 | the LHC beam 2 Run 3 knobs are `dQx.b2_op`, `dQy.b2_op`, `dQpx.b2_op`, `dQpy.b2_op` |
| LhcMisc.KnobsHllhcExample | pyhdtoolkit/cpymadtools/lhc/_misc.py:139-140 | the HLLHC beam 2 knobs are `kqtf.b2_sq`, `kqtd.b2_sq`, `ksf.b2_sq`, `ksd.b2_sq` |
| LhcSetup.LhcOrbitVariables | pyhdtoolkit/cpymadtools/lhc/_setup.py:549-590 | 36 variables, the 32 `on_` flags in order then `phi_IR1/2/5/8`, and four specials each copying one of the variables |
| LhcSetup.SpecialSources | pyhdtoolkit/cpymadtools/lhc/_setup.py:584-589 | every special copies an orbit variable |
| LhcSetup.SpecialSourcesIp1 | pyhdtoolkit/cpymadtools/lhc/_setup.py:585-586 | on_ssep1 and on_xx1 copy on_sep1 and on_x1 |
| LhcSetup.SpecialSourcesIp5 | pyhdtoolkit/cpymadtools/lhc/_setup.py:587-588 | on_ssep5 and on_xx5 copy on_sep5 and on_x5 |
| LhcSetup.AllOrbitNamesClassified | pyhdtoolkit/cpymadtools/lhc/_setup.py:583-589 | every name written is a lower-case `on_` name or a `phi_IR` name |
| LhcSetup.SpecialsAreNotOrbitVariables | pyhdtoolkit/cpymadtools/lhc/_setup.py:583-589 | no special is itself an orbit variable |
| LhcSetup.OrbitNamesLowerInjective | pyhdtoolkit/cpymadtools/lhc/_setup.py:583-589 | two names written are the same MAD-X variable only if they are the same name |
| LhcSetup.OrbitValue | pyhdtoolkit/cpymadtools/lhc/_setup.py:637 | an orbit variable takes its keyword value, else the scheme's, else 0 |
| LhcSetup.OrbitWrites | pyhdtoolkit/cpymadtools/lhc/_setup.py:636-640 | one write per orbit variable, in order, of its value |
| LhcSetup.SpecialWrites | pyhdtoolkit/cpymadtools/lhc/_setup.py:642-646 | one write per special, of its keyword value or else the current value of the variable it copies |
| LhcSetup.CopySpecials | pyhdtoolkit/cpymadtools/lhc/_setup.py:642-646 | copying fails only with the KeyError of a copied variable that is not defined |
| LhcSetup.CopySpecialsWrites | pyhdtoolkit/cpymadtools/lhc/_setup.py:642-646 | when the copied variables are defined and no special overwrites one, the copies are the special writes applied to the globals and the returned map |
| LhcSetup.SpecialsDoNotOverwriteSources | pyhdtoolkit/cpymadtools/lhc/_setup.py:584-589 | no special is the source of another |
| LhcSetup.SetupLhcOrbit | pyhdtoolkit/cpymadtools/lhc/_setup.py:625-648 | an unknown scheme is a ValueError; otherwise the orbit scheme is applied |
| LhcSetup.OrbitSetupWrites | pyhdtoolkit/cpymadtools/lhc/_setup.py:636-646 | the writes name the orbit variables then the specials, in order |
| LhcSetup.OrbitSetupWritesConsistent | pyhdtoolkit/cpymadtools/lhc/_setup.py:636-646 | no variable is written twice with different values, so the globals and the returned map agree |
| LhcSetup.ApplyOrbitScheme | pyhdtoolkit/cpymadtools/lhc/_setup.py:633-648 | the globals and the returned map both receive exactly the orbit writes |
| LhcSetup.ApplyOrbitSchemeVariable | pyhdtoolkit/cpymadtools/lhc/_setup.py:636-640 | each orbit variable holds its keyword, scheme or 0 value in the globals and in the map |
| LhcSetup.ApplyOrbitSchemeSpecial | pyhdtoolkit/cpymadtools/lhc/_setup.py:642-646 | each special holds its keyword value, else the value just given to the variable it copies |
| LhcSetup.ApplyOrbitSchemeWritesOnlyOrbit | pyhdtoolkit/cpymadtools/lhc/_setup.py:633-648 | the map has exactly the orbit names as keys and no other variable changes |
| LhcSetup.ApplyOrbitSchemeIgnoresOtherKwargs | pyhdtoolkit/cpymadtools/lhc/_setup.py:636-646 | keywords that are not orbit names play no part |
| LhcSetup.SetupLhcOrbitTopExample | pyhdtoolkit/cpymadtools/lhc/_setup.py:623 | with the `lhc_top` scheme on_x1 and on_xx1 are -160 |
| LhcBeams.BeamDirection | pyhdtoolkit/cpymadtools/lhc/_setup.py:410 | bv is 1 for beam 1 or with b4, else −1 |
| LhcBeams.BeamCommand | pyhdtoolkit/cpymadtools/lhc/_setup.py:412-421 | a proton BEAM command with that direction and the given energy, intensity, emittances, energy spread and extra keywords |
| LhcBeams.Rigidity | pyhdtoolkit/cpymadtools/lhc/_setup.py:401 | brho·clight = energy·1e9 |
| LhcBeams.GeometricEmittance | pyhdtoolkit/cpymadtools/lhc/_setup.py:403-404 | the geometric emittance times energy/0.938 is the normalized one |
| LhcBeams.MakeLhcBeams | pyhdtoolkit/cpymadtools/lhc/_setup.py:399-422 | NRJ is set first; undefined clight is an AttributeError and zero clight a ZeroDivisionError; then brho is set; zero energy is a ZeroDivisionError; a keyword clashing with an explicit BEAM argument is a TypeError; on success both emittances are set and the two BEAM commands sent; only those four variables change |
| LhcBeams.LhcBeamCommands | pyhdtoolkit/cpymadtools/lhc/_setup.py:405-421 | two commands, lhcb1 with bv 1 and lhcb2 with bv 1 only under b4, protons at the energy with the geometric emittances, npart 1.15e11 and sige 4.5e-4 unless given, the other keywords passed on |
| LhcBeams.LhcBeamCommandsMirror | pyhdtoolkit/cpymadtools/lhc/_setup.py:409-421 | the two commands differ only in sequence, and in direction unless b4 |
| LhcBeams.MakeLhcBeamsSucceeds | pyhdtoolkit/cpymadtools/lhc/_setup.py:399-422 | success exactly when clight is defined and non-zero, the energy is non-zero and no keyword clashes |
| LhcBeams.MakeLhcBeamsDefaults | pyhdtoolkit/cpymadtools/lhc/_setup.py:349-422 | with the default arguments two beams are made with the default intensity and energy spread |
| LhcBeams.LhcSetupRun | pyhdtoolkit/cpymadtools/lhc/_setup.py:319-337 | a missing optics file, then b4 on a beam other than 2, is a ValueError; `int(run)` outside 2, 3 is NotImplementedError; run equal to 2 gives Run 2 and anything else accepted Run 3 |
| LhcBeams.LhcSetupWholeRuns | pyhdtoolkit/cpymadtools/lhc/_setup.py:327-337 | among whole runs exactly 2 and 3 are accepted, each giving its own setup |
| LhcBeams.LhcSetupFractionalRun | pyhdtoolkit/cpymadtools/lhc/_setup.py:327-337 | run 2.5 and 3.9 give the Run 3 setup; 1.9 is refused |
| Constants.CrossingSchemesShape | pyhdtoolkit/cpymadtools/constants.py:30-81 | the five crossing schemes, `flat` being empty, and only the LHC schemes setting the IR1 phase |
| Constants.IpFlags | pyhdtoolkit/cpymadtools/constants.py:84-101 | one flag per IP, the prefix followed by the IP number |
| Constants.CrossingAngleFlagsValue | pyhdtoolkit/cpymadtools/constants.py:84-88 | the eight crossing-angle flags, in order |
| Constants.IpOffsetFlagsValue | pyhdtoolkit/cpymadtools/constants.py:97-102 | the ten IP offset flags, in order |
| Constants.TripletKnobsLayout | pyhdtoolkit/cpymadtools/constants.py:110-115 | eight triplet corrector knobs per family, the right side for IPs 1, 2, 5, 8 then the left side |
| Constants.KqsxKnobsExample | pyhdtoolkit/cpymadtools/constants.py:110 | the first and last skew quadrupole knobs are `kqsx3.r1` and `kqsx3.l8` |
| Constants.SectorPairDigits | pyhdtoolkit/cpymadtools/constants.py:119 | an arc is named by its sector digit and the next one round the ring, sector 8 giving `81` |
| Constants.SectorPairInjective | pyhdtoolkit/cpymadtools/constants.py:119 | different sectors give different arc names |
| Constants.KqtfKnobsLayout | pyhdtoolkit/cpymadtools/constants.py:118-123 | 32 tune trim knobs, beam outer, family, then sector inner |
| Constants.KqsKnobsShape | pyhdtoolkit/cpymadtools/constants.py:126-131 | 24 skew quadrupole knobs, starting `kqs.r1b1`, the beam 1 arc knobs ending at `kqs.a81b1` |
| Constants.KsfKnobsLayout | pyhdtoolkit/cpymadtools/constants.py:133-139 | 64 sextupole corrector knobs, beam outer, then beam id, family, sector |
| Constants.ArcKnobsLayout | pyhdtoolkit/cpymadtools/constants.py:140-159 | 16 knobs per spool piece or skew sextupole family, beam outer, sector inner |
| Constants.KoKnobsLayout | pyhdtoolkit/cpymadtools/constants.py:160-165 | 32 arc octupole knobs, beam outer, family, then sector |
| LhcErrors.IrQuadPatternsShape | pyhdtoolkit/cpymadtools/lhc/_errors.py:22-33 | patterns exist for quadrupoles 1 to 10, two for each triplet quadrupole |
| LhcErrors.PatternText | pyhdtoolkit/cpymadtools/lhc/_errors.py:202-205 | a triplet pattern is completed with side and IP, the others also with `.B{beam}` |
| LhcErrors.PatternTextExample | pyhdtoolkit/cpymadtools/lhc/_errors.py:200-205 | Q4 right of IP1 for beam 1 is `^MQY.4R1.B1` |
| LhcErrors.ValidateMisalignment | pyhdtoolkit/cpymadtools/lhc/_errors.py:178-191 | ValueError unless every IP is 1, 2, 5 or 8, the beam is absent, 0 or 1..4, and every side is R or L in any case; the sides come back upper-cased |
| LhcErrors.FirstFailing | pyhdtoolkit/cpymadtools/lhc/_errors.py:196-205 | the first site whose pattern lookup raises: a quadrupole outside the table, or a beam-specific one without a beam |
| LhcErrors.SiteSelects | pyhdtoolkit/cpymadtools/lhc/_errors.py:200-205 | one error selection per pattern of the quadrupole, the pattern completed for that site |
| LhcErrors.EmitSelects | pyhdtoolkit/cpymadtools/lhc/_errors.py:196-205 | the selections are sent site by site until the first failing one, which raises KeyError or TypeError |
| LhcErrors.TableName | pyhdtoolkit/cpymadtools/lhc/_errors.py:208 | an empty or missing table name becomes `etable` |
| LhcErrors.MisalignLhcIrQuadrupoles | pyhdtoolkit/cpymadtools/lhc/_errors.py:178-213 | no variable changes; a validation error sends nothing; otherwise the error selection is cleared, the selections are sent IP, side, quadrupole, pattern in that order, and then either the first lookup failure is raised or EALIGN, ETABLE and a final clear follow |
| LhcErrors.SitesCount | pyhdtoolkit/cpymadtools/lhc/_errors.py:196-200 | one site per IP, side and quadrupole |
| LhcErrors.MisalignLhcIrQuadrupolesFails | pyhdtoolkit/cpymadtools/lhc/_errors.py:196-205 | after validation the call fails exactly when some quadrupole's lookup fails and there is at least one IP and one side, with the error of the first such quadrupole |
| LhcErrors.MisalignLhcTriplets | pyhdtoolkit/cpymadtools/lhc/_errors.py:80 | a `**kwargs` key `ips`, `beam` or `quadrupoles` is a TypeError of the inner call, changing nothing; otherwise ValueError exactly for a bad IP or side, changing nothing; otherwise 4 plus 6 per side commands, ending EALIGN, ETABLE, clear |
| LhcErrors.MisalignLhcTripletsBeamKeyword | pyhdtoolkit/cpymadtools/lhc/_errors.py:80 | `misalign_lhc_triplets(madx, ip=1, beam=1, dx="1E-5")` raises TypeError and sends nothing |
| LhcErrors.TripletsNeverFail | pyhdtoolkit/cpymadtools/lhc/_errors.py:178-213 | the triplet quadrupoles never need a beam, so the only failures are those of validation |
| LhcErrors.MisalignLhcTripletsDefaultTable | pyhdtoolkit/cpymadtools/lhc/_errors.py:37-38 | with the default sides and table, a valid IP and keywords that do not clash get the errors written to the table "triplet_errors" |
| LhcElements.RampSchedule | pyhdtoolkit/cpymadtools/lhc/_elements.py:129-131 | four ramps: the start, then ramp-up, top and ramp-down turns apart |
| LhcElements.RampScheduleOrdered | pyhdtoolkit/cpymadtools/lhc/_elements.py:129-131 | for non-negative turn counts the ramps never decrease and span 2·ramp + top turns |
| LhcElements.RampScheduleDefaults | tests/test_cpymadtools/test_lhc.py:215-228 | the default schedule is 100, 2100, 8700, 10700 |
| LhcElements.KickerCommands | pyhdtoolkit/cpymadtools/lhc/_elements.py:140-170 | thirteen commands: the voltages from the 180 and 177 amplitude factors, the horizontal and vertical AC dipoles at the driven tunes q1+Δqx and q2+Δqy with the ramp schedule, both installed at 0 from MKQA.6L4.B{beam} inside seqedit/flatten/endedit, then `use` of lhcb{beam} |
| LhcElements.InstallAcDipoleAsKicker | pyhdtoolkit/cpymadtools/lhc/_elements.py:122-170 | no variable changes and exactly those commands are sent; a long top time only warns |
| LhcElements.KickerCommandsWellFormed | pyhdtoolkit/cpymadtools/lhc/_elements.py:148-170 | for every beam, tune and ramp schedule, each kicker installed is an AC dipole defined earlier in the batch, placed at `MKQA.6L4.B<beam>` inside a `seqedit` of `lhcb<beam>`, the batch ends by using that sequence, and each dipole's frequency is its plane's machine tune plus that plane's delta |
| LhcElements.KickersDefinedBeforeInstalled | pyhdtoolkit/cpymadtools/lhc/_elements.py:148-170 | whatever the machine state, the commands `install_ac_dipole_as_kicker` appends to the log have the properties above |
| LhcElements.KickerDrivenTunes | pyhdtoolkit/cpymadtools/lhc/_elements.py:108-119 | the docstring example drives the tunes to 62.30 and 60.332 with MKACH.6L4.B1 and MKACV.6L4.B1 |
| LhcElements.MarkerNamesDistinct | pyhdtoolkit/cpymadtools/lhc/_elements.py:317-320 | markers of one side and IP have different names |
| LhcElements.MarkerSpecsAt | pyhdtoolkit/cpymadtools/lhc/_elements.py:315-321 | marker i is installed left then right, in increasing i |
| LhcElements.MarkerInstallsAt | pyhdtoolkit/cpymadtools/lhc/_elements.py:315-321 | installation 2i−2 is left marker i and 2i−1 right marker i |
| LhcElements.EditSequence | pyhdtoolkit/cpymadtools/lhc/_elements.py:313-327 | the installs are wrapped in seqedit and flatten, then flatten, endedit and `use`; nothing else is sent and no variable changes |
| LhcElements.AddMarkersAroundLhcIp | pyhdtoolkit/cpymadtools/lhc/_elements.py:313-327 | 2n installs (none when n < 1) inside the edit block |
| LhcElements.AddMarkersPlacesLeft | pyhdtoolkit/cpymadtools/lhc/_elements.py:316-318 | left marker i is installed at −i·interval from IP{ip} |
| LhcElements.AddMarkersPlacesRight | pyhdtoolkit/cpymadtools/lhc/_elements.py:319-321 | right marker i is installed at +i·interval from IP{ip} |
| LhcElements.MarkersSymmetric | pyhdtoolkit/cpymadtools/lhc/_elements.py:316-321 | the two markers of a pair sit symmetrically around the same IP under different names |
| LhcElements.MarkerNameExample | pyhdtoolkit/cpymadtools/lhc/_elements.py:317 | the first left marker at IP1 is MARKER.LEFT.IP1.01 |
| MadxUtils.OrientationSuffixes | pyhdtoolkit/cpymadtools/utils.py:153-163 | ValueError unless the orientation is `straight`, `skew` or `both`; the suffixes are `""`, `"S"` or both in that order |
| MadxUtils.KStringRows | pyhdtoolkit/cpymadtools/utils.py:164 | the comprehension over orders then suffixes: name k is order start+k/n with suffix k mod n, n being the number of suffixes |
| MadxUtils.KStrings | pyhdtoolkit/cpymadtools/utils.py:140-164 | `K{i}L` for straight, `K{i}SL` for skew, and both interleaved per order, for i from start below stop; ValueError for any other orientation |
| MadxUtils.KStringsBothInterleaves | pyhdtoolkit/cpymadtools/utils.py:158-164 | the `both` list alternates the straight and the skew list |
| MadxUtils.KStringsDefaultCount | pyhdtoolkit/cpymadtools/utils.py:140 | the defaults give sixteen names |
| MadxUtils.KStringsBothExample | pyhdtoolkit/cpymadtools/utils.py:164 | orders 0 and 1, both orientations, give K0L, K0SL, K1L, K1SL |
| MadxUtils.UpperCased | pyhdtoolkit/cpymadtools/utils.py:126-129 | column names upper-cased, NAME contents upper-cased, other columns kept |
| MadxUtils.HeadersFrom | pyhdtoolkit/cpymadtools/utils.py:131 | every column of the headers table gives one upper-cased key, and an empty column is an IndexError |
| MadxUtils.HeadersFromValues | pyhdtoolkit/cpymadtools/utils.py:131 | a header holds the first value of the last column whose upper-cased name is its key |
| MadxUtils.GetTableTfs | pyhdtoolkit/cpymadtools/utils.py:124-133 | succeeds exactly when the table exists, is rectangular, has at most one NAME column holding text, and the headers table exists with no empty column; otherwise the KeyError, ValueError, AttributeError, KeyError for the headers table and IndexError, in that order; the frame has the table's columns in order with upper-cased names and NAME contents, and each header holds the first entry of the last headers-table column with that upper-cased name |
| MadxUtils.GetTableTfsCaseOfNames | pyhdtoolkit/cpymadtools/utils.py:126 | every column name of the frame is upper case |
| MadxUtils.DefaultHeaders | pyhdtoolkit/cpymadtools/utils.py:81-86 | NAME and TYPE default to EXPORT, existing headers are kept |
| MadxUtils.DefaultHeadersIdempotent | pyhdtoolkit/cpymadtools/utils.py:81-86 | adding the defaults twice adds them once |
| MadxUtils.FilterByName | pyhdtoolkit/cpymadtools/utils.py:79-80 | a frame without NAME is a KeyError; otherwise the NAME column moves first and keeps the names the pattern matches, in order, and every other column follows in its original order cut to the same rows; the headers are kept |
| MadxUtils.ExportMadxTable | pyhdtoolkit/cpymadtools/utils.py:75-88 | the extraction's error is passed on; the headers are the extracted ones with NAME and TYPE defaulted to EXPORT; without a pattern the columns are those extracted; with one the result is the name filter's, its KeyError when there is no NAME column |
| MadxUtils.ExportMadxTableFilters | pyhdtoolkit/cpymadtools/utils.py:78-80 | with a pattern a name is exported exactly when it is a name of the table that the pattern matches |
| Matching.MatchCommands | pyhdtoolkit/cpymadtools/matching.py:186-198 | MATCH, GLOBAL with the targets on the sequence, one VARY per knob in order with the step, LMDIF with calls and tolerance, ENDMATCH, TWISS |
| Matching.VariedNamesAppend | pyhdtoolkit/cpymadtools/matching.py:192-194 | the knobs varied by two command lists in a row are those of each in order |
| Matching.MatchCommandsVary | pyhdtoolkit/cpymadtools/matching.py:186-198 | a matching varies exactly its knobs, in order |
| Matching.SequenceBeam | pyhdtoolkit/cpymadtools/matching.py:182 | `int(sequence[-1])`: no sequence is a TypeError, an empty one an IndexError, a last character that is not a digit a ValueError, otherwise that digit |
| Matching.DefaultKnobs | pyhdtoolkit/cpymadtools/matching.py:178-184 | the default knobs are those of the beam the sequence name ends with, with that lookup's errors |
| Matching.KindOf | pyhdtoolkit/cpymadtools/matching.py:201-222 | combined when all four targets are given, tunes-only when both tunes but not both chromaticities are, chromaticities-only when only both chromaticities are |
| Matching.MatchTunesAndChromaticities | pyhdtoolkit/cpymadtools/matching.py:178-222 | no variable changes and a failure sends nothing; default-knob errors come first; a matching without knobs or accelerator reads an unassigned local; otherwise one matching is sent on the targets of its kind, varying the given knobs or the matching default ones |
| Matching.MatchSucceeds | pyhdtoolkit/cpymadtools/matching.py:178-222 | success exactly when the default knobs, if looked up, exist, and any matching has knobs to vary |
| Matching.ExplicitKnobsWin | pyhdtoolkit/cpymadtools/matching.py:178-220 | given knobs make the accelerator irrelevant, never fail, and are the ones varied |
| Matching.UnknownAcceleratorRejected | pyhdtoolkit/cpymadtools/matching.py:178-184 | an accelerator other than LHC or HLLHC without knobs is a NotImplementedError and nothing is sent |
| Matching.UnknownAcceleratorExample | tests/test_cpymadtools/test_matching.py:49-53 | the test's unknown machine is refused with NotImplementedError |
| Matching.MatchTunes | pyhdtoolkit/cpymadtools/matching.py:331-345 | the tunes-only wrapper targets q1 and q2, and without both tunes sends nothing |
| Matching.MatchChromaticities | pyhdtoolkit/cpymadtools/matching.py:451-465 | the chromaticities-only wrapper targets dq1 and dq2, and without both sends nothing |
| Matching.DefaultKnobsSplit | pyhdtoolkit/cpymadtools/matching.py:184-220 | tune matching varies the first two default knobs and chromaticity matching the last two |
| PlotUtils.MaybeGetAx | pyhdtoolkit/plotting/utils.py:69-78 | the axis is taken from `ax`, else from `axis`, else the current one, and only the key used leaves the keyword arguments |
| PlotUtils.MaybeGetAxRestores | pyhdtoolkit/plotting/utils.py:69-78 | `ax` is gone from the remaining keywords, and putting it back gives the keywords passed in |
| PlotUtils.FirstS | pyhdtoolkit/plotting/utils.py:114-115 | the S of the first row with that name; no such row is an IndexError |
| PlotUtils.MaxS | pyhdtoolkit/plotting/utils.py:121 | the largest S of the model, attained by some row |
| PlotUtils.FindIpSFromSegmentStart | pyhdtoolkit/plotting/utils.py:113-124 | an empty segment or a missing element is an IndexError; the IP's distance from the segment start, wrapped round the end of the machine when the IP lies before the start |
| PlotUtils.FindIpSBounded | pyhdtoolkit/plotting/utils.py:118-124 | with non-negative positions the distance lies between 0 and the machine length |
| PlotUtils.Position | pyhdtoolkit/plotting/utils.py:163 | the first row carrying a label, or past the end when there is none |
| PlotUtils.Loc | pyhdtoolkit/plotting/utils.py:163-167 | `dataframe.loc[names, column]`: a KeyError unless the column and every name exist |
| PlotUtils.LocUnique | pyhdtoolkit/plotting/utils.py:163-167 | with distinct row labels, one value per name, in the order asked, from that name's row |
| PlotUtils.IpNamesFormatted | pyhdtoolkit/plotting/utils.py:162-166 | name n is the prefix followed by n, for n from 1 to 8 |
| PlotUtils.ZipToMap | pyhdtoolkit/plotting/utils.py:169 | every zipped name is a key of the dict, and every key is one of the names |
| PlotUtils.ZipToMapAt | pyhdtoolkit/plotting/utils.py:169 | a name maps to the value paired with its last occurrence among the zipped pairs |
| PlotUtils.ZipToMapRepeatedKey | pyhdtoolkit/plotting/utils.py:169 | of two equal names the later value is kept |
| PlotUtils.ZipToMapDistinct | pyhdtoolkit/plotting/utils.py:169 | with distinct names each name maps to its own value |
| PlotUtils.UpperIpNames | pyhdtoolkit/plotting/utils.py:168 | upper-casing either spelling of the IP names gives IP1..IP8 |
| PlotUtils.LhcIpsPositions | pyhdtoolkit/plotting/utils.py:160-169 | succeeds exactly when the upper-case or the lower-case lookup does, else a KeyError; the keys are exactly IP1..IP8 |
| PlotUtils.LhcIpsPositionsSource | pyhdtoolkit/plotting/utils.py:161-169 | the upper-case lookup is used when it succeeds, the lower-case one only when it does not |
| PlotUtils.LhcIpsPositionsUpper | pyhdtoolkit/plotting/utils.py:162-169 | from the upper-case lookup, IPn maps to the S of row IPn |
| PlotUtils.LhcIpsPositionsLower | pyhdtoolkit/plotting/utils.py:164-169 | from the lower-case fallback, IPn maps to the `s` of row ipn |
| PlotUtils.CouplingYLabel | pyhdtoolkit/plotting/utils.py:572-588 | ValueError unless the RDT is F1001 or F1010 and the component ABS, RE or IM, in any case; the label is the absolute value, `$\Re f_{…}$` or `$\Im f_{…}$` of the RDT's `f_{1001}` or `f_{1010}` |
| PlotUtils.CouplingYLabelCaseInsensitive | pyhdtoolkit/plotting/utils.py:573-587 | the label depends only on the upper-cased arguments |
| PlotUtils.CouplingYLabelsDiffer | pyhdtoolkit/plotting/utils.py:587-588 | the two RDTs give different labels |
| PlotUtils.CouplingYLabelRejectsF1111 | pyhdtoolkit/plotting/utils.py:573-575 | an RDT other than the two coupling ones is refused |
| PlotUtils.PhaseYLabel | pyhdtoolkit/plotting/utils.py:620-627 | ValueError unless the plane is X or Y in any case; the label is `$\Delta \phi_{x}$` or `$\Delta \phi_{y}$` |
| PlotUtils.PhaseYLabelPlanes | pyhdtoolkit/plotting/utils.py:621-623 | exactly x, X, y and Y are accepted |

## Where the code and its documentation disagree

The model follows the code in each of these cases:

- `LHC_KQS_KNOBS` holds 24 names (six groups of four, pyhdtoolkit/cpymadtools/constants.py:126-131), and `Constants.KqsKnobsShape` states 24.
- The docstring example of `get_lhc_tune_and_chroma_knobs` (pyhdtoolkit/cpymadtools/lhc/_misc.py:134-135) repeats `dQx`/`dQpx`. The code returns `dQy`/`dQpy` as the second and fourth knobs (lines 155-168).
- The coupling and phase label helpers raise ValueError (pyhdtoolkit/plotting/utils.py:575, 578, 623). Their tests expect AssertionError (tests/test_plotting/test_plotting_utils.py:57, 72).
- `power_landau_octupoles` without `NRJ` raises AttributeError (pyhdtoolkit/cpymadtools/lhc/_powering.py:315-320). Its test expects EnvironmentError (tests/test_cpymadtools/test_lhc.py:98).
- The docstring of `least_common_multiple` calls it as `least_common_multiple(4, 5)` (pyhdtoolkit/utils/operations.py:673). `spread` (line 392) needs iterable elements, so that call raises TypeError. The tests pass one list (tests/test_utils.py:474-478), and `NumberOperations.LeastCommonMultiple` takes the list form.
- The `LHCSetup` docstring (pyhdtoolkit/cpymadtools/lhc/_setup.py:283) announces AssertionError for a missing optics file. The code raises ValueError (lines 319-321).
- The `is_anagram` docstring says punctuation and special characters are ignored (pyhdtoolkit/utils/operations.py:774). The code removes only spaces and apostrophes (lines 797-801), so `StringOperations.Letters` keeps every other character.
- `LHCSetup` checks `int(run)` against {2, 3} but picks Run 2 only when `run == 2` (pyhdtoolkit/cpymadtools/lhc/_setup.py:327-337). A fractional `run` such as 2.5 therefore prepares Run 3, as `LhcBeams.LhcSetupFractionalRun` states.

## Left out

- MAD-X itself: tracking, twiss, matching and error assignment are not computed. Only the globals the routines read and write and the commands they send are modelled (`Madx` module).
- Values read from MAD-X tables become parameters, such as the SUMM tunes `q1`/`q2` of the AC dipole.
- A MAD-X table is assumed to have distinct column names.
- Disk and process I/O is not modelled:
  - writing TFS files (`ExportMadxTable` returns the frame that would be written);
  - running `condor_q` (`query_condor_q`; `CondorQ.ReadCondorQ` takes the report text);
  - reading sequence and optics files in `LHCSetup` and the `prepare_lhc_run2/3` calls;
  - the file-existence checks.
- Logging is not modelled, including the warning for `top_turns > 6600`, which only logs.
- Python floats are exact reals, so rounding of the knob arithmetic is not modelled.
- Footprint tunes are carried as the text they are printed with, because nothing computes with them.
- `NumberOperations.LcmPairAsWritten` does model the rounding of `_lcm`, because it is the subject of a finding.
- NumberOperations.LeastCommonMultiple: folds with the corrected exact pair `NumberOperations.LcmPair` of "## Findings", not with the float `_lcm` of pyhdtoolkit/utils/operations.py:685. It therefore does not round above 2^53, and does not raise the OverflowError ("integer division result too large for a float") that the true division `x * y / math.gcd(x, y)` itself raises once the quotient is beyond the double range.
- ListOperations.UnionBy: takes integer items only, because `sorted` is modelled on integers (`Sorts.QuickSort`). The docstring example of `union_by` uses floats.
- Text.IsDigit: admits ASCII '0'..'9' only, whereas Python's `int()`, `float()` and the regex class `\d` accept every Unicode decimal digit. Each member below that reads digits inherits this, and the lines that follow name them.
- Rdt.Decompose: `map(int, str(rdt))` reads any Unicode decimal digit; the model reads ASCII digits only, so it (and through it `Rdt.RdtToOrderAndType` and `Rdt.DetermineRdtLine`) returns ValueError for an RDT written with non-ASCII digits, which Python accepts.
- Footprint.ParseFloat: `float()` also accepts single underscores between digits ("1_0.5") and Unicode decimal digits; the model accepts neither and returns ValueError for them.
- Footprint.ParseCount: `int()` also accepts single underscores between digits ("1_0" is 10) and Unicode decimal digits; the model returns ValueError for both.
- HtCondor.IntOf: `int()` also accepts single underscores between digits ("1_000") and Unicode decimal digits; `Text.ParseInt` accepts neither, so the model returns ValueError where Python reads a number.
- HtCondor.ParseTaskLine: inherits the gap of `HtCondor.IntOf` for the batch id (word 2) and total (word 8).
- HtCondor.DigitRun: the regex class `\d` also matches Unicode decimal digits; the model counts ASCII digits only.
- Matching.SequenceBeam: the beam number is read with ASCII digits only, for the same reason as `Text.IsDigit`.
- NumberOperations.IsDivisibleBy: takes integer operands only. The source is typed `Union[int, float]`; float operands (for example 5.5 by 0.5, which Python's `%` finds divisible) are not modelled, because the model has no floating point.
- Footprint.DynapStringRepOutcome: the `DynapFrame` fields AMPLITUDE and ANGLE are integers. The source builds AMPLITUDE from `sigma: float`, and `range(1, amplitude)` then raises a TypeError for a float AMPLITUDE; that TypeError is not modelled. The same holds for `Footprint.DynapFrame`.
- Case mapping (`str.upper`, `str.lower`, `str.capitalize`) covers ASCII letters only. The word class `\w` is ASCII letters, ASCII digits and '_'.
- `Sorts.QuickSort` sorts integers, not arbitrary comparable objects.
- The pattern match of `export_madx_table`'s regex filter is a parameter of `MadxUtils.FilterByName`, since no regex engine is modelled.
- The two `condor_q` regexes are modelled by hand-written matchers.
- The dates of a `condor_q` task line (pendulum parsing) are opaque tokens.
- The pydantic models are records whose fields keep the parsed values. Task counts that arrive as text stay text.
- Header propagation through pandas and `tfs.TfsDataFrame` is reduced to a map from header name to value.
- Exception messages are not modelled, except the key or attribute name a KeyError or AttributeError carries.
- In the knob routines of the matching module, `None` and an empty knob list are both falsy and are both the empty sequence.
- `PlotUtils.IpNamesFormatted` builds `IP{i}` for the single-digit numbers 1..8, the only ones the source uses.
- `FootprintPlot.TrailInGrid`, `FootprintPlot.TrailCovers`: stated for at least one amplitude group and a non-negative angle count, the shapes a footprint parsed from a DYNAP table has.
- Rendering is not modelled: `draw_*`, `set_arrow_label`, `make_elements_groups`, the tune-diagram lines and the rich tables of the htcondor module. `maybe_get_ax`'s fallback `plt.gca()` is a parameter.
- `install_ac_dipole_as_matrix`, `make_lhc_thin` and `re_cycle_sequence` are not modelled. They send MAD-X commands whose only logic is text formatting, like the AC-dipole kicker routine that is modelled.
- `deep_flatten`, `shuffle`, `sample` and the regex case converters (`camel_case`, `kebab_case`, `snake_case`) of the operations module are not modelled. The first depends on run-time type tests and the others on randomness or a regex engine.
- The rest of the repository is not part of this model:
  - floating-point physics formulas and fitting;
  - phase reconstruction;
  - MAD-X wrappers that only send commands or read tables;
  - plotting modules;
  - command-line, executor, context and logging utilities;
  - script templates;
  - older copies of the modelled code (`cpymadtools/lhc.py`, `special.py`, `orbit.py`, `errors.py`, `setup.py`, `utils/htc_monitor.py`, `plotting/sbs/utils.py`).

## Findings

| source | as written | input that shows it | evidently intended | confidence | as-written member | corrected member |
|---|---|---|---|---|---|---|
| pyhdtoolkit/utils/operations.py:685 | `_lcm` computes `int(x * y / math.gcd(x, y))`; the true division rounds the exact quotient to a double | x = 2^53 + 1, y = 2: the code returns 2^54, which 2^53 + 1 does not divide | the least common multiple 2^54 + 2, computed with the integer division `x * y // gcd(x, y)` | not executed | NumberOperations.LcmPairAsWritten, NumberOperations.LcmPairAsWrittenLosesPrecision | NumberOperations.LcmPair, NumberOperations.LcmPairIsLeastCommonMultiple |
