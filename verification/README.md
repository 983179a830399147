# Numeric and streaming engines of the `safely` library, in Dafny

A model of ten pieces of code that compute something with an independent mathematical meaning, and the
proof that they compute it, or exactly when:

- in-place matrix inversion and the least-squares solver fed by it (`system/matrixinverter.cpp`,
  `system/dyndeterminator.cpp`), and the recursive determinant with row and column gates
  (`cppext/determinator.cpp`);
- the sliding parabola filter with its peak search (`cppext/quadraticfilter.cpp`, `cppext/polyfilter.cpp`,
  `cppext/centeredslice.cpp`), the line filter beside it (`system/linearfilter.cpp`) and the ring smoother (`cppext/linearsmoother.h`, `cppext/cycler.cpp`);
- running correlation (`cppext/realstatistic.cpp`);
- the continued-fraction search for a ratio (`cppext/continuedfractionratiogenerator.cpp`);
- the table-driven Modbus check (`cppext/crc16m.cpp`; MODBUS over Serial Line Specification and
  Implementation Guide V1.02, sections 2.5.1.2 and 6.2.2);
- the integer pulse dither (`cppext/twiddler.cpp`);
- the path packer and its two scanners (`system/pathparser.cpp`);
- printing unsigned numbers and the number parser (`cppext/charformatter.cpp`, `cppext/numberparser.cpp`);
- the UTF-8 primitives (`cppext/utf8.cpp`).

`dafny verify dfyconfig.toml` checks everything.

## How it is laid out

Code that works by changing things is a class with the original's fields and loops; each of its methods is
proved against a specification function or relation, and the properties are lemmas about that.

| files | role |
|---|---|
| `Minimath`, `Sums`, `Determinant`, `Exchange`, `Pivots`, `PivotDeterminant`, `Regression` | shared helpers, finite sums, determinants, Gauss-Jordan by exchange, least squares |
| `Determinator`, `MatrixInverter`, `LeastSquares`, `Correlation` | the classes over them |
| `Moments`, `PolynomialFit` | moments of a window, and least-squares polynomials over one |
| `CenteredSlice`, `QuadraticFilter`, `SavitzkyGolay`, `ScanReports`, `LinearFilter`, `LinearSmoother` | the filters |
| `Convergents`, `NearestRatio`, `ContinuedFraction` | number theory of a run, what is nearest, and the generator |
| `Crc16m`, `Twiddler` | the check and the dither |
| `Buffer`, `Splitting`, `PathParser`, `Decimal`, `NumberParser`, `NumberReading`, `Utf8`, `Utf8Table` | text |

The originals' `double` is `real`, so that "normal" means nonzero; their `ratio` helper, which answers with the
numerator when the denominator is zero, is kept. Unsigned values that wrap are written with an explicit
remainder wherever a wrap is possible and matters. Proofs keep products of variables behind named functions
(`Times`, `Lin`, `Form`) and hide the definitions a lemma does not need.

## Where the code and its comments part

Each of these is a lemma; "exactly" in a lemma's name means that it gives a condition in both directions. A concrete
input that fails is given by the lemma or method named in brackets.

- The size-2 shortcut of the inverter flips the signs of the off-diagonal elements but does not exchange the
  diagonal: what it stores is the inverse only when the two diagonal elements are equal, and the two-coefficient
  fit built on it minimises only then, or when there is nothing to fit (`ShortcutSpoilsDiagonal`, `MissedFit`).
- A zero pivot does not mean a zero determinant: an invertible matrix can be refused, since the inverter
  never exchanges rows (`ZeroPivotOfInvertible`). The answer is nonzero exactly when the determinant of every trailing
  submatrix in play is not zero.
- With the signs used in the elimination the invariant holds for vectors that act on the matrix from the left.
- A continued-fraction search is promised the ratio that best matches a number, numerical error aside. For a first
  coefficient within the limit, the result is the nearest ratio within the limit exactly if the fraction left over is so
  small that no mixture of the last two convergents gets nearer; with a limit of 4 the run for 0.4 stops at 1/2, and 1/3 is
  nearer (`NearerThird`), and every limit but 1 has such a number (`NearestMissed`). What is certain below the 34th
  Fibonacci number, and not from there on, is only that no p and q within the limit have a smaller |q x - p|
  (`CutShort`).
- The denominator of that search keeps to the limit exactly when the first coefficient does, which nothing checks
  (`DenominatorBeyondLimit`).
- The average of the last two convergents, `better()`, is closer than both not always but exactly when the last one is
  less than three times nearer than the one before (`AverageFarther`).
- `compute` of the solver is said to return a number of fits that should equal the size. It returns a count that runs on,
  and so meets that only if the count was zero before (`CountedTwice`).
- Packing is promised not to make a lonely separator. It does so of one empty piece with a separator before it, and of two
  empty pieces (`LonelySeparators`).
- `setDivider(rate)` pulses once in `rate + 1` calls, not in `rate`; and a rate of 0 freezes the output off, not on
  as `cppext/twiddler.h:24` says (`SetDivider`).
- A dither that is not centred keeps the promised duty exactly when its state is in range (`MissedDuty`), and one that
  is centred always but for the ratio of 0 to 1, which gives a stray pulse (`CentredDutyExactly`).
- The factor between `ampEstimate` and the amplitude in `cppext/quadraticfilter.h:41` is wrong; the 3 that
  `cppext/linearsmoother.h:24` asks about is right.
- A scan starts from whatever curvature estimate the filter last had, which can invent or hide a first low or high
  (`FalseHigh`, `FreshScan`).
- The two path scanners report different rules for a text of two or more separators and nothing else
  (`TwoSeparatorsDiffer`), and the length reckoned for packing is one too many for a single empty piece with only a
  trailing separator (`EmptyPieceNeedsNothing`).
- A printed zero is not read back when a decimal point follows it whose fraction is kept as zero: "0." and "0.0" are
  no number, though "0.5" is read as 0 (`ZeroWithPoint`). A printed number other than zero is never read back when an exponent follows.
- A digit too many for the last place of the 64 bit accumulator wraps it; the parsed value is the rounded one
  exactly if that does not happen (`WidthReadsAsZero`). The accumulator's own check for digits takes the colon for ten,
  against the comment at `cppext/numberparser.cpp:21` (`ApplyDigit`).
- An integer is parsed to its value exactly if that fits 64 bits with a sign (`IntegerReadsExactly`). With an exponent the
  largest integer is returned where the product would fit, and the wrapped product where it would not (`ScaledReads`).
- The wide logarithm is one less than the number of digits, as `cppext/minimath.h:203` says, only for values that 32 bits
  hold or that have more than ten digits and are below ten to the 23rd modulo 64 bits, and for a few more (`LogExactly`).
- A top is seen only where the slope falls through zero between two places: data that is the same on both sides of its
  top shows none, since the slope there is zero (`EvenScan`).
- The decoder takes UTF-8 forms that are longer than need be, and bytes that may only follow as bytes of their own
  (`DecodedByTable`).
- Appending to a buffer that is already full answers that all was copied, if no limit is given (`Packer.Cat`).

## Model

| member | source | states |
|---|---|---|
| Determinator.DeterminatorCore.Descend | cppext/determinator.cpp:21-47 | the recursion over shared flag arrays returns the determinant of the open rows and columns and leaves both arrays as it found them |
| Determinator.DeterminatorCore.SumRows | cppext/determinator.cpp:24-41 | the alternating sum over the usable rows is one cofactor expansion, with both arrays restored |
| Determinator.DeterminatorCore.Term | cppext/determinator.cpp:28-39 | one row's signed term, entry or substituted right side times the minor |
| Determinator.DeterminatorCore.Compute | cppext/determinator.cpp:5-12 | the cofactor determinant of what is not ignored, with one column replaced on request |
| Determinator.CramersRule | cppext/determinator.cpp:5-47 | for every solution of the gated equations, the determinant with the right side in place of a column is that column's coefficient times the plain determinant |
| Determinator.NothingSolves | cppext/determinator.cpp:5-47 | where the determinant is not zero, only zeros solve the equations without a right side |
| Determinant.DetBlend | cppext/determinator.cpp:21-47 | replacing a column by a combination of all columns multiplies the determinant by that column's share |
| Determinant.DetSwap | cppext/determinator.cpp:21-47 | exchanging two neighbouring columns negates the expansion |
| Determinant.DetRepeat | cppext/determinator.cpp:21-47 | a repeated column makes the expansion zero |
| MatrixInverter.MatrixInverter.Clear | system/matrixinverter.cpp:38-44 | every element becomes zero |
| MatrixInverter.MatrixInverter.PivotOn | system/matrixinverter.cpp:91-119 | the in-place scaling and adding loops together are one exchange on a diagonal element, ignored rows and columns untouched |
| MatrixInverter.MatrixInverter.Eliminate | system/matrixinverter.cpp:78-125 | copy and sweep: the product of the pivots, or zero at the first zero pivot |
| MatrixInverter.MatrixInverter.Compute | system/matrixinverter.cpp:46-126 | all paths; a nonzero answer leaves the two-sided inverse of the part in play exactly when the size-2 shortcut did not spoil it, and is positive for a positive definite part |
| Exchange.ExchangeStep | system/matrixinverter.cpp:91-119 | for all vectors, one exchange answers the same equations with one input and one output traded, both directions |
| Exchange.ExchangeInvariant | system/matrixinverter.cpp:86-125 | after any number of pivots, for all vectors: y = x A on the indices in play if and only if the working matrix takes (y on the pivoted, x off them) to (x on the pivoted, y off them) |
| Exchange.SweepInverts | system/matrixinverter.cpp:78-125 | a completed elimination leaves the two-sided inverse of the submatrix in play |
| Exchange.SweepFrame | system/matrixinverter.cpp:96-116 | ignored rows and columns keep their elements |
| Pivots.DefiniteCompletes | system/matrixinverter.cpp:86-125 | on a positive definite submatrix every pivot reached is positive and no zero return is taken |
| Pivots.CompletesExactly | system/matrixinverter.cpp:86-125 | pivoting goes through exactly when every trailing submatrix in play has a trivial kernel |
| PivotDeterminant.NormIsDeterminant | system/matrixinverter.cpp:84-125 | the product of the pivots of a completed elimination is the determinant that the gated recursion computes |
| MatrixInverter.InverseExactly | system/matrixinverter.cpp:46-126 | with a nonzero answer the stored matrix is the inverse if and only if the shortcut was not taken or the diagonal is equal |
| MatrixInverter.ShortcutExactly | system/matrixinverter.cpp:66-75 | what the shortcut stores is an inverse if and only if the diagonal elements are equal |
| MatrixInverter.ShortcutSpoilsDiagonal | system/matrixinverter.cpp:66-75 | for the diagonal matrix of 1 and 2 the shortcut is taken and what it stores is no inverse |
| MatrixInverter.NormIsCofactor | system/matrixinverter.cpp:46-126 | a nonzero answer on any path is the cofactor determinant of the part in play |
| MatrixInverter.SmallIsCofactor | system/matrixinverter.cpp:46-77 | up to size 2 the answer, zero or not, is the cofactor determinant of the part in play |
| MatrixInverter.AnswersExactly | system/matrixinverter.cpp:86-123 | from size 3 on, a nonzero answer if and only if every trailing submatrix in play is nonsingular, and if and only if the cofactor determinant of every one of them is not zero |
| PivotDeterminant.TrailingIsPivots | system/matrixinverter.cpp:86-123 | the determinant of a trailing submatrix is the product of the pivots before its own times its own, zero or not |
| MatrixInverter.DefinitePositive | system/matrixinverter.cpp:46-126 | a positive definite part gives a positive answer |
| MatrixInverter.ZeroPivotOfInvertible | system/matrixinverter.cpp:120-123 | a matrix that is its own inverse and is refused, against the comment |
| MatrixInverter.TwoByTwoFails | system/matrixinverter.cpp:76-77 | falling through from the shortcut with a zero determinant ends in the zero return |
| LeastSquares.LLSQcomputer.Clear | system/dyndeterminator.cpp:63-72 | no samples, zero sums, zero solution |
| LeastSquares.LLSQcomputer.Include | system/dyndeterminator.cpp:36-61 | one more sample in every sum, on the lower triangle; a short one is refused and changes nothing |
| LeastSquares.LLSQcomputer.FillInTriangle | system/dyndeterminator.cpp:86-94 | the rows in play become symmetric and the lower triangle stays |
| LeastSquares.LLSQcomputer.Compute | system/dyndeterminator.cpp:96-121 | on a nonzero determinant the coefficients in play minimise the sum of squared residuals over all included samples, except through the size-2 shortcut, where the exact condition is given; ignored coefficients keep their value; there is an answer exactly for independent correlates |
| LeastSquares.AnswersIndependent | system/dyndeterminator.cpp:96-121 | there is an answer if and only if the correlates in play are independent on the samples |
| LeastSquares.PlayingIs | system/dyndeterminator.cpp:96-121 | the count of fits goes up by the size of the set of indices that are not ignored |
| LeastSquares.Solution | system/dyndeterminator.cpp:96-121 | the product of the sums with the stored inverse minimises, on every path of the inverter |
| LeastSquares.ShortcutMinimises | system/matrixinverter.cpp:66-75 | for two coefficients the result minimises if and only if the Gram diagonal is equal or both moments are zero |
| LeastSquares.MissedFit | system/dyndeterminator.cpp:96-121 | two samples included one after the other, on which the two coefficients computed do not minimise |
| LeastSquares.CountedTwice | system/dyndeterminator.cpp:96-121 | computing the same two fits twice returns 2 and then 4 |
| Regression.NormalMinimises | system/dyndeterminator.cpp:96-121 | any solution of the normal equations has the least sum of squared residuals over all coefficients in play |
| Regression.NormalUnique | system/dyndeterminator.cpp:96-121 | with independent correlates any other coefficients do strictly worse |
| Regression.Orthogonal | system/dyndeterminator.cpp:96-121 | residuals of a solution are orthogonal to every fit |
| Regression.IndependentDefinite | system/dyndeterminator.cpp:36-61 | the accumulated matrix is positive definite if and only if the correlates in play are independent on the samples |
| CenteredSlice.CenteredSlice.Get | cppext/centeredslice.cpp:10-18 | zero outside the window, the datum inside it |
| CenteredSlice.CenteredSlice.Endpoint | cppext/centeredslice.cpp:45-69 | a window at one end, no wider than asked for nor than the slice |
| Moments.MomentSlides | cppext/quadraticfilter.cpp:71-85 | how the first three moments change when the window moves up by one, for all data and widths |
| Moments.PowerSums | cppext/quadraticfilter.cpp:3-10 | the sums of the powers 0 to 4 over the window in closed form |
| QuadraticFilter.QuadraticFilter.Init | cppext/quadraticfilter.cpp:55-69 | the accumulators become the moments of the slice |
| QuadraticFilter.QuadraticFilter.Step | cppext/quadraticfilter.cpp:71-98 | both branches leave the same moments, changes and estimates of the window one further up |
| QuadraticFilter.QuadraticFilter.StepFast | cppext/quadraticfilter.cpp:72-85 | the incremental branch, with its order of assignments, against the direct sums |
| QuadraticFilter.QuadraticFilter.StepSlow | cppext/quadraticfilter.cpp:86-94 | the recomputing branch against the direct sums |
| QuadraticFilter.FastDeltas | cppext/quadraticfilter.cpp:77-85 | the incremental formulas are the changes of the moments |
| QuadraticFilter.QuadraticFilter.Scan | cppext/quadraticfilter.cpp:103-135 | each of low, high and top is the first location of the most extreme estimate among all sign changes of its kind that beat the incoming amplitude, with estimate and change of that location; otherwise it is as before |
| QuadraticFilter.PickNext | cppext/quadraticfilter.cpp:114-133 | keeping the better of the marks one location at a time picks the first most extreme one of all |
| QuadraticFilter.PickedOnce | cppext/quadraticfilter.cpp:103-135 | the outcome of a scan is determined |
| QuadraticFilter.SeesTrulyExactly | cppext/quadraticfilter.cpp:108-109 | the sign changes a scan acts on are those of the data if and only if the estimate left from earlier use agrees in sign with the data, or the first estimate is zero, or there is nothing to scan |
| QuadraticFilter.FalseHigh | cppext/quadraticfilter.cpp:103-135 | on data whose curvature estimate is positive throughout, a filter without a positive estimate from earlier use reports a high at the first location if and only if the slope there beats the incoming amplitude |
| QuadraticFilter.FreshScan | cppext/quadraticfilter.cpp:103-135 | a new filter scanning five strictly convex points reports a high |
| ScanReports.TopMeans | cppext/quadraticfilter.cpp:103-135 | top changes only to a place where the sum of i * data was positive one place before and is negative there, with the height, the slope and its change of that place; it is the first of the highest such places if one beats the incoming amplitude; and without one it stays as it was |
| ScanReports.LowMeans | cppext/quadraticfilter.cpp:114-120 | low likewise, at the steepest rise where the curvature estimate passes from positive to negative |
| ScanReports.HighMeans | cppext/quadraticfilter.cpp:120-126 | high likewise, at the steepest fall where the curvature estimate becomes positive |
| ScanReports.EstimatesAreFitted | cppext/quadraticfilter.cpp:95-98 | the three estimates of a step are positive multiples of amplitude, slope and curvature of the parabola fitted there |
| ScanReports.FallsIsFitted | cppext/quadraticfilter.cpp:110-128 | a top is seen exactly where the slope of the fitted parabola passes from positive to negative |
| ScanReports.FallingScan | cppext/quadraticfilter.cpp:103-135 | data that only falls leaves top as it was |
| ScanReports.LeaningScan | cppext/quadraticfilter.cpp:103-135 | a top found, with all that is reported of it |
| ScanReports.EvenScan | cppext/quadraticfilter.cpp:103-135 | a top missed, since the slope is zero on it |
| SavitzkyGolay.ConstantsAreSums | cppext/quadraticfilter.cpp:3-10 | the constructor's constants are the sums of the even powers, with no remainder lost |
| SavitzkyGolay.DenominatorPositive | cppext/quadraticfilter.cpp:10 | the denominator in closed form, positive if and only if the filter has more than one point |
| SavitzkyGolay.FittedBest | cppext/quadraticfilter.cpp:18-44 | amplitude, slope and curvature minimise the sum of squared differences over all parabolas, and nothing else does |
| SavitzkyGolay.FittedBestExactly | cppext/quadraticfilter.cpp:18-44 | they do so for all widths but zero, where they do if and only if the datum is zero |
| SavitzkyGolay.ReproducesParabola | cppext/quadraticfilter.cpp:18-44 | data on a parabola gives its coefficients |
| SavitzkyGolay.CurvishIsMultiple | cppext/quadraticfilter.cpp:22-24 | curvish is a positive multiple of the curvature |
| SavitzkyGolay.AmpEstimateIsMultiple | cppext/quadraticfilter.cpp:46-48 | ampEstimate is a positive multiple of the amplitude |
| SavitzkyGolay.StatedFactorExactly | cppext/quadraticfilter.h:40-42 | the factor stated for ampEstimate holds if and only if the amplitude is zero |
| PolynomialFit.NormalOnlyBest | cppext/quadraticfilter.cpp:18-44 | over a window with enough points a solution of the moment equations is the only least-squares polynomial |
| LinearFilter.LinearFilter.Init | system/linearfilter.cpp:23-33 | the accumulators become the first two moments of the slice |
| LinearFilter.LinearFilter.Step | system/linearfilter.cpp:35-41 | with the slice one further up the accumulators and their changes agree with the direct sums |
| LinearFilter.LineBest | system/linearfilter.cpp:4-21 | amplitude and slope are the only least-squares line of the window |
| LinearSmoother.Cycler.PostIncrement | cppext/cycler.cpp:28-72 | answers the old phase and moves to the next one, around the ring; a ring of length zero stays at its marker |
| LinearSmoother.LinearSmoother.Init | cppext/linearsmoother.h:42-48 | the window is full of the nominal value and the accumulators agree with it |
| LinearSmoother.LinearSmoother.Update | cppext/linearsmoother.h:56-64 | the oldest sample goes, the new one comes last, and the accumulators are again the sums of v and of position times v in age order |
| LinearSmoother.AfterIsLast | cppext/linearsmoother.h:41-64 | after any run of updates the window holds the last samples; after as many as it holds, nothing of the nominal value |
| LinearSmoother.LineBest | cppext/linearsmoother.h:67-80 | mean and drift are the only least-squares line of the window, and now is its value at the newest sample |
| LinearSmoother.FactorExactly | cppext/linearsmoother.h:22-24 | the line is a best one with factor k if and only if k is 3 or the first moment is zero |
| Correlation.RealCorrelation.Insert | cppext/realstatistic.cpp:68-72 | the sums are those of the points with one more |
| Correlation.RealCorrelation.Remove | cppext/realstatistic.cpp:74-78 | the sums are those of the points without one that was present |
| Correlation.CorrelationBounded | cppext/realstatistic.cpp:80-86 | for any data, degenerate or not, the correlation is between 0 and 1, and is 1 if and only if the points vary in both directions and lie on one line |
| Correlation.CorrelationIsShare | cppext/realstatistic.cpp:84-94 | for any data, the squared distances that the line leaves are one less the correlation times those from the mean: the correlation is R squared |
| Correlation.LevelWhereVertical | cppext/realstatistic.cpp:84-94 | where the x do not vary, slope and correlation are zero and the offset is the mean |
| Correlation.ThreeQuarters | cppext/realstatistic.cpp:84-86 | three points put in one after the other correlate to 0.75 |
| Correlation.LineMinimises | cppext/realstatistic.cpp:88-94 | slope and offset have the least sum of squared vertical distances of all lines, degenerate data included |
| Correlation.CauchySchwarz | cppext/realstatistic.cpp:80-86 | the bound behind the correlation, with the case of equality |
| ContinuedFraction.ContinuedFractionRatioGenerator.Split | cppext/continuedfractionratiogenerator.cpp:47-61 | the next coefficient and the rest, unless less than epsilon is left |
| ContinuedFraction.ContinuedFractionRatioGenerator.Bump | cppext/continuedfractionratiogenerator.cpp:24-31 | the provisional value is kept if and only if it fits the limit |
| ContinuedFraction.ContinuedFractionRatioGenerator.Step | cppext/continuedfractionratiogenerator.cpp:34-44 | one more convergent; a refused step leaves the convergents as they were |
| ContinuedFraction.ContinuedFractionRatioGenerator.Restart | cppext/continuedfractionratiogenerator.cpp:63-78 | the state a run starts from, and what is left over from before for a ratio below epsilon |
| ContinuedFraction.ContinuedFractionRatioGenerator.Run | cppext/continuedfractionratiogenerator.cpp:88-91 | at most 32 steps, ending where one is refused |
| ContinuedFraction.ContinuedFractionRatioGenerator.ForRatio | cppext/continuedfractionratiogenerator.h:49-54 | the whole search, for a first coefficient that fits: within the limit, in lowest terms, the nearest ratio within any limit exactly if the fraction left has settled, and one of least miss exactly unless the counter stopped the run where a step was still possible |
| ContinuedFraction.ContinuedFractionRatioGenerator.Better | cppext/continuedfractionratiogenerator.cpp:84-86 | the average of the values of the last two convergents |
| ContinuedFraction.ProvisionalFits | cppext/continuedfractionratiogenerator.cpp:24-31 | coefficient times convergent plus the one before fits 64 bits |
| Convergents.StartTracks | cppext/continuedfractionratiogenerator.cpp:63-78 | the invariant holds at the start: cross products differ by one, and the tail gives the ratio exactly |
| Convergents.NextTracks | cppext/continuedfractionratiogenerator.cpp:34-61 | every step keeps it |
| Convergents.BestBefore | cppext/continuedfractionratiogenerator.cpp:18-61 | no fraction with a smaller denominator, or smaller numerator, misses the ratio by less than the convergent before |
| Convergents.Closeness | cppext/continuedfractionratiogenerator.cpp:18-61 | a convergent is within the inverse square of its denominator |
| Convergents.LowestTerms | cppext/continuedfractionratiogenerator.cpp:18-61 | a convergent has no common divisor above one |
| Convergents.AfterTracks | cppext/continuedfractionratiogenerator.cpp:34-91 | over a whole run the invariant holds, both parts grow at least as fast as Fibonacci numbers, and both keep to the limit |
| Convergents.StopsAtLeastMiss | cppext/continuedfractionratiogenerator.cpp:34-44 | where the next convergent does not fit, no p and q within the limit have a smaller miss, the miss being the size of q x - p |
| Convergents.LowestTermsOf | cppext/continuedfractionratiogenerator.cpp:18-61 | so the pair that a run ends with is in lowest terms |
| Convergents.RunLeastMissExactly | cppext/continuedfractionratiogenerator.cpp:88-96 | for a given ratio and any limit, the result has the least miss within the limit if and only if the counter did not stop the run where a step was still possible |
| Convergents.RunAchieves | cppext/continuedfractionratiogenerator.cpp:88-96 | the result of a run, for a first coefficient that fits: within the limit, in lowest terms, within the inverse square of its denominator, and of least miss exactly under the same condition |
| Convergents.CutShort | cppext/continuedfractionratiogenerator.cpp:88-91 | for every limit from the 34th Fibonacci number on, a ratio whose run is cut short at a result that has not the least miss |
| Convergents.LeastMissExactly | cppext/continuedfractionratiogenerator.cpp:88-96 | the least miss is certain for every ratio if and only if the limit is below that number |
| NearestRatio.NearestExactly | cppext/continuedfractionratiogenerator.h:17-18 | a tracked convergent is the nearest ratio to the number within the limit if and only if f (2 t k1 + k2) <= k1, where f is the fraction left and t says how often the convergent can be added to the one before within the limit |
| NearestRatio.RunNearestExactly | cppext/continuedfractionratiogenerator.cpp:88-96 | so for the result of every run, one that the counter cut short included; one over zero, which is read as one, only for a limit of one |
| NearestRatio.NearestCertainExactly | cppext/continuedfractionratiogenerator.h:17-18 | the nearest ratio is certain for every number if and only if the limit is one |
| NearestRatio.NearestMissed | cppext/continuedfractionratiogenerator.h:17-18 | for every larger limit, a number whose run ends elsewhere |
| NearestRatio.NearerThird | cppext/continuedfractionratiogenerator.h:17-18 | four tenths with a limit of four ends at one half, which has the least miss, and one third is nearer |
| NearestRatio.AverageCloserExactly | cppext/continuedfractionratiogenerator.h:76-77 | the average of the last two convergents is closer than both if and only if k1 < 3 f k2 |
| NearestRatio.RunAverageExactly | cppext/continuedfractionratiogenerator.h:76-77 | the same after any number of steps from any number |
| NearestRatio.AverageFarther | cppext/continuedfractionratiogenerator.h:76-77 | four tenths again, with an average of one quarter |
| Convergents.FirstCoefficientDecides | cppext/continuedfractionratiogenerator.cpp:63-78 | the denominator keeps to the limit if and only if the first coefficient does |
| Convergents.DenominatorBeyondLimit | cppext/continuedfractionratiogenerator.cpp:63-78 | one thousandth with a limit of ten ends at the denominator 1000 |
| Crc16m.TableIsSerial | cppext/crc16m.cpp:6-39 | every table entry is the byte swap of eight steps of the serial register |
| Crc16m.TableStep | cppext/crc16m.cpp:46-50 | one pass of the loop is eight steps of the serial register |
| Crc16m.Compute | cppext/crc16m.cpp:42-52 | for every sequence of octets, the byte swap of the reflected 0xA001 register started at 0xFFFF |
| Crc16m.StartIsOnes | cppext/crc16m.cpp:42-52 | two octets of ones before a message make its check that of the register started at zero |
| Crc16m.StartCleared | cppext/crc16m.cpp:42-52 | two octets of ones bring the register to zero from all ones and from no other start |
| Crc16m.CheckValues | cppext/crc16m.cpp:6-52 | the checks of the text 123456789, of the octets 02 07, and of nothing |
| Crc16m.RegisterIsBits | cppext/crc16m.cpp:42-52 | octet by octet is the same as bit by bit in the order of transmission |
| Crc16m.CrcAffine | cppext/crc16m.cpp:42-52 | the difference of two checks depends only on the difference of the messages |
| Crc16m.BurstDetected | cppext/crc16m.cpp:42-52 | messages of one length that differ only within sixteen consecutive transmitted bits never share a check |
| Crc16m.ResidueExactly | cppext/crc16m.cpp:42-52 | a message with two octets after it checks to zero if and only if they are the high and the low octet of its check |
| Twiddler.IntegerTwiddler.SetRatio | cppext/twiddler.cpp:12-24 | the counters as signed words and the state, centred or clamped; centring puts it in range |
| Twiddler.IntegerTwiddler.SetDivider | cppext/twiddler.cpp:51-59 | for any rate: one part in rate plus one, in range; frozen off when the rate is not positive |
| Twiddler.IntegerTwiddler.Freeze | cppext/twiddler.cpp:61-65 | every later call returns the frozen value |
| Twiddler.IntegerTwiddler.Pwm | cppext/twiddler.cpp:67-75 | one call; in range it stays in range, so that nothing overflows |
| Twiddler.StaysInRange | cppext/twiddler.cpp:67-75 | the range is kept over any number of calls |
| Twiddler.PulseCount | cppext/twiddler.cpp:67-75 | the number of pulses in any number of calls, in closed form |
| Twiddler.EveryWindow | cppext/twiddler.cpp:67-75 | every window of n calls has the floor or the ceiling of its share of pulses; a period has exactly its share and restores the state |
| Twiddler.ExactDuty | cppext/twiddler.h:18 | for any counts the promised duty is met over a period if and only if the state is in range; without a count above, if there is none below or the state is negative; without one below, if it is not |
| Twiddler.CentredDutyExactly | cppext/twiddler.cpp:12-16 | after centring it is met for every ratio but 0 to 1 |
| Twiddler.CentredHalfway | cppext/twiddler.h:18 | centring starts in the middle of the range of states, and the first run of the more frequent outcome has half the calls of the least whole run, to within one |
| Twiddler.MissedDuty | cppext/twiddler.cpp:12-24 | a ratio set without centring after another one leaves the state out of range and the duty missed |
| Twiddler.DividerPeriod | cppext/twiddler.cpp:51-75 | a divider pulses once in rate plus one calls |
| Buffer.Indexer.Next | cppext/buffer.h:306-310 | the next element, and the pointer one on; the last element again when none is left |
| Buffer.Packer.Next | cppext/buffer.h:306-310 | assigns to the next place, or to the last one again |
| Buffer.Packer.Cat | cppext/buffer.h:268-278 | appends a C string as far as room and limit allow; the answer is yes if and only if that was all of it, or the limit cut it, or there was neither limit nor room |
| Splitting.FieldsDelimit | system/pathparser.cpp:51-88 | the fields hold no separator and give the text back when put together |
| Splitting.FieldsUnique | system/pathparser.cpp:51-88 | and no other list does |
| PathParser.Length | system/pathparser.cpp:7-20 | the length reckoned for the buffer |
| Splitting.LonelyExactly | system/pathparser.h:30-32 | a packed path is nothing but one separator if and only if none goes after it and it is of one empty piece with a separator before, of two empty pieces without, or of one piece that is a separator |
| Splitting.LonelySeparators | system/pathparser.h:30-32 | two lists of empty pieces that pack to a lonely separator |
| Splitting.NeededExactly | system/pathparser.cpp:7-20 | it is the packed length if and only if the list is not a single empty piece with a separator only after it, and one too many then |
| Splitting.EmptyPieceNeedsNothing | system/pathparser.cpp:7-37 | a single empty piece with a trailing separator packs to nothing and has one character reckoned |
| PathParser.PackInto | system/pathparser.cpp:22-37 | writes exactly the packed path, then a NUL if there is room, and nothing else of the buffer changes |
| PathParser.Pack | system/pathparser.cpp:39-44 | the packed path up to its first NUL |
| PathParser.Span.Cut | system/textpointer.cpp:151-155 | copies the spanned part as a C string and moves past it; a span out of order gives an empty text |
| PathParser.CopiedIs | system/textpointer.cpp:151-155 | the copy ends at the first NUL of the part, and is empty for a text without any characters |
| PathParser.ScanInto | system/pathparser.cpp:51-88 | from any place of the buffer, appends C string copies of the nonempty fields of the rest, and reports the leading and trailing separator |
| PathParser.ParseInto | system/pathparser.cpp:46-49 | the same for a text |
| PathParser.Chunker.Start | system/pathparser.cpp:100-107 | counts and passes over the leading separators |
| PathParser.Chunker.Next | system/pathparser.cpp:109-153 | the span of the first piece left, the scan left at the others, and the trailing rule; an empty span when there is none |
| PathParser.Chunker.ParseInto | system/pathparser.cpp:155-165 | the same pieces as the other scanner on every input |
| Splitting.RulesAgreeExactly | system/pathparser.cpp:51-165 | the two scanners report the same rules if and only if there is a piece or at most one character |
| Splitting.RulesAround | system/pathparser.cpp:51-165 | for any numbers of separators before and after anything else, both scanners report whether there were any |
| Splitting.RulesAlone | system/pathparser.cpp:51-165 | for separators alone, a leading one is reported, and by one scanner a trailing one if there are two |
| Splitting.TwoSeparatorsDiffer | system/pathparser.cpp:51-165 | the rules the two scanners report for two separators |
| Splitting.RoundTripsExactly | system/pathparser.cpp:39-88 | parsing a packed list returns the pieces and rules if and only if every piece is nonempty and free of separator and NUL, an empty list asks for no separators, and a NUL separator separates nothing |
| Splitting.RepackedOnce | system/pathparser.cpp:39-88 | packing a parsed path keeps its pieces, and doing so again changes nothing |
| NumberParser.I32Pow10Is | cppext/minimath.cpp:109-114 | the table holds the powers of ten |
| NumberParser.Ilog10 | cppext/minimath.cpp:133-140 | one less than the number of digits, -1 for zero |
| NumberParser.PrintUnsigned | cppext/charformatter.cpp:194-208 | writes all the digits of the number in order, or nothing when they do not fit |
| NumberParser.PushedNumberParser.ApplyDigit | cppext/numberparser.cpp:15-27 | for any character: shifts a digit in, modulo 64 bits, or says there is no room or no digit; the colon is taken for ten |
| NumberParser.PushedNumberParser.Next | cppext/numberparser.cpp:41-152 | one character through the phase machine |
| NumberParser.PushedNumberParser.ParseNumber | cppext/charformatter.cpp:18-27 | takes characters until one is refused, and leaves that one unread |
| NumberParser.Parse64 | cppext/charformatter.cpp:135-151 | the integer of the pieces, the exponent's arithmetic with its wraps included |
| NumberParser.ParseUnsigned | cppext/charformatter.cpp:91-100 | a 32 bit value, or the default outside that range |
| NumberReading.CharacterCodes | cppext/numberparser.cpp:29-83 | which characters are digits, spaces and exponent markers |
| NumberReading.IntegerReadsExactly | cppext/charformatter.cpp:135-151 | after spaces and plus signs, a minus or none, and spaces, a string of digits is read as its signed value if and only if that fits 64 bits; what follows is left unread |
| NumberReading.WordReads | cppext/charformatter.cpp:91-100 | such a text is read as a 32 bit word if it is one; a minus gives the default |
| NumberReading.ZeroReads | cppext/numberparser.cpp:62-87 | zero, signed or not, ends there, even before another digit |
| NumberReading.NoNumberReads | cppext/numberparser.cpp:46-80 | a second sign after a minus, or a character that no number begins with, is refused and gives the default |
| NumberReading.PointReads | cppext/numberparser.cpp:59-61 | a number that begins with its point is read as zero, or as none when its digits are all zero |
| NumberReading.DecimalReads | cppext/numberparser.cpp:41-152 | every piece of a number with sign, fraction and signed exponent |
| NumberReading.ScaledReads | cppext/charformatter.cpp:135-151 | what becomes of an integer with an exponent: the largest integer, the wrapped product, or zero |
| NumberReading.LogExactly | cppext/minimath.cpp:142-150 | the wide logarithm is one less than the number of digits if and only if the value is in one of three ranges |
| NumberParser.ParsedRoundsExactly | cppext/numberparser.cpp:82-101 | for digits without a leading zero, of any number, the value kept is within half a unit of the last place kept, if and only if the accumulator does not wrap on the way; exact if nothing was dropped |
| Decimal.RoundsExactly | cppext/numberparser.cpp:15-101 | the same of the accumulation alone |
| Decimal.WidthReadsAsZero | cppext/numberparser.cpp:15-27 | two to the power of 64 is read as zero, with nothing dropped |
| NumberParser.PrintParse | cppext/charformatter.cpp:91-208 | every 32 bit value comes back from what was printed, whatever follows that cannot belong to a number |
| NumberParser.PrintParseExactly | cppext/charformatter.cpp:91-208 | before any text that neither goes on with digits nor gives an exponent it comes back if and only if it is not a zero with a decimal point after it whose fraction is kept as zero, with another default |
| NumberParser.ZeroWithPoint | cppext/numberparser.cpp:102-109 | "0." is read as the default, "0.5" as zero |
| NumberParser.ExponentSpoils | cppext/charformatter.cpp:91-208 | with an exponent after it a nonzero value never comes back, unless as the default |
| NumberParser.PrintParseAlways | cppext/charformatter.cpp:91-208 | before any text that does not go on with digits: it comes back whatever the default if and only if no exponent follows, or, for a zero, under a condition on fraction and exponent |
| NumberParser.RunPrinted | cppext/numberparser.cpp:41-152 | the pieces that the parser has after a printed number and any such text |
| Utf8.Encode | system/utf8converter.cpp:119-129 | all the bytes of a code point, or none when there is no room |
| Utf8Table.EncodedByTable | cppext/utf8.cpp:45-83 | every code point has the shortest form that holds it, with the first byte and the following bytes in the ranges of the two tables and the code point as their weighted sum without the markers |
| Utf8Table.DecodedByTable | cppext/utf8.cpp:10-43 | every well marked form below 31 bits, whether shortest or not, decodes to that sum |
| Utf8.FirstByteTells | cppext/utf8.cpp:10-74 | the first byte tells how many follow and carries the bits they do not |
| Utf8.NextByteBrings | cppext/utf8.cpp:38-83 | each following byte brings back six bits |
| Utf8.DecodesBackExactly | cppext/utf8.cpp:10-83 | a code point comes back from its bytes, whatever follows, if and only if it fits 31 bits |
| Utf8.StreamDecodesBack | cppext/utf8.cpp:10-83 | every stream of such code points comes back from its bytes |
| Utf8.StreamsDiffer | cppext/utf8.cpp:10-83 | no two such streams have the same bytes |

## Left out

- Rounding, NaN, infinities and denormal numbers: `double` is modelled as `real`.
- Overflow of the filters' and smoother's 32 bit integers: their sums are unbounded.
- QuadraticFilter.QuadraticFilter.Scan: the estimate left from earlier use takes part in the first comparison as it does in the code; SeesTrulyExactly says when that matters. The slice must have the filter's width of data around it, as the original's comment presumes.
- QuadraticFilter.QuadraticFilter.Step: the incremental branch is for a window as wide as the filter; nothing in the original selects it.
- MatrixInverter.MatrixInverter.Compute: with sizes 1 and 2 and every index ignored the answer is the first diagonal element, and is not claimed to be a determinant.
- ContinuedFraction.ContinuedFractionRatioGenerator.Split: with exactly epsilon left the original converts 2^32 to a 32 bit unsigned, which is undefined; the coefficient is 2^32 here.
- ContinuedFraction.ContinuedFractionRatioGenerator.Restart: a first coefficient that a word does not hold is undefined in the original and is reduced modulo the word here.
- Convergents.RunAchieves: like RunNearestExactly, requires a first coefficient within the limit; FirstCoefficientDecides says that nothing else keeps the denominator within it.
- Twiddler.IntegerTwiddler.SetRatio: the difference and the negation of counts beyond 0x7FFFFFFF, read as negative, can overflow a 32 bit int, which is undefined in the original; they are unbounded here.
- Buffer.Packer.Next: a buffer without any place, for which the original answers with a null reference.
- Buffer.Packer.Cat: a null source, and texts of 2^32 - 1 characters or more, on which the count of the unlimited case would run out.
- PathParser.PackInto: buffers shorter than reckoned, of which the last place would be overwritten, and converters other than the plain copy.
- NumberParser.Parse64: a mantissa with more digits than the accumulator keeps together with an exponent, and exponents of 0x70000000 and more, are modelled as they stand and nothing is claimed of them; the original's own comment expects nonsense of exponents.
- NumberParser.PushedNumberParser.Next: the counts of dropped and of fractional digits are unbounded, and the count of processed characters is not kept.
- Utf8.DecodesBackExactly: a byte without followers is taken whole, as the callers in system/utf8transcoder.cpp do; firstBits alone would keep six of its seven bits.
- LinearFilter.LinearFilter.Step: the slice is as wide as the filter; the filter's own `scan`, whose reports are marked unfinished, is left out.
- `test`, `applyIgnorance`, residual statistics (`Lxx`, `Rsquared` and the like), `sxd`, `nines` and `var`.
- `UTF8::Decoder`, `UTF8::Encoder` and the escaping machines; floating-point printing and parsing; 64 bit printing.
- The rest of the library: networking, usb, files, timers, logging, stored settings, JSON, and the simple containers.
