# A verified model of the market trajectorizer

The trajectorizer is a deterministic numeric engine.  From the candles up to an anchor bar it
builds a jet, then extrapolates it with several independent algorithms, and it only trusts
horizons at which those algorithms agree.  This project models that algebra, the state machines
around it and the replay code in Dafny, and proves the laws the engine relies on.

Run `dafny verify dfyconfig.toml` to check everything.

## What is modelled

| files | subject |
|---|---|
| ComplexField, Polynomials, Reals, Results, Combinatorics | exact complex arithmetic, finite sums, polynomials, binomials |
| MultiIndex, JetLattice | enumeration of the simplex, flattening, odometers, jets on the dense lattice |
| PhaseTorus, Extractors | the tensor-grid extractor, the separable extractor and jet normalization |
| LinearAlgebra, MatrixRank, Elimination | partial-pivot elimination in place, as solver and as rank detector, and what the detector counts |
| Recurrence, Modes, Spectral, RecurrenceEngine | Hankel detection, recurrence fit, companion orbit, long division, confluent modes, and the engine that chains them |
| JetSemigroup, JetOperators | translation of jets, derivation, integration and projection |
| NewtonGregory, NewtonPolynomial | backward differences, the rising-factorial extrapolation, and its form in powers |
| Anchor, FutureSection, DiagonalJet | the anchor germ, its round trip, smooth and packet sections, and when the jet carrier is the continuous one |
| SampleWindows, PolynomialCarrier, Evolution | recovery of a polynomial section by the recurrence engine, and the comparison of all carriers |
| Sector, Authority, AnchorPipeline | the local sector certificate, the authority gate with all its clauses, and one anchor from bars to verdict |
| Windows, ChangeGate, Sectorizer | the online packet sectorizer |
| JsonText, JsonScanner | the JSON scanner and the escaper |
| Candles, Simulator, WalkForward | validation and resampling, the fill simulator, the walk-forward loop |

Code that works in place is modelled in place: the two eliminations on `array2` buffers, the
index enumeration and the JSON cursor as classes, and every loop of the source as a method with
invariants, proved against a specification function whose laws are lemmas.

## Conventions

- Arithmetic is exact: complex numbers are pairs of reals.  Moduli are compared through squared
  moduli, and `|v| < tol` is `tol > 0 && |v|^2 < tol^2`.  Gaps between carriers are squared too.
- An angle is a whole number of steps of 2 pi / M, and `e^{2 pi i/M}` is any primitive M-th root of
  unity `w`, so no trigonometry is involved.
- `x^0` is 1, also for x = 0.  A mode with lambda = 0 has the value 0 at negative exponents; the
  results about modes assume nonzero roots.
- The root finder is an oracle passed in as a function, as are the engine in the walk-forward loop,
  the square root in the sectorizer, the radius and condition estimates of the certificate, and the
  flags of the gate about the transported trajectory and the start-up self tests.
- A thrown `NumericError` is a result; an infinite quantity is an option.
- Orders and dimensions are naturals.  `multi_index_count` needs Q >= 1, as in the source, where
  Q = 0 would read row -1 of its table.
- Horizon grids in the comparison of the carriers hold whole numbers, as the pipeline builds them.
- The packed 1-D branch of the jet translation (src/math/semigroup.cpp:31-44) cannot be reached:
  for Q = 1 the size it asks for is the dense size its guard has just excluded.  It is not modelled.
- Candle opens are nonzero in the simulator, and `packet_mad_eps` is nonnegative in the sectorizer,
  so that no division by zero arises.
- Lemmas carry `{:induction false}`: their proofs are written out.

## Where the code and its documentation differ

Each point is a theorem with the exact condition under which the documented claim holds.

- include/mt/math/phase_torus.hpp calls the separable extractor equivalent to the tensor grid.  That
  holds for all separable fields if and only if Q = 1 or the order is below M
  (`PhaseTorus.ExtractorsAgreeExactly`).
- docs/math_contract.md and src/math/taylor.cpp state D_i I_i = projection.  On truncated jets
  D_i I_i only removes the top degree; it is the projection exactly for the jets of
  `JetOperators.DerivativeOfIntegralProjects`, and `JetOperators.ConstantBreaksProjection` gives one
  for which it is not.
- docs/math_contract.md states E_h = J_h without conditions.  With five channels the jet carrier sums
  all channels while the continuous one follows the first; they agree at all horizons exactly when
  the other channels cancel degree by degree (`DiagonalJet.AnchorContinuousIsJet`), and
  `DiagonalJet.RallyBreaksIdentity` gives two candles, valid at ingest, on which they do not.
- docs/math_contract.md states E_h = N_h without conditions as well.  The Newton carrier is the
  section at every horizon exactly when the section's degree is below the number of differences used
  (`Evolution.NewtonCarrierExactly`); `Evolution.TwoSamplesMissQuadratic` is an input at which it is
  not.
- A horizon grid that does not start at zero is said to fail closed.  The object returned has zero
  gaps, so the evolution check itself accepts it (`Evolution.UnanchoredPasses`); the gate still fails
  closed, through theorem.phase_torus_residual_evaluated (src/engine/pipeline.cpp:719) and two more
  clauses (`Authority.UnanchoredFailsClosed`).
- The anchor coefficients are described as differences of past bars.  At the first bar the order is
  still one and the missing earlier bar counts as zero (`Anchor.FirstBarSlope`): every coefficient
  used is a difference of existing bars exactly from the second bar on
  (`Anchor.CoefficientsUseBarsExactly`).
- Flattening a position resets the cost basis without booking the profit: the equity identity holds
  exactly while the money flow up to the last flattening is zero
  (`Simulator.TextbookEquityExactly`), and `Simulator.FlatteningForgetsProfit` is a run in which it
  is not.
- The JSON the writer emits is meant for standard readers.  It escapes only the quote, the backslash,
  newline, carriage return and tab, so the literal is one of section 7 of RFC 8259 exactly when the
  string holds no other control character (`JsonText.EscapeStandardExactly`); U+0001 is written raw
  (`JsonText.ControlCharacterEscapes`).  Its own reader takes such a literal.
- The scanner does not decode unicode escapes.  It reads a literal of section 7 as meant exactly when
  there is none in it (`JsonText.ReadStandardExactly`), finds what the RFC's reading of the keys says
  when no key holds one (`JsonText.FindStandard`), and misses a key that does
  (`JsonText.UnicodeKeyMissed`).

As documented (clause 13.8 of docs/math_contract.md), the implementation flag stays off: the gate
compares the mode name it has just assigned with a different one, so no verdict is ever production
ready (`Authority.NeverProductionReady`), and a walk-forward run on such verdicts retains no anchor
without the research flag (`WalkForward.NeverReadyKeepsNothing`).

## Model

| member | source | states |
|---|---|---|
| Combinatorics.FactorialInt | src/math/combinatorics.cpp:7-12 | the loop returns n! as a real |
| Combinatorics.Binom | src/math/combinatorics.cpp:72-77 | the running product equals the binomial coefficient, with 0 for negative k and for k > n |
| Combinatorics.ChooseStep | src/math/combinatorics.cpp:72-77 | C(n,k+1) (k+1) = C(n,k) (n-k), the step the running products rely on |
| MultiIndex.Enumeration.Recurse | src/math/combinatorics.cpp:38-45 | the recursion appends exactly the prefixed simplex and restores the shared prefix |
| MultiIndex.EnumerateMultiIndices | src/math/combinatorics.cpp:47-51 | the output is the simplex list, whose contents, order and size the next four rows fix |
| MultiIndex.SimplexMembers | src/math/combinatorics.cpp:38-51 | an index is listed if and only if it has Q entries and total degree at most the order |
| MultiIndex.SimplexIncreasing | src/math/combinatorics.cpp:38-51 | the list is strictly lexicographically increasing |
| MultiIndex.SimplexNoRepeats | src/math/combinatorics.cpp:38-51 | no index is listed twice |
| MultiIndex.SimplexSize | src/math/combinatorics.cpp:24-51 | the list has C(Q+order, Q) entries |
| MultiIndex.MultiIndexCount | src/math/combinatorics.cpp:24-36 | the Pascal-table count is C(Q+order, Q) for every Q >= 1 |
| MultiIndex.MakeLayout | src/math/combinatorics.cpp:53-64 | stride i is (order+1)^(Q-1-i) |
| MultiIndex.Flatten | src/math/combinatorics.cpp:66-70 | the flattened position is the mixed-radix rank of the index |
| MultiIndex.FlatInjective | src/math/combinatorics.cpp:53-70 | flattening maps the box injectively into [0, (order+1)^Q) |
| MultiIndex.RankSteps | src/math/quadrature.cpp:14-22 | one odometer step raises the rank by exactly one |
| MultiIndex.UnrankRank | src/math/combinatorics.cpp:66-70 | flattening can be undone: unranking the rank of an index returns it |
| Extractors.Advance | src/math/quadrature.cpp:18-22 | the carry loop makes one odometer step, or is at the last node |
| Extractors.BuildTorusQuadrature | src/math/quadrature.cpp:6-25 | the angle buffer holds all M^Q nodes, each exactly once, in rank order |
| Extractors.TensorSum | src/math/phase_torus.cpp:38-56 | the accumulator loop over the nodes is the sum of F(z + rho e^{i psi}) e^{-i alpha psi} |
| Extractors.ExtractPhaseTorus | src/math/phase_torus.cpp:18-60 | succeeds exactly for rho > 0 and M >= 2; every coefficient is the mean over the full M^Q grid, entries outside the simplex stay zero |
| Extractors.AxisCoefficients | src/math/phase_torus.cpp:95-110 | the ring loop returns the M-point mean for every degree |
| Extractors.SupportScan | src/math/phase_torus.cpp:120-131 | the scan tells zero, one-axis and mixed indices apart and names the axis |
| Extractors.ExtractSeparable | src/math/phase_torus.cpp:70-144 | succeeds exactly for Q > 0, rho > 0, M >= 2 and matching point lengths; constants add up over the axes, pure powers come from their axis, mixed indices are zero |
| PhaseTorus.MeanOfWave | src/math/phase_torus.cpp:46-54 | roots of unity are orthogonal: the mean of a wave is 1 at order 0 and at order M and 0 in between |
| PhaseTorus.GridMean | src/math/phase_torus.cpp:38-56 | the mean over the grid of a product of one-axis factors is the product of their means |
| PhaseTorus.TensorSplits | src/math/phase_torus.cpp:38-56 | on a separable field the grid coefficient is the sum over the axes of the means of each germ |
| PhaseTorus.SeparableEqualsTensor | include/mt/math/phase_torus.hpp:30-40 | fast form refines simple form: for every Q, field F = sum of germs, point, radius and multi-index of degree below M (or a single axis), both extractors return the same coefficient |
| PhaseTorus.Aliasing | include/mt/math/phase_torus.hpp:30-40 | at degree M the extractors differ: unit germs give Q on the grid and 1 on the fast path |
| PhaseTorus.ExtractorsAgreeExactly | include/mt/math/phase_torus.hpp:30-40 | the claimed equivalence holds for all fields if and only if Q = 1 or order < M |
| Extractors.ExtractionsEqual | include/mt/math/phase_torus.hpp:30-40 | below the aliasing order the two stored coefficient arrays are equal entry by entry |
| PhaseTorus.PolynomialExtraction | docs/math_contract.md:43-52 | below M the ring recovers coefficient a of a polynomial germ times rho^a, for every polynomial of at most M coefficients |
| Extractors.MakeJet | src/engine/jet_engine.cpp:23-40 | succeeds exactly when the array is large enough and rho > 0; each coefficient is multiplied by rho^-\|alpha\| |
| Extractors.InverseRadiusCancels | docs/math_contract.md:54-61 | normalization undoes the radius factor of the extraction |
| JetSemigroup.NextBelow | src/math/semigroup.cpp:69-79 | the beta odometer takes one step below alpha, or reports that alpha itself was reached |
| JetSemigroup.BetaWeight | src/math/semigroup.cpp:56-66 | the inner product loop returns the translation weight of alpha onto beta |
| JetSemigroup.Distribute | src/math/semigroup.cpp:51-80 | distributing alpha visits every beta <= alpha exactly once and adds its share to exactly that entry |
| JetSemigroup.ShiftJet | src/math/semigroup.cpp:27-83 | the shifted jet has at every beta the sum over alpha of the translation weights; a short array gives the zero jet |
| JetSemigroup.AxisGroup | src/math/semigroup.cpp:5-9 | on one axis the weights of h1 and h2 compose to those of h1 + h2 |
| JetSemigroup.BoxGroup | src/math/semigroup.cpp:5-9 | the same for weights on any number of axes, summed over the simplex |
| JetSemigroup.ShiftGroup | src/math/semigroup.cpp:5-12 | translation by h1 and then h2 is translation by h1 + h2, on every jet of any Q and order |
| JetSemigroup.ShiftIdentity | src/math/semigroup.cpp:5-12 | translation by 0 is the identity on simplex-supported jets |
| JetSemigroup.ShiftEvaluates | src/math/semigroup.cpp:5-9 | entry 0 of the jet shifted by h is the jet evaluated at (h, ..., h) |
| JetSemigroup.EvaluateJet | src/engine/jet_engine.cpp:42-57 | the loops return the jet's polynomial value at eta |
| JetOperators.ApplyD | src/math/taylor.cpp:31-53 | fails exactly for a bad axis or eps = 0; else holds the scaled derivative at every index |
| JetOperators.ApplyI | src/math/taylor.cpp:55-76 | fails exactly for a bad axis; else holds the scaled, truncated integral at every index |
| JetOperators.ProjectPerp | src/math/taylor.cpp:78-93 | whatever the array size: padded to the dense size, entries of simplex indices with nothing on the axis cleared, all others kept |
| JetOperators.IntegralOfDerivative | docs/math_contract.md:64-69 | I_i D_i is the projection, on every simplex-supported jet |
| JetOperators.DerivativeOfIntegral | src/math/taylor.cpp:3-5 | D_i I_i is the jet with its top total degree removed |
| JetOperators.DerivativeOfIntegralProjects | docs/math_contract.md:64-69 | D_i I_i is the projection if and only if the jet has nothing free of the axis below the top degree and nothing on it in the top degree |
| JetOperators.ConstantBreaksProjection | docs/math_contract.md:64-69 | the jet 1 + 0 x of order one is a concrete input at which D_i I_i and the projection differ |
| JetOperators.ProjectedRoundTrip | src/engine/pipeline.cpp:567-597 | on projected jets of degree below the order both compositions are the identity |
| JetOperators.DerivationsCommute | src/math/taylor.cpp:31-53 | D_i and D_j commute |
| NewtonGregory.FiniteBackwardDifferences | src/math/finite_differences.cpp:3-21 | the running-binomial loop returns the iterated backward differences of every order up to K |
| NewtonGregory.BinomialSum | docs/math_contract.md:135-140 | iterated backward differences equal the alternating binomial sum |
| NewtonGregory.BetaK | src/math/newton_gregory.cpp:6-10 | the product loop is the rising factorial over k! |
| NewtonGregory.EvalNewtonPoint | src/math/newton_gregory.cpp:12-16 | the loop is the sum of beta_k(h) times the differences |
| NewtonGregory.EvalNewtonGrid | src/math/newton_gregory.cpp:18-24 | the Newton carrier with K differences, also K = 0, at every grid point; zeros when the anchor is outside the samples |
| NewtonGregory.EvalNewtonAtH | src/engine/trajectorizer_engine.cpp:36-86 | reversal, order cap and partial sums: the value at every h is the Newton form on the used past samples; the recorded samples, differences, abscissas, basis values and partial sums are those of that form; zeros and empty tables for no data |
| NewtonGregory.NewtonAt | src/engine/trajectorizer_engine.cpp:72-84 | the recorded basis values and partial sums are those of the value |
| NewtonGregory.BetaAtPast | src/math/newton_gregory.cpp:6-10 | at h = -m the basis values are signed binomials |
| NewtonGregory.Duality | docs/math_contract.md:135-140 | taking differences of the differences returns the samples |
| NewtonGregory.NewtonInterpolates | src/engine/trajectorizer_engine.cpp:24-35 | for arbitrary past data the carrier at -j returns sample j, for every j below the order used |
| NewtonGregory.RisingForm | docs/math_contract.md:7-14 | every polynomial has a rising-factorial form with the same value at every real h |
| NewtonGregory.PolynomialDifference | docs/math_contract.md:135-140 | the backward differences of polynomial samples are its rising-factorial coefficients |
| NewtonGregory.NewtonExtrapolates | docs/math_contract.md:135-140 | on samples of a polynomial with at most K coefficients the carrier equals the polynomial at every real h |
| Polynomials.PolyEval | src/math/polynomial.cpp:5-9 | Horner's scheme returns the polynomial's value |
| Polynomials.PolynomialIdentity | src/engine/extraction_engine.cpp:464-475 | two polynomials agree at all horizons if and only if their coefficients agree; the horizons below the longer length decide it |
| Recurrence.PolyMul | src/math/polynomial.cpp:11-18 | the double loop returns the convolution of the coefficient lists |
| Elimination.SolvePivot | src/math/companion.cpp:27-33 | the pivot is the first row of largest modulus from the diagonal down |
| Elimination.EliminateColumn | src/math/companion.cpp:40-46 | one elimination step clears the column and keeps the solution set |
| Elimination.BackSubstitute | src/math/companion.cpp:48-52 | back substitution solves the triangular system |
| Elimination.SolveLinear | src/math/companion.cpp:25-53 | fails if and only if the original matrix is singular; otherwise returns x with A x = b for the original A and b |
| Elimination.GaussianRank | src/math/hankel.cpp:23-53 | at any tolerance the in-place loop returns the rank that elimination on values counts; full rank means a nonsingular original, and a smaller one at tolerance zero a singular one |
| MatrixRank.CountsRank | src/math/hankel.cpp:20-53 | at every tolerance as many columns as counted are independent, and at tolerance zero no larger set of columns is: the number is then the rank |
| MatrixRank.FewerRows | src/math/hankel.cpp:20-53 | fewer rows than columns always leave a nontrivial combination of the columns that vanishes |
| MatrixRank.FullRank | src/math/hankel.cpp:55-75 | full rank is nonsingularity |
| LinearAlgebra.SolutionUnique | src/math/companion.cpp:25-53 | a nonsingular system has one solution |
| Recurrence.DetectMinRank | src/math/hankel.cpp:60-75 | 0 for no samples; otherwise, at any tolerance, the first order within bounds whose next Hankel minor has a deficient counted rank, or the bound; the minors below it are nonsingular, and at tolerance zero the next one is singular |
| Recurrence.DetectedOnce | src/math/hankel.cpp:60-75 | there is only one such order |
| Recurrence.DetectedIsSolvable | src/math/hankel.cpp:60-75 | a detected order r >= 2 always has 2r samples and a nonsingular Hankel matrix, at any tolerance; only order 1 can make the solve throw, exactly when u has one sample or starts with zero |
| Recurrence.SolveRecurrence | src/math/companion.cpp:57-75 | fails exactly for missing samples or a singular Hankel matrix; otherwise the coefficients fit the first 2r samples |
| Recurrence.FitUnique | src/math/companion.cpp:57-75 | the fit is the only one |
| Recurrence.RecurrenceMakesSingular | src/math/hankel.cpp:56-75 | a recurrence of order d makes the Hankel matrix of size d+1 singular |
| Recurrence.Recovery | src/math/hankel.cpp:60-75 | from 2d samples of an order-d recurrence whose Hankel minors of size d and of the sizes from 2 up to it are nonsingular, detection at tolerance zero returns d and the fit is the generating recurrence, also for sequences that start with zero |
| Recurrence.RecoveryExtrapolates | src/math/companion.cpp:57-102 | under the same hypotheses the companion orbit is the true sequence at every horizon |
| Recurrence.FitReproduces | src/math/companion.cpp:57-102 | with fitted coefficients the orbit reproduces the first 2r samples |
| Recurrence.BuildCompanion | src/math/companion.cpp:77-86 | the matrix is the companion matrix of c and the state the zero-padded initial samples |
| Recurrence.EvalCompanion | src/math/companion.cpp:88-102 | h steps of the matrix give entry h of the recurrence's continuation; zero for r = 0, the start for h <= 0 |
| Recurrence.ContinuationUnique | src/math/companion.cpp:88-102 | the continuation is the only sequence that obeys the recurrence and starts with the samples |
| Recurrence.BuildRational | src/math/resolvent.cpp:20-40 | fails exactly for too few initial samples; Q is the reversed characteristic polynomial and P the product of Q and the samples, cut at r |
| Recurrence.EvalRational | src/math/resolvent.cpp:42-52 | long division returns the series u with Q u = P at every degree; zeros for a degenerate denominator |
| Recurrence.DivisionUnique | src/math/resolvent.cpp:42-52 | that series is unique |
| Recurrence.OrbitDivides | src/math/resolvent.cpp:20-52 | convolving Q with the companion orbit gives P and then zeros |
| Recurrence.CarriersAgree | docs/math_contract.md:109-112 | companion orbit and long division agree at every horizon for every recurrence and start |
| Spectral.BinomReal | src/math/combinatorics.cpp:79-84 | the falling product over s! is C(n, s) at whole arguments, zero for negative s |
| Spectral.ModeFactor | src/math/spectral.cpp:130-143 | binomial times power is the mode value C(h,s) lambda^(h-s) |
| Spectral.CollectCluster | src/math/spectral.cpp:56-70 | one cluster takes the unused roots near its first root and marks them used |
| Spectral.ClusterLambdas | src/math/spectral.cpp:56-70 | for any root list the clusters of the marking pass, whose multiplicities sum to the number of roots; for separated roots the distinct roots with their multiplicities |
| Spectral.FillConfluent | src/math/spectral.cpp:100-116 | the system matrix is the confluent matrix of the clusters |
| Spectral.ConfluentNonsingular | src/math/spectral.cpp:100-117 | with exact, nonzero, separated roots the confluent system is nonsingular |
| Spectral.FactorRational | src/math/spectral.cpp:74-128 | succeeds if and only if the confluent system of its clusters is nonsingular (or there is none); then the modes are those clusters with the weights that reproduce the series; given an exact factorization it never fails and its mode sum is the rational series at every horizon |
| Spectral.FactoredOnce | src/math/spectral.cpp:74-128 | denominator, numerator, roots and tolerance determine the modes |
| Spectral.EvalSpectral | src/math/spectral.cpp:130-143 | the mode loops evaluate the spectral sequence at every horizon up to H |
| Spectral.SpectralEqualsRational | docs/math_contract.md:109-112 | a mode sum that matches the first r coefficients matches all of them |
| Modes.ChainIsOperator | src/math/spectral.cpp:79-83 | applying the factors (S - lambda_j) one by one is applying their product polynomial |
| Modes.CombinationAnnihilated | src/math/spectral.cpp:97-99 | every confluent mode sum is annihilated by the product over the roots |
| Modes.ModesIndependent | src/math/spectral.cpp:97-117 | a confluent mode sum that vanishes at all horizons has zero weights |
| RecurrenceEngine.BuildRecurrencePipeline | src/engine/recurrence_engine.cpp:9-22 | the outcome is the empty one if and only if the fit of the detected order or its confluent system is singular, whatever the roots; otherwise it holds the consistent parts of that fit |
| RecurrenceEngine.EngineOnce | src/engine/recurrence_engine.cpp:9-22 | samples, configuration and root finder determine the outcome |
| RecurrenceEngine.CarriersOfPipeline | src/engine/recurrence_engine.cpp:9-22 | whatever was built, orbit and division agree at every horizon, and with exact roots so do the modes |
| RecurrenceEngine.PipelineRecovers | src/engine/recurrence_engine.cpp:9-22 | under the recovery conditions all carriers of the outcome are the true sequence at every horizon |
| RecurrenceEngine.RecoveryDoesNotFail | src/engine/recurrence_engine.cpp:9-22 | under the recovery conditions and with exact roots of the one denominator that can arise the engine cannot come out empty |
| Anchor.AnchorCoefficients | src/engine/pipeline.cpp:82-106 | every channel's list is the backward differences at the clamped anchor over n!; zeros without bars |
| Anchor.CoefficientUsesBars | src/engine/pipeline.cpp:89-104 | up to degree t a coefficient is the binomial sum of bars t-n..t and nothing else |
| Anchor.FirstBarSlope | src/engine/pipeline.cpp:111-112 | at the first bar the order is still one and the slope equals the level, the missing bar counting as zero |
| Anchor.CoefficientsUseBarsExactly | src/engine/pipeline.cpp:82-112 | every coefficient up to the order used is a difference of existing bars if and only if the anchor is not the first bar |
| Anchor.FlatChannelExactly | src/engine/pipeline.cpp:82-112 | seen from outside: on a flat nonzero channel all slopes up to the order used vanish if and only if the anchor is not the first bar |
| Anchor.GermIsPolynomial | src/engine/pipeline.cpp:122-135 | the germ's accumulation loop evaluates the polynomial of its coefficients |
| Anchor.ExtractAnchor | src/engine/pipeline.cpp:108-145 | fails exactly for rho <= 0; below the aliasing order every extracted coefficient is rho^\|alpha\| times the Taylor coefficient of the sum of the five germs |
| Anchor.AnchorJet | src/engine/pipeline.cpp:847-851 | round trip: extraction followed by normalization returns exactly the backward-difference coefficients, with zero mixed indices and the sum of the channels as constant; the jet is the extraction with the radius divided out |
| Anchor.AxisProjection | src/engine/extraction_engine.cpp:273-281 | for any array: the entry on the first axis, zero above the order, without axes and past the end of the array |
| Anchor.AxisEntryDense | src/engine/extraction_engine.cpp:273-281 | on a dense jet that entry is the coefficient of the pure power of the first channel |
| Anchor.SmoothPast | src/engine/extraction_engine.cpp:363-385 | A_phi lists the first-axis entries up to N_phi, for a jet of any size |
| Anchor.SmoothOfAnchor | src/engine/extraction_engine.cpp:380-384 | A_phi of an anchor jet: the sum over all channels in the constant, the first channel's coefficients from degree one on |
| Anchor.AnchorLevel | src/engine/pipeline.cpp:94-103 | the constant of each germ is the channel's value at the anchor bar |
| DiagonalJet.DiagonalValue | src/engine/trajectorizer_engine.cpp:151-155 | on the diagonal a jet is the polynomial of its degree sums |
| DiagonalJet.ContinuousIsJetExactly | docs/math_contract.md:94-98 | the continuous carrier equals the jet carrier at all horizons if and only if every degree sum is the kept first-axis coefficient; agreement up to the order is enough |
| DiagonalJet.AnchorDegreeSum | src/math/semigroup.cpp:51-80 | the degree sums of an anchor jet are the sums over the channels |
| DiagonalJet.AnchorContinuousIsJet | docs/math_contract.md:94-98 | at an anchor the identity holds if and only if the other channels cancel in every kept degree and everything cancels in the cut ones |
| DiagonalJet.RallyBreaksIdentity | docs/math_contract.md:94-98 | two candles the validator accepts, on which high and close rise together, break the identity whatever the logarithm |
| FutureSection.NormalizedBoundaries | src/engine/extraction_engine.cpp:283-294 | the boundaries inside 0..t, latest first, without repeats |
| FutureSection.ForwardDifferenceAtZero | src/engine/extraction_engine.cpp:262-271 | the overwritten table ends in the forward difference; zero for an order out of range |
| FutureSection.ForwardIsSigned | src/engine/extraction_engine.cpp:262-271 | the forward difference is the alternating binomial sum with sign (-1)^k |
| FutureSection.NoJumpBeyondAnchor | src/engine/extraction_engine.cpp:419-424 | jumps beyond the anchor are zero: clamping reads no later bar |
| FutureSection.Packet | src/engine/extraction_engine.cpp:417-448 | packet coefficients are forward differences of the first channel's jumps over n! |
| FutureSection.BuildPast | src/engine/extraction_engine.cpp:356-462 | smooth part, validity flag, and one packet for each of the latest boundaries, with onset t - b + 1, for any jet |
| FutureSection.BuildPiecewise | src/engine/extraction_engine.cpp:306-354 | the change points up to the anchor, latest first; without any, one synthetic boundary at the first largest transition if the switch allows it, and then not marked genuine |
| FutureSection.OnsetsIncrease | src/engine/extraction_engine.cpp:410-413 | onsets are whole, at least one and strictly increasing |
| FutureSection.EvaluateSmooth | src/engine/extraction_engine.cpp:464-475 | the loop evaluates the A_phi polynomial |
| FutureSection.EvaluateFull | src/engine/extraction_engine.cpp:477-490 | the smooth value plus every packet whose onset has passed |
| FutureSection.FullIsSmooth | src/engine/extraction_engine.cpp:477-490 | before the first onset the full section is the smooth one |
| PolynomialCarrier.DifferenceVanishes | docs/math_contract.md:135-140 | differences of order d kill a polynomial with at most d coefficients |
| PolynomialCarrier.PolynomialObeys | src/engine/pipeline.cpp:871-877 | samples of a polynomial of degree below d obey the recurrence (S - 1)^d = 0 |
| PolynomialCarrier.HankelOfPolynomial | src/math/hankel.cpp:60-75 | the Hankel matrix of size d of samples of a polynomial of degree exactly d - 1 is nonsingular |
| SampleWindows.WindowsDecideWeights | src/math/hankel.cpp:60-75 | no more than e weights annihilate the first e windows of a sequence whose differences stop at a nonzero constant of order e - 1 |
| PolynomialCarrier.OnesAreExact | src/math/spectral.cpp:79-85 | the fitted denominator is then (1 - z)^d: one, d times, is its exact root list |
| PolynomialCarrier.NewtonOfPolynomial | src/engine/pipeline.cpp:889-893 | Newton's carrier on past samples, cut by the recurrence order, is the polynomial at every h |
| PolynomialCarrier.NewtonIsSectionExactly | docs/math_contract.md:94-98 | on past samples of a polynomial the Newton carrier with K differences is the polynomial at every horizon if and only if its degree is below K |
| NewtonPolynomial.NewtonIsPolynomial | docs/math_contract.md:135-140 | the Newton form with K differences is a polynomial with K coefficients, at every real horizon |
| PolynomialCarrier.CarriersOfPolynomial | src/engine/pipeline.cpp:871-877 | for a polynomial of degree d - 1 with nonsingular Hankel matrices of the sizes below d, orbit, division and mode sum are the polynomial at every horizon |
| Evolution.DiffMax | src/engine/trajectorizer_engine.cpp:17-22 | the largest gap over the common length, attained or zero |
| Evolution.ComputeEvolution | src/engine/trajectorizer_engine.cpp:114-198 | every carrier's value at every grid point, the closed-regime flag, the five gaps and their maximum; zero carriers for a grid not starting at zero |
| Evolution.RationalOn | src/math/resolvent.cpp:61-71 | one division up to the largest horizon serves every grid point |
| Evolution.JetOn | src/engine/trajectorizer_engine.cpp:147-158 | entry 0 of the shifted jet at every horizon |
| Evolution.AssertMeans | docs/math_contract.md:120-133 | the assertion holds if and only if all neighbouring carriers are within tolerance at every horizon |
| Evolution.NewtonCarrierExactly | docs/math_contract.md:94-98 | the Newton carrier of the engine is the section at every horizon if and only if the section's degree is below the number of differences used |
| Evolution.TwoSamplesMissQuadratic | docs/math_contract.md:94-98 | a quadratic section and two past samples are a concrete input at which it is not |
| Evolution.UnanchoredPasses | src/engine/trajectorizer_engine.cpp:122-133 | the object returned for an unanchored grid passes the assertion if and only if the tolerance is positive; its provenance flag is false |
| Evolution.EvolutionIdentity | docs/math_contract.md:94-118 | under the exact jet condition and the recovery conditions all six carriers are one polynomial on grids of any length, and every positive tolerance accepts |
| AnchorPipeline.RunAnchor | src/engine/pipeline.cpp:821-912 | all stages from bars 0..t to the verdict: events, boundaries, extraction, jet, section, samples, recurrence, past samples, carriers, check and gate |
| AnchorPipeline.AnchorCausal | src/engine/pipeline.cpp:821-912 | causality of the whole anchor: two runs on bars that agree up to the anchor leave the same artifacts and the same verdict |
| AnchorPipeline.ConstructionClauses | src/engine/pipeline.cpp:703-751 | for every run: the clauses about how the artifacts were built depend on the radius and the tolerance alone |
| AnchorPipeline.EventClausesExactly | docs/strict_patch_ledger.md:161 | for every run: when each event clause is reported; a synthetic boundary can silence the first but never the genuine-dynamics clause |
| AnchorPipeline.RegimeExactly | src/engine/pipeline.cpp:781-795 | the regime of a run is rejected if and only if a clause is listed, and otherwise closed if and only if the carriers are |
| AnchorPipeline.AnchorSectorSound | src/engine/pipeline.cpp:821-900 | sector soundness for every anchor the pipeline builds, whatever the bars: the certificate's promises hold at each horizon it reaches |
| AnchorPipeline.AnchorMatches | src/engine/pipeline.cpp:847-864 | an anchor jet meets the condition of the evolution identity if and only if its other channels cancel |
| AnchorPipeline.AnchorCertified | src/engine/pipeline.cpp:821-912 | end to end: when the other channels cancel and the samples are recoverable, the engine does not fail, all six carriers are one polynomial on the whole grid, the check passes, the certificate reaches its structural caps, and the closure is verified exactly when those allow one horizon |
| Sector.PacketCap | src/engine/pipeline.cpp:320-327 | the cap before the first positive onset, H when there is none |
| Sector.PacketCapExact | src/engine/pipeline.cpp:320-327 | for whole onsets a horizon is within the cap if and only if no packet is active there |
| Sector.ResidualCap | src/engine/pipeline.cpp:364-403 | the end of the longest passing prefix up to the size and horizon bound; -1 when a required carrier is missing |
| Sector.BuildSector | src/engine/pipeline.cpp:453-479 | the caps, their minimum, the count, the fraction in [0, 1] and the verified flag |
| Sector.SectorSound | src/engine/pipeline.cpp:453-479 | at every horizon of the sector all required pairs agree within tolerance, no packet is active and the full section is the smooth one |
| Sector.SummarizeResiduals | src/engine/pipeline.cpp:405-451 | the largest gap per pair over the sector, zero closing gaps in an open regime, the first entry and infinite closing gaps when only the closing carriers are short, all infinite when data is short |
| Authority.NormalizationResidual | src/engine/pipeline.cpp:43-68 | the largest defect of the normalization identity over the simplex, infinite for incomparable shapes |
| Authority.CarrierResidual | src/engine/pipeline.cpp:147-160 | the largest gap between the samples and the smooth section, infinite without samples |
| Authority.ValidateAnchor | src/engine/pipeline.cpp:609-819 | the clause list holds exactly the reported clauses in the order they are tested, without repeats; certificate and residuals are those of the artifacts; of the readiness conjunction only three flags matter once no clause is listed |
| Authority.VerdictOnce | src/engine/pipeline.cpp:609-819 | artifacts, configuration, flags and the two estimates determine the verdict |
| Authority.SectorClausesExactly | src/engine/pipeline.cpp:723-769 | in every verdict: an equality clause is listed if and only if no horizon is certified, a closure clause if and only if moreover the regime is closed, so a verified sector lists none; the closure is verified if and only if it is closed and a horizon is certified |
| Authority.RegimeSound | src/engine/pipeline.cpp:779-795 | a verdict other than rejection certifies at least two horizons, at each of which all required carriers agree |
| Authority.UnanchoredFailsClosed | src/engine/trajectorizer_engine.cpp:122-133 | the object for an unanchored grid passes the evolution check, but the gate reports its provenance clauses and rejects it |
| Sector.ResidualsExactly | src/engine/pipeline.cpp:405-479 | the residuals are below tolerance if and only if one horizon is certified |
| Authority.NeverProductionReady | src/engine/pipeline.cpp:614-817 | no verdict on any artifacts is production ready |
| ChangeGate.CountersMean | src/engine/extraction_engine.cpp:243-254 | the hit counter is the length of the run of large transitions since the last change point |
| ChangeGate.ChangePointExactly | src/engine/extraction_engine.cpp:243-254 | a bar becomes a change point if and only if that run reached the persistence and the separation has passed |
| ChangeGate.RunProperties | src/engine/extraction_engine.cpp:243-254 | in every run change points increase, are spaced by separation and persistence, and each ends a full run |
| ChangeGate.PrefixPoints | src/engine/extraction_engine.cpp:243-254 | the points found on a prefix are those of the whole run lying in it |
| Windows.MeanPrev | src/engine/extraction_engine.cpp:22-31 | the mean of the window strictly before i |
| Windows.StdPrev | src/engine/extraction_engine.cpp:33-45 | its population deviation, zero for fewer than two entries |
| Windows.NormalizedDeviation | src/engine/extraction_engine.cpp:47-52 | the deviation of entry i in those units, zero for a flat window |
| Windows.MedianPrev | src/engine/extraction_engine.cpp:54-69 | the median of the window through order statistics |
| Windows.MadPrev | src/engine/extraction_engine.cpp:71-83 | the median absolute deviation, at least 1e-9, one before bar two |
| Windows.SortedKeeps | src/engine/extraction_engine.cpp:63-67 | the order statistics come from an ascending rearrangement |
| Sectorizer.DerivedChannels | src/data/feature_map.cpp:33-73 | returns, ranges, bodies, gaps, wick asymmetry and volume shocks of every bar |
| Sectorizer.EventComponents | src/engine/extraction_engine.cpp:150-213 | the eight event components of a bar |
| Sectorizer.PacketVector | src/engine/extraction_engine.cpp:215-230 | each component over its own recent spread, capped at twenty and weighted |
| Sectorizer.BuildEventPackets | src/engine/extraction_engine.cpp:107-260 | packets, scores, distances and change points of the whole run |
| Sectorizer.SectorizerCausal | src/engine/extraction_engine.cpp:107-260 | on every prefix of the bars the run yields exactly the prefix of packets, scores and distances, and the change points lying in it |
| Sectorizer.SectorizerSpacing | src/engine/extraction_engine.cpp:243-254 | change points of every run are increasing, spaced, and each ends a persistent run |
| JsonScanner.Cursor.SkipWs | src/api/json_io.cpp:39-45 | moves past whitespace and commas |
| JsonScanner.Cursor.Peek | src/api/json_io.cpp:46 | moves past blanks and tells whether the next character is c |
| JsonScanner.Cursor.Eat | src/api/json_io.cpp:47 | moves past blanks and past c if it comes next |
| JsonScanner.Cursor.ReadString | src/api/json_io.cpp:51-77 | on any text: the unescaped literal and the position after it, or failure |
| JsonScanner.Cursor.SkipValue | src/api/json_io.cpp:80-103 | on any text: moves to what the value function leaves |
| JsonScanner.Cursor.ToMember | src/api/json_io.cpp:121-145 | moves to the value of the first member with the key, or fails |
| JsonScanner.SplitKey | src/api/json_io.cpp:112-117 | the parts of a dotted key |
| JsonScanner.FindKey | src/api/json_io.cpp:108-148 | the slice of the text that the search on the split path determines |
| JsonScanner.EscapeJson | src/api/artifact_writer.cpp:13-27 | appends the escape of every character |
| JsonText.EscapeRoundTrip | src/api/artifact_writer.cpp:13-27 | an escaped string is a literal body the scanner takes, and unescaping it gives the string back |
| JsonText.EscapeStandardExactly | src/api/artifact_writer.cpp:13-27 | the escaped string is a literal body of section 7 of RFC 8259 if and only if the string holds no control character but newline, carriage return and tab |
| JsonText.ControlCharacterEscapes | src/api/artifact_writer.cpp:13-27 | the one-character string U+0001 is written raw, which section 7 forbids |
| JsonText.ReadStandardExactly | src/api/json_io.cpp:51-77 | the scanner reads a literal of section 7 as it is meant, code unit by code unit, if and only if the literal holds no unicode escape |
| JsonText.ReadInvertsEscape | src/api/json_io.cpp:51-77 | reading inverts escaping for every string, any leading whitespace and any following text |
| JsonText.SkimValue | src/api/json_io.cpp:85-100 | inside a container a whole nested value leaves the bracket count unchanged, whichever bracket kind is counted |
| JsonText.SkipStopsAtEnd | src/api/json_io.cpp:80-103 | skipping stops exactly at the end of any well-formed value (section 2 of RFC 8259) |
| JsonText.FindMemberExact | src/api/json_io.cpp:121-145 | the member loop finds exactly the first member whose key the scanner reads as the part, or nothing |
| JsonText.FindExact | src/api/json_io.cpp:108-148 | on any well-formed document, with keys read the scanner's way, the search returns exactly the text of the value the path leads to, and nothing when there is none |
| JsonText.FindStandard | src/api/json_io.cpp:108-148 | with keys of section 7 free of unicode escapes it is the value that the RFC's reading of the keys assigns to the path |
| JsonText.UnicodeKeyMissed | src/api/json_io.cpp:108-148 | in an object whose only key writes the letter a as a unicode escape the path a finds nothing |
| JsonText.SplitDotted | src/api/json_io.cpp:112-117 | dot-free keys joined by dots split back into them |
| JsonScanner.FindKeyExact | src/api/json_io.cpp:108-148 | the same as FindExact for a dotted path of dot-free keys |
| JsonScanner.FindKeyStandard | src/api/json_io.cpp:108-148 | the same as FindStandard for a dotted path of dot-free keys |
| Candles.ValidateCandles | src/data/canonicalizer.cpp:11-19 | accepts exactly the valid candles and otherwise names the first violation |
| Candles.MergeMeaning | src/data/resampler.cpp:13-23 | a merged group has the first open and time, the last close, the extremes and the summed volume |
| Candles.Resample | src/data/resampler.cpp:6-27 | consecutive groups merged, ragged last group included; unchanged for factors up to one |
| Candles.ResampledSize | src/data/resampler.cpp:9 | the number of groups is the rounded-up quotient |
| Candles.ResampleComposes | src/data/resampler.cpp:6-27 | resampling by a and then b is resampling by a b, for all a, b >= 1 and any length |
| Candles.VolumeConserved | src/data/resampler.cpp:17-23 | total volume is conserved |
| Candles.ResampleKeepsValid | src/data/canonicalizer.cpp:11-19 | every invariant of the validator survives resampling |
| Simulator.ProcessSignals | src/backtest/simulator.cpp:41-63 | the loop takes up every due signal in order |
| Simulator.RunBacktest | src/backtest/simulator.cpp:17-72 | curve, profit, drawdown, fills and orders of the whole run |
| Simulator.SignalsInOrder | src/backtest/simulator.cpp:40-63 | signals are taken up at most once and in order, never before they are due, and none that is due is left |
| Simulator.FillsAreLater | src/backtest/simulator.cpp:40-50 | with increasing times and a lag of one or more every fill is dated after its signal |
| Simulator.EquityLedger | src/backtest/simulator.cpp:36-62 | bar equity is start less fees plus the marked profit of all earlier fills plus the money flow up to the last flattening |
| Simulator.TextbookEquityExactly | src/backtest/simulator.cpp:54-59 | the textbook identity holds if and only if that money flow is zero, so always until a fill flattens the position |
| Simulator.FlatteningForgetsProfit | src/backtest/simulator.cpp:36-62 | a run on three valid bars with two signals: bar equity is 100 after a round trip that gained 50, where the textbook value is 150 |
| Simulator.DrawdownMeaning | src/backtest/simulator.cpp:65-69 | the drawdown is relative to the running peak: under a positive peak never positive, zero exactly at the peak; zero under any other peak, for any starting equity |
| WalkForward.UpdateAll | src/backtest/walk_forward.cpp:446-481 | one retained anchor is added to exactly the strata it belongs to |
| WalkForward.RunAnchors | src/backtest/walk_forward.cpp:399-486 | a window's table tallies its retained anchors in every stratum; the counters follow the outcomes |
| WalkForward.RunWalkForward | src/backtest/walk_forward.cpp:353-539 | window k trains to train_min + k step and tests inside the data, until the next window does not fit or the maximum is reached; tables, clause rows, aggregate and counters are those of the visited anchors, and retained plus rejected anchors are the visited ones |
| WalkForward.Aggregate | src/backtest/walk_forward.cpp:262-349 | the aggregate tallies all retained anchors of all windows in every stratum, clauses included |
| WalkForward.RunAccounted | src/backtest/walk_forward.cpp:353-539 | for the whole run: the anchors in the aggregate of all plus the rejected ones are the visited ones, and the retained ones are the authoritative plus, in a research run, the others |
| WalkForward.StrataSumToAll | src/backtest/walk_forward.cpp:451-478 | in every window and in the aggregate each stratification sums to `all`, for anchors and signals |
| WalkForward.ClauseRows | src/backtest/walk_forward.cpp:513-521 | one row for each clause the table holds, with its tally |
| WalkForward.ClausesSumToAll | src/backtest/walk_forward.cpp:480-521 | the rows of the clause report sum to `all` |
| WalkForward.WindowCausal | src/backtest/walk_forward.cpp:399-402 | the anchors kept in a window depend on no bar at or after its end |
| WalkForward.NeverReadyKeepsNothing | src/backtest/walk_forward.cpp:403-410 | a run whose anchors carry verdicts of the gate retains none without the research flag and rejects them all |

## Left out

- Floating-point rounding, NaN and the edge cases of the library power function: arithmetic is exact.
- Durand-Kerner root finding (src/math/complex_roots.cpp) and least-squares residues (src/math/residues.cpp): numerical convergence; exact roots are an assumption where they matter.
- `estimate_smooth_radius` and `recurrence_condition_proxy` (src/engine/pipeline.cpp:294-310 and 329-353): heuristics with n-th roots and moduli; their values are arguments of the certificate, whose soundness does not depend on them.
- The interstice transport, price readout and PDE residual grids (src/math/interstice.cpp): real powers, sine and exponential.
- The logarithms that turn candles into market state (src/data/feature_map.cpp:9-26): the five channels are arbitrary reals.
- Sectorizer.DerivedChannels: does not model `vol_proxy` and the two separate wick channels, because nothing in the sectorizer reads them.
- The four channels of jump samples that `build_past_jet_state_cpu` computes and discards.
- Evolution.ComputeEvolution: does not model fractional or negative horizons, because the pipeline only builds whole ones from zero up.
- Simulator.RunBacktest: does not model a zero open, because the quantity is then an infinite or undefined floating-point number.
- Simulator.ProcessSignals: does not model a zero open either, for the same reason.
- Sector.BuildSector: the radius estimate and the condition number are arguments, because they are heuristics with n-th roots and moduli.
- AnchorPipeline.RunAnchor: does not model the transported trajectory and the risk layer, because they are numerical transport; the four clauses about them come in as flags.
- Authority.ValidateAnchor: the start-up self tests come in as flags, because their tolerances are about rounding; the laws they sample are `PhaseTorus.PolynomialExtraction` and `JetOperators.ProjectedRoundTrip`.
- Reading and writing files, and the number conversions `read_real`, `read_int` and `read_bool` after a key has been found.
- `canonicalize` (src/data/canonicalizer.cpp:21-46): its unstable sort does not decide which duplicate wins.
- WalkForward.RunWalkForward: does not model metrics, fidelity averages, the replay of the signal lists and the order of report rows, because they are averages and formatting around the modelled counts; only the engine may fail.
- Order fields other than time, side and quantity, which the simulator never sets.
- CUDA stubs, the command line, configuration loading, artifact and report formatting, ring buffers, calendar helpers and order validation: nothing but easy members.
