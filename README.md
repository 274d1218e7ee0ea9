# Complex linear algebra and Taylor-series time evolution, in Dafny

This project models a small dense complex linear-algebra kernel and the quantum
simulator built on it:

- `ComplexNumber`, an immutable pair (re, im);
- `ComplexVector`, a class over a fixed-length array;
- `ComplexMatrix`, a class over a fixed-shape two-dimensional array;
- the static `QuantumSimulator` routines.

`TimeEvolve` approximates the propagator exp(−i·H·t/ħ) by the truncated series
Σ_{k=0}^{steps} M^k/k! with M = H·(i·(−t/ħ)) and applies it to a state. The other
routines compute expectation values, measurement probabilities, and the commutator and
anticommutator of two operators.

Scalars are Dafny `real`s, so every law is stated and proved exactly. Each C# exception
the core throws becomes a `Failure` of the `Result` type in `outcomes.dfy`:

| exception | `Error` |
|---|---|
| `ArgumentOutOfRangeException` | `NonPositiveSize` |
| `ArgumentNullException` | `NullOrEmpty` |
| `ArgumentException` | `DimensionMismatch` |
| `DivideByZeroException` | `DivideByZero` |

Layout, one module per file:

- `numbers.dfy` (`Numbers`): the `ComplexNumber` operators and their algebraic laws.
- `vector_spec.dfy` (`VectorSpec`) and `matrix_spec.dfy` (`MatrixSpec`): the value
  meaning of vectors (`seq<Complex>`) and matrices (`seq<seq<Complex>>`), with their
  laws.
- `linear_algebra.dfy` (`LinearAlgebra`): the classes.
  - `ComplexVector` keeps `const elements: array<Complex>`.
  - `ComplexMatrix` keeps `const elements: array2<Complex>`.
  - Every loop is proved against the value definitions through `Elements()` and
    `Entries()`.
- `evolution_spec.dfy` (`EvolutionSpec`): generator, powers, factorials, the partial
  series, the evolved state and the two brackets, all as values.
- `measurement_spec.dfy` (`MeasurementSpec`): probability and the two readings of the
  expectation value.
- `quantum_simulator.dfy` (`QuantumSimulator`): the simulator routines, proved against
  `EvolutionSpec` and `MeasurementSpec`.
- `constants.dfy` (`Constants`): ħ = PlanckConstant / (2·π).

Two behaviours of the code are easy to misread:

- **The vector element constructor aliases its input.** A reader might expect a vector
  to own its storage. The element constructor instead adopts the caller's array
  (vectors.cs:19). `ComplexVector.FromElements` keeps that aliasing, so writes through
  either reference are seen by both. `ComplexMatrix` copies its input (matrix.cs:22).
- **`ExpectationValue` does not compute ⟨ψ|O|ψ⟩.** Its name promises that value, but
  the receiver is conjugated twice. See "## Findings".

## Model

| member | source | states |
|---|---|---|
| Numbers.Div | numbers.cs:20-25 | division fails exactly when the divisor is Zero, and the failure is DivideByZero |
| Numbers.Equals | numbers.cs:32 | equality holds iff both components are equal, with no tolerance |
| Numbers.Mul | numbers.cs:19 | on the real axis the complex product is the product of the reals, with no imaginary part |
| Numbers.NormSq | numbers.cs:14 | re²+im², the square of Magnitude, is never negative |
| Numbers.Quotient | numbers.cs:23-24 | the quotient formula multiplied back by its divisor gives the dividend |
| Numbers.Scale | numbers.cs:26 | a·s for a real s is the complex product a·(s, 0) |
| Numbers.ScaleLeft | numbers.cs:27 | s·a is the same number as a·s |
| Numbers.NormSqMultiplicative | numbers.cs:14-19 | ∣a·b∣² == ∣a∣²·∣b∣² |
| Numbers.ISquaredIsMinusOne | numbers.cs:38 | I·I == −One, so I is the imaginary unit |
| Numbers.MagnitudeZeroIffZero | numbers.cs:22 | the squared magnitude is 0 iff the number is Zero, so the guard `Magnitude == 0` is `b == Zero` |
| Numbers.NormSqPositive | numbers.cs:14 | a nonzero number has a positive squared magnitude |
| Numbers.DivThenMul | numbers.cs:20-25 | for b ≠ Zero, a / b succeeds and (a / b)·b == a |
| Numbers.DivSelf | numbers.cs:20-25 | a / a == One for every nonzero a |
| Numbers.AddCommutes | numbers.cs:17 | a + b == b + a |
| Numbers.SubUndoesAdd | numbers.cs:17-18 | (a + b) − b == a |
| Numbers.ZeroIsAdditiveIdentity | numbers.cs:36 | Zero is a two-sided identity of + |
| Numbers.MulCommutes | numbers.cs:19 | a·b == b·a |
| Numbers.OneIsMultiplicativeIdentity | numbers.cs:37 | One is a two-sided identity of · |
| Numbers.MulAssociates | numbers.cs:19 | (a·b)·c == a·(b·c) |
| Numbers.MulDistributesOverAdd | numbers.cs:17-19 | (a + b)·c == a·c + b·c |
| Numbers.ZeroAnnihilates | numbers.cs:19 | a·Zero == Zero·a == Zero |
| Numbers.ConjugateInvolution | numbers.cs:29 | conj(conj(a)) == a |
| Numbers.ConjugateOfProduct | numbers.cs:29 | conj(a·b) == conj(a)·conj(b) |
| Numbers.ConjugateOfSum | numbers.cs:29 | conj(a + b) == conj(a) + conj(b) |
| Numbers.ConjugateProductIsNormSq | numbers.cs:14-29 | a·conj(a) is the real number re²+im², the square of Magnitude |
| VectorSpec.SumNormSq | vectors.cs:31 | Σ∣eᵢ∣², the quantity Normalize computes, is never negative |
| VectorSpec.InnerProduct | vectors.cs:89-98 | Σ conj(u[i])·v[i] equals the sum with each product's factors swapped; its inner-product laws are InnerProductConjugateSymmetric, InnerProductLinearRight and InnerProductConjugateLinearLeft |
| VectorSpec.ConjInvolution | vectors.cs:40-48 | conjugating every element twice gives the vector back |
| VectorSpec.VSubUndoesVAdd | vectors.cs:51-72 | (u + v) − v == u element-wise |
| VectorSpec.VAddCommutes | vectors.cs:51-60 | u + v == v + u |
| VectorSpec.VScaleByOne | vectors.cs:75-83 | v·One == v |
| VectorSpec.ConjOfScale | vectors.cs:75-83 | conj(v·c) == conj(v)·conj(c) |
| VectorSpec.InnerToCommutes | vectors.cs:89-98 | the accumulated Σ u[i]·v[i] is symmetric in u and v |
| VectorSpec.ConjugateOfInnerTo | vectors.cs:89-98 | the conjugate of the sum is the sum of the conjugated factors |
| VectorSpec.InnerToScaleRight | vectors.cs:89-98 | scaling the right factors by c scales the sum by c |
| VectorSpec.InnerToScaleLeft | vectors.cs:89-98 | scaling the left factors by c scales the sum by c from the left |
| VectorSpec.InnerProductConjugateSymmetric | vectors.cs:89-98 | Dot(u, v) == conj(Dot(v, u)) |
| VectorSpec.InnerProductLinearRight | vectors.cs:89-98 | Dot(u, v·c) == Dot(u, v)·c |
| VectorSpec.InnerProductConjugateLinearLeft | vectors.cs:89-98 | Dot(u·c, v) == conj(c)·Dot(u, v) |
| VectorSpec.InnerProductOfConj | vectors.cs:95 | Dot on an already conjugated receiver is Σ u[i]·v[i], with no conjugate left |
| VectorSpec.InnerToSelf | vectors.cs:89-98 | every prefix of Σ conj(v[i])·v[i] is the real Σ∣v[i]∣² over that prefix |
| VectorSpec.InnerProductSelf | vectors.cs:89-98 | Dot(v, v) is the real number Σ∣v[i]∣² |
| VectorSpec.SumNormSqOfZeros | vectors.cs:31-32 | the all-Zero vector has squared norm 0 |
| VectorSpec.SumNormSqPositive | vectors.cs:31-32 | one nonzero element makes the squared norm positive |
| VectorSpec.SumNormSqZeroOnlyForZeros | vectors.cs:31-32 | squared norm 0 forces every element to be Zero |
| VectorSpec.SumNormSqZeroIff | vectors.cs:31-32 | the early return of Normalize happens exactly on the all-Zero vector |
| VectorSpec.NormSqDivided | vectors.cs:36 | dividing a number by s divides its squared magnitude by s² |
| VectorSpec.SumNormSqDivided | vectors.cs:33-37 | dividing every element by s divides the squared norm by s² |
| VectorSpec.NormalizedIsUnit | vectors.cs:29-38 | dividing a nonzero vector by √Σ∣eᵢ∣² gives squared norm exactly 1 |
| MatrixSpec.ZeroMatrix | matrix.cs:11-16 | the rows×cols all-Zero matrix is rectangular of that shape |
| MatrixSpec.IdentityMatrix | matrix.cs:141-149 | the n×n matrix with One on the diagonal and Zero elsewhere is square of size n |
| MatrixSpec.MSubUndoesMAdd | matrix.cs:43-70 | (A + B) − B == A |
| MatrixSpec.MAddCommutes | matrix.cs:43-55 | A + B == B + A |
| MatrixSpec.MAddZero | matrix.cs:43-55 | adding the zero matrix of A's shape leaves A |
| MatrixSpec.MScaleByOne | matrix.cs:110-121 | A·One == A |
| MatrixSpec.MScaleByZero | matrix.cs:110-121 | A·Zero is the zero matrix of A's shape |
| MatrixSpec.MScaleOfZero | matrix.cs:110-121 | the zero matrix scaled by any c stays zero |
| MatrixSpec.InnerToUnit | matrix.cs:81-86 | a running sum against the p-th unit vector picks out u[p] once p is passed |
| MatrixSpec.InnerToZeros | matrix.cs:81-86 | a running sum against the zero vector is Zero |
| MatrixSpec.MMulIdentityRight | matrix.cs:73-90 | A·Identity == A |
| MatrixSpec.MMulIdentityLeft | matrix.cs:73-90 | Identity·A == A |
| MatrixSpec.MMulZeroRight | matrix.cs:73-90 | A·0 == 0 |
| MatrixSpec.MApplyIdentity | matrix.cs:93-107 | Identity·v == v |
| MatrixSpec.ConjTransposeInvolution | matrix.cs:127-138 | (Aᴴ)ᴴ == A |
| MatrixSpec.ConjTransposeOfProduct | matrix.cs:127-138 | (A·B)ᴴ == Bᴴ·Aᴴ |
| MatrixSpec.OuterConjTranspose | vectors.cs:101-112 | the conjugate transpose of ∣u⟩⟨v∣ is ∣v⟩⟨u∣ |
| MatrixSpec.OuterApplied | vectors.cs:101-112 | (∣u⟩⟨v∣)·w == u·Dot(v, w) |
| LinearAlgebra.ComplexVector.OfDimension | vectors.cs:10-14 | a valid vector of the given dimension with every element Zero, in fresh storage |
| LinearAlgebra.ComplexVector.Wrap | vectors.cs:16-20 | the vector adopts the given array itself |
| LinearAlgebra.ComplexVector.New | vectors.cs:10-14 | fails with NonPositiveSize iff dimension ≤ 0; otherwise all Zero of that dimension |
| LinearAlgebra.ComplexVector.FromElements | vectors.cs:16-20 | fails with NullOrEmpty iff the array is null or empty; otherwise the vector's storage is the caller's array |
| LinearAlgebra.ComplexVector.Get | vectors.cs:24 | returns the element at the index |
| LinearAlgebra.ComplexVector.Set | vectors.cs:25 | exactly the indexed element changes, to the value |
| LinearAlgebra.ComplexVector.Normalize | vectors.cs:29-38 | an all-Zero vector is unchanged; otherwise every element is divided by √Σ∣eᵢ∣² and the squared norm becomes 1 |
| LinearAlgebra.ComplexVector.ConjugateTranspose | vectors.cs:40-48 | a fresh vector holding conj of every element; the receiver is not written |
| LinearAlgebra.ComplexVector.Plus | vectors.cs:51-60 | fails with DimensionMismatch iff the dimensions differ; otherwise the element-wise sum, fresh |
| LinearAlgebra.ComplexVector.Minus | vectors.cs:63-72 | fails with DimensionMismatch iff the dimensions differ; otherwise the element-wise difference, fresh |
| LinearAlgebra.ComplexVector.Scaled | vectors.cs:75-83 | a fresh vector with v[i]·scalar at every index |
| LinearAlgebra.ComplexVector.ScaledLeft | vectors.cs:85 | scalar·v is the same vector as v·scalar |
| LinearAlgebra.ComplexVector.Dot | vectors.cs:89-98 | fails with DimensionMismatch iff the dimensions differ; otherwise Σ conj(this[i])·other[i] |
| LinearAlgebra.ComplexVector.OuterProduct | vectors.cs:101-112 | a fresh Dimension × other.Dimension matrix with entry (i, j) = this[i]·conj(other[j]) |
| LinearAlgebra.ComplexVector.Equals | vectors.cs:116-124 | true iff the other vector is non-null with the same elements, hence the same dimension |
| LinearAlgebra.ComplexMatrix.Zeros | matrix.cs:11-16 | a valid rows×columns all-Zero matrix in fresh storage |
| LinearAlgebra.ComplexMatrix.CopyOf | matrix.cs:18-23 | the entries of the source, held in fresh storage |
| LinearAlgebra.ComplexMatrix.InitializeWithZeros | matrix.cs:31-40 | afterwards every cell is Zero |
| LinearAlgebra.ComplexMatrix.Create | matrix.cs:11-16 | fails with NonPositiveSize iff a size is ≤ 0; otherwise the all-Zero matrix of that shape |
| LinearAlgebra.ComplexMatrix.FromArray | matrix.cs:18-23 | fails with NullOrEmpty iff the grid is null or has an empty side; otherwise equal entries in fresh storage, so later writes to the grid do not reach the matrix |
| LinearAlgebra.ComplexMatrix.Get | matrix.cs:27 | returns the entry at (row, col) |
| LinearAlgebra.ComplexMatrix.Set | matrix.cs:28 | exactly the cell (row, col) changes, to the value |
| LinearAlgebra.ComplexMatrix.Plus | matrix.cs:43-55 | fails with DimensionMismatch iff the shapes differ; otherwise the entry-wise sum, fresh |
| LinearAlgebra.ComplexMatrix.Minus | matrix.cs:58-70 | fails with DimensionMismatch iff the shapes differ; otherwise the entry-wise difference, fresh |
| LinearAlgebra.ComplexMatrix.Times | matrix.cs:73-90 | fails with DimensionMismatch iff a.Columns ≠ b.Rows; otherwise a fresh a.Rows × b.Columns matrix with entry (i, j) = Σ_k a[i,k]·b[k,j] |
| LinearAlgebra.ComplexMatrix.FillProductRow | matrix.cs:79-87 | row i of the result gets the row-by-column sums; every other row is unchanged |
| LinearAlgebra.ComplexMatrix.RowTimesColumn | matrix.cs:81-85 | the accumulated sum is Σ_k a[i,k]·b[k,j] |
| LinearAlgebra.ComplexMatrix.Apply | matrix.cs:93-107 | fails with DimensionMismatch iff Columns ≠ Dimension; otherwise a fresh vector with entry i = Σ_j m[i,j]·v[j] |
| LinearAlgebra.ComplexMatrix.Scaled | matrix.cs:110-121 | a fresh matrix with every entry multiplied by the scalar |
| LinearAlgebra.ComplexMatrix.ScaledLeft | matrix.cs:123 | scalar·A is the same matrix as A·scalar |
| LinearAlgebra.ComplexMatrix.ConjugateTranspose | matrix.cs:127-138 | a fresh Columns × Rows matrix with entry (j, i) = conj(this[i, j]) |
| LinearAlgebra.ComplexMatrix.Identity | matrix.cs:141-149 | fails with NonPositiveSize iff dimension ≤ 0; otherwise One on the diagonal and Zero elsewhere |
| LinearAlgebra.ComplexMatrix.Clone | matrix.cs:152-155 | equal entries in fresh, independent storage |
| EvolutionSpec.Generator | quantumsimulator.cs:11 | H·(i·(−time/ħ)) is square and of H's size |
| EvolutionSpec.Power | quantumsimulator.cs:13-17 | M^k is square and of M's size |
| EvolutionSpec.PowerOfOne | quantumsimulator.cs:13-17 | after the first pass `M_power` is M itself |
| EvolutionSpec.Coefficient | quantumsimulator.cs:19 | 1/k! is real, lies in (0, 1], and gives 1 when multiplied by k! |
| EvolutionSpec.Series | quantumsimulator.cs:12-19 | every partial sum is square and of M's size |
| EvolutionSpec.SeriesOfOne | quantumsimulator.cs:12-19 | one pass of the loop gives the first-order approximation I + M |
| EvolutionSpec.EvolvedBySeries | quantumsimulator.cs:21 | the evolved state is the summed series applied to the initial state |
| EvolutionSpec.Factorial | quantumsimulator.cs:14-18 | the factorial accumulated by `factorial *= k` is never below 1, so 1/k! is always defined |
| EvolutionSpec.FactorialStep | quantumsimulator.cs:18 | (k−1)!·k == k! |
| EvolutionSpec.PowerStep | quantumsimulator.cs:17 | M^k == M^(k−1)·M, multiplied on the right as the loop does |
| EvolutionSpec.SeriesStep | quantumsimulator.cs:19 | the k-th partial sum is the (k−1)-th plus M^k·(1/k!) |
| EvolutionSpec.Evolved | quantumsimulator.cs:21 | the evolved state has the dimension of the initial state |
| EvolutionSpec.PowerOfZero | quantumsimulator.cs:17 | every positive power of the zero matrix is zero |
| EvolutionSpec.SeriesOfZero | quantumsimulator.cs:15-20 | for the zero generator every partial sum is the identity |
| EvolutionSpec.GeneratorAtTimeZero | quantumsimulator.cs:11 | at time 0 the generator is the zero matrix |
| EvolutionSpec.GeneratorOfZeroHamiltonian | quantumsimulator.cs:11 | a zero Hamiltonian gives the zero generator at every time |
| EvolutionSpec.EvolvedWithoutSteps | quantumsimulator.cs:12-21 | with steps ≤ 0 the returned state equals the initial state |
| EvolutionSpec.EvolvedAtTimeZero | quantumsimulator.cs:11-21 | at time 0 the returned state equals the initial state |
| EvolutionSpec.EvolvedUnderZeroHamiltonian | quantumsimulator.cs:11-21 | under a zero Hamiltonian the returned state equals the initial state |
| EvolutionSpec.Commutator | quantumsimulator.cs:57 | A·B − B·A is square and of A's size |
| EvolutionSpec.AntiCommutator | quantumsimulator.cs:65 | A·B + B·A is square and of A's size |
| EvolutionSpec.CommutatorPlusAntiCommutator | quantumsimulator.cs:51-66 | [A, B] + {A, B} == 2·(A·B) |
| EvolutionSpec.CommutatorWithSelf | quantumsimulator.cs:57 | [A, A] is the zero matrix |
| EvolutionSpec.AntiCommutatorSymmetric | quantumsimulator.cs:65 | {A, B} == {B, A} |
| MeasurementSpec.Probability | quantumsimulator.cs:44-45 | ∣Dot(u, v)∣² is never negative |
| MeasurementSpec.ExpectationAsWritten | quantumsimulator.cs:36 | the code's sum is Dot applied to the already conjugated state, i.e. the inner product of conj(ψ) with Oψ |
| MeasurementSpec.Expectation | quantumsimulator.cs:36 | ⟨ψ∣O∣ψ⟩ is the conjugate of ⟨Oψ∣ψ⟩ |
| MeasurementSpec.ProbabilitySymmetric | quantumsimulator.cs:44-45 | the probability of u in v equals that of v in u |
| MeasurementSpec.ProbabilityOfNormalizedSelf | quantumsimulator.cs:44-45 | a state of squared norm 1 is found in itself with probability 1 |
| MeasurementSpec.ProbabilityOfZeros | quantumsimulator.cs:44-45 | measuring the zero vector has probability 0 |
| MeasurementSpec.InnerToZerosLeft | vectors.cs:92-96 | a running sum with an all-Zero left factor is Zero |
| MeasurementSpec.ExpectationOfIdentity | quantumsimulator.cs:35-36 | with one conjugation, the identity observable has expectation Σ∣ψᵢ∣² |
| MeasurementSpec.ExpectationsAgreeOnRealStates | quantumsimulator.cs:36 | on a state with real amplitudes the doubly conjugated sum equals ⟨ψ∣O∣ψ⟩ |
| MeasurementSpec.DoubleConjugationCounterexample | quantumsimulator.cs:36 | for ψ = (i) and O = (1) the code's sum is −1 while ⟨ψ∣O∣ψ⟩ is 1 |
| MeasurementSpec.AsWrittenOnI | quantumsimulator.cs:36 | for ψ = (i) and O = (1) the code's sum is −1 |
| MeasurementSpec.ExpectationOnI | quantumsimulator.cs:36 | for ψ = (i) and O = (1) ⟨ψ∣O∣ψ⟩ is 1 |
| QuantumSimulator.TimeEvolve | quantumsimulator.cs:5-22 | fails with DimensionMismatch iff H is not square or not the state's size; otherwise a fresh vector of the state's dimension equal to (Σ_{k≤steps} M^k/k!)·state; the loop keeps 1 ≤ k ≤ Terms(steps) + 1, so it makes max(steps, 0) passes |
| QuantumSimulator.AddSeriesTerm | quantumsimulator.cs:15-20 | one loop pass takes M^(k−1), (k−1)! and the (k−1)-th partial sum to M^k, k! and the k-th partial sum |
| QuantumSimulator.TimeEvolveEigen | quantumsimulator.cs:23-28 | the same failures and result as TimeEvolve with 100 steps |
| QuantumSimulator.ExpectationValue | quantumsimulator.cs:29-37 | fails with DimensionMismatch iff O is not square or not the state's size; otherwise Σ ψ[i]·(Oψ)[i], with the conjugate cancelled |
| QuantumSimulator.ExpectationValueCorrected | quantumsimulator.cs:29-37 | the same failures; otherwise ⟨ψ∣O∣ψ⟩ = Σ conj(ψ[i])·(Oψ)[i] |
| QuantumSimulator.ProbabilityOfMeasuringState | quantumsimulator.cs:38-46 | fails with DimensionMismatch iff the dimensions differ; otherwise ∣Dot(measured, initial)∣² |
| QuantumSimulator.NormalizeState | quantumsimulator.cs:47-50 | the state is normalised in place exactly as ComplexVector.Normalize does |
| QuantumSimulator.Commutator | quantumsimulator.cs:51-58 | fails with DimensionMismatch unless both are square of one size; otherwise a fresh matrix equal to A·B − B·A |
| QuantumSimulator.AntiCommutator | quantumsimulator.cs:59-66 | fails with DimensionMismatch unless both are square of one size; otherwise a fresh matrix equal to A·B + B·A |

## Left out

- Floating point: `double` is modelled as `real`. Rounding, signed zero, overflow, NaN
  and the truncation error of the series are not modelled. Every law above holds
  exactly.
- `Magnitude` uses `Math.Sqrt` and `Phase` uses `Math.Atan2`, so neither is modelled
  as such. The code only compares Magnitude with 0 (numbers.cs:22) or squares it
  (vectors.cs:31, quantumsimulator.cs:45). The model uses re² + im² in all three
  places.
- ComplexVector.Normalize: `Math.Sqrt` is a parameter `sqrt` that is required to map
  positive reals to positive reals whose square is the argument.
- Missing C# operators. Two operations the source relies on have no matching operator
  in numbers.cs or matrix.cs:
  - `ComplexNumber / double` in Normalize (vectors.cs:36) is modelled as component-wise
    division by the real.
  - `ComplexMatrix * double` in TimeEvolve (quantumsimulator.cs:19) is modelled as
    scaling by the complex number (1/k!, 0).
- Indexers: an out-of-range index throws `IndexOutOfRangeException` in C#. The model
  makes the range a precondition of Get and Set instead.
- Numbers.Equals and ComplexVector.Equals take a `Complex` and a `ComplexVector?`
  rather than an arbitrary `object` (numbers.cs:32, vectors.cs:116). An argument of
  another type, which C# answers with false, is not modelled.
- Constants: only PlanckConstant, π and ħ are kept. ElectronMass, ElementaryCharge,
  SpeedOfLight, BoltzmannConstant, VacuumPermittivity, VacuumPermeability and
  JoulesPerElectronVolt are read by nothing in the core.
- Console output is not modelled: the two messages of TimeEvolveEigen and the one of
  SolveEigenvalueProblem.
- SolveEigenvalueProblem is not modelled. Its live code only returns an absent
  (null, null) pair, and its body is a commented-out call into an external library.
- `ToString` and `GetHashCode` (presentation and hashing) are not modelled.
- QuantumSimulator.TimeEvolve: C#'s 32-bit `int` is not modelled. With
  `steps == int.MaxValue` (2147483647), `k++` at quantumsimulator.cs:15 wraps to
  `int.MinValue` in C#'s default unchecked context. `k <= steps` then stays true, so
  the C# loop never ends. The model's counter is unbounded, so its loop stops after
  2147483647 passes and returns `Evolved(…, 2147483647)`.
- 32-bit sizes: dimensions, row and column counts and indices are C# `int`s. The model
  uses unbounded `int`/`nat` for them. .NET cannot allocate arrays whose length
  exceeds that range, so no reachable size is lost.
- Null operands: every C# member that dereferences an object argument throws
  `NullReferenceException` when it is null (for example `a.Dimension` at vectors.cs:53
  and `hamiltonian.Rows` at quantumsimulator.cs:7). The model's class-typed parameters
  are non-null, so that path is ruled out by the types rather than modelled as a
  failure. The members that handle null themselves take nullable types and model it:
  FromElements, FromArray and ComplexVector.Equals.
- Numbers.Mul: its own contract states only that real numbers multiply as reals. The
  field laws (commutativity, associativity, identity, distributivity, the absorbing
  Zero, ∣a·b∣² = ∣a∣²·∣b∣²) are separate lemmas. They are not contracts of Mul because
  every product in the project would then carry them into its proof.
- EvolutionSpec.Power, EvolutionSpec.Series, EvolutionSpec.Commutator,
  EvolutionSpec.AntiCommutator: their own contracts state only the shape of the result.
  Their values are stated by PowerStep, PowerOfOne, SeriesStep, SeriesOfOne,
  PowerOfZero, SeriesOfZero, CommutatorWithSelf, AntiCommutatorSymmetric and
  CommutatorPlusAntiCommutator.

## Findings

| source | as written | input that shows it | evidently intended | confidence | as-written member | corrected member |
|---|---|---|---|---|---|---|
| quantumsimulator.cs:36 | `state.ConjugateTranspose().Dot(observable * state)` conjugates the state, and Dot conjugates its receiver again (vectors.cs:95), so the result is Σ ψ[i]·(Oψ)[i] | ψ = (i), O = (1): the code gives −1, while ⟨ψ∣O∣ψ⟩ = 1 | ⟨ψ∣O∣ψ⟩ = `state.Dot(observable * state)` | high, by proof; not executed | QuantumSimulator.ExpectationValue, MeasurementSpec.DoubleConjugationCounterexample | QuantumSimulator.ExpectationValueCorrected |
