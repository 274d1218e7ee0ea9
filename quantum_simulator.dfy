/** The static QuantumSimulator routines: Taylor-series time evolution, expectation
    values, measurement probabilities, normalisation and the two brackets, each
    composed from the ComplexVector and ComplexMatrix operations. */
module QuantumSimulator {
  import opened Outcomes
  import opened Numbers
  import opened VectorSpec
  import opened MatrixSpec
  import opened LinearAlgebra
  import EvolutionSpec
  import MeasurementSpec
  import Constants

  /** Evolves `initialState` under `hamiltonian` for `time` by the truncated series
      Σ_{k=0}^{steps} M^k/k! with M = H·(i·(−time/ħ)). Fails unless the Hamiltonian is
      square and as wide as the state. */
  method TimeEvolve(initialState: ComplexVector, hamiltonian: ComplexMatrix, time: real, steps: int := 100)
    returns (r: Result<ComplexVector>)
    requires initialState.Valid() && hamiltonian.Valid()
    ensures r.Failure? <==>
      hamiltonian.Rows() != hamiltonian.Columns() || hamiltonian.Rows() != initialState.Dimension()
    ensures r.Failure? ==> r.error == DimensionMismatch
    ensures r.Success? ==> fresh(r.value) && fresh(r.value.elements) && r.value.Valid()
    ensures r.Success? ==> r.value.Dimension() == initialState.Dimension()
    ensures r.Success? ==>
      r.value.Elements() == EvolutionSpec.Evolved(initialState.Elements(), hamiltonian.Entries(), time, steps)
  {
    if hamiltonian.Rows() != hamiltonian.Columns() || hamiltonian.Rows() != initialState.Dimension() {
      return Failure(DimensionMismatch);
    }
    ghost var G := EvolutionSpec.Generator(hamiltonian.Entries(), time);
    var m := ComplexMatrix.Scaled(hamiltonian, Scale(I, -time / Constants.ReducedPlanckConstant));
    var identity := ComplexMatrix.Identity(hamiltonian.Rows());
    var u := identity.value;
    identity := ComplexMatrix.Identity(hamiltonian.Rows());
    var power := identity.value;
    var factorial := 1.0;
    var k := 1;
    while k <= steps
      invariant 1 <= k <= EvolutionSpec.Terms(steps) + 1
      invariant m.Valid() && u.Valid() && power.Valid()
      invariant m.Entries() == G
      invariant power.Entries() == EvolutionSpec.Power(G, k - 1)
      invariant factorial == EvolutionSpec.Factorial(k - 1)
      invariant u.Entries() == EvolutionSpec.Series(G, k - 1)
      decreases steps - k
    {
      power, u, factorial := AddSeriesTerm(m, power, u, factorial, k, G);
      k := k + 1;
    }
    assert k - 1 == EvolutionSpec.Terms(steps);
    r := ComplexMatrix.Apply(u, initialState);
    EvolutionSpec.EvolvedBySeries(initialState.Elements(), hamiltonian.Entries(), time, steps, u.Entries());
  }

  /** One pass of the TimeEvolve loop: power := power·M, factorial := factorial·k and
      U := U + power·(1/factorial), taking the k−1 partial sum to the k-th. */
  method AddSeriesTerm(m: ComplexMatrix, power: ComplexMatrix, u: ComplexMatrix, factorial: real, k: nat,
                       ghost G: Matrix)
    returns (power': ComplexMatrix, u': ComplexMatrix, factorial': real)
    requires k >= 1 && EvolutionSpec.IsSquare(G)
    requires m.Valid() && power.Valid() && u.Valid()
    requires m.Entries() == G
    requires power.Entries() == EvolutionSpec.Power(G, k - 1)
    requires u.Entries() == EvolutionSpec.Series(G, k - 1)
    requires factorial == EvolutionSpec.Factorial(k - 1)
    ensures fresh(power') && fresh(power'.elements) && power'.Valid()
    ensures fresh(u') && fresh(u'.elements) && u'.Valid()
    ensures power'.Entries() == EvolutionSpec.Power(G, k)
    ensures u'.Entries() == EvolutionSpec.Series(G, k)
    ensures factorial' == EvolutionSpec.Factorial(k)
  {
    ghost var previousPower, previousSum := power.Entries(), u.Entries();
    var product := ComplexMatrix.Times(power, m);
    power' := product.value;
    ghost var nextPower := power'.Entries();
    assert nextPower == MMul(previousPower, G);
    EvolutionSpec.PowerStep(G, k);
    factorial' := factorial * (k as real);
    EvolutionSpec.FactorialStep(factorial, k);
    var term := ComplexMatrix.Scaled(power', Complex(1.0 / factorial', 0.0));
    var sum := ComplexMatrix.Plus(u, term);
    u' := sum.value;
    assert u'.Entries() == MAdd(previousSum, term.Entries());
    EvolutionSpec.SeriesStep(G, k);
  }

  /** The eigen-decomposition path is not implemented: it falls back to TimeEvolve
      with the default number of steps. */
  method TimeEvolveEigen(initialState: ComplexVector, hamiltonian: ComplexMatrix, time: real)
    returns (r: Result<ComplexVector>)
    requires initialState.Valid() && hamiltonian.Valid()
    ensures r.Failure? <==>
      hamiltonian.Rows() != hamiltonian.Columns() || hamiltonian.Rows() != initialState.Dimension()
    ensures r.Failure? ==> r.error == DimensionMismatch
    ensures r.Success? ==> fresh(r.value) && fresh(r.value.elements) && r.value.Valid()
    ensures r.Success? ==>
      r.value.Elements() == EvolutionSpec.Evolved(initialState.Elements(), hamiltonian.Entries(), time, 100)
  {
    r := TimeEvolve(initialState, hamiltonian, time);
  }

  /** `state.ConjugateTranspose().Dot(observable * state)`. Dot conjugates its receiver
      again, so the value is Σ state[i]·(O·state)[i] with no conjugate at all. */
  method ExpectationValue(state: ComplexVector, observable: ComplexMatrix) returns (r: Result<Complex>)
    requires state.Valid() && observable.Valid()
    ensures r.Failure? <==>
      state.Dimension() != observable.Rows() || observable.Rows() != observable.Columns()
    ensures r.Failure? ==> r.error == DimensionMismatch
    ensures r.Success? ==>
      r.value == MeasurementSpec.ExpectationAsWritten(state.Elements(), observable.Entries())
  {
    if state.Dimension() != observable.Rows() || observable.Rows() != observable.Columns() {
      return Failure(DimensionMismatch);
    }
    var transformed := ComplexMatrix.Apply(observable, state);
    var bra := state.ConjugateTranspose();
    r := bra.Dot(transformed.value);
    InnerProductOfConj(state.Elements(), transformed.value.Elements());
  }

  /** ⟨state|O|state⟩ = Σ conj(state[i])·(O·state)[i]: the expectation value with a
      single conjugation, as the physics asks for. */
  method ExpectationValueCorrected(state: ComplexVector, observable: ComplexMatrix) returns (r: Result<Complex>)
    requires state.Valid() && observable.Valid()
    ensures r.Failure? <==>
      state.Dimension() != observable.Rows() || observable.Rows() != observable.Columns()
    ensures r.Failure? ==> r.error == DimensionMismatch
    ensures r.Success? ==>
      r.value == MeasurementSpec.Expectation(state.Elements(), observable.Entries())
  {
    if state.Dimension() != observable.Rows() || observable.Rows() != observable.Columns() {
      return Failure(DimensionMismatch);
    }
    var transformed := ComplexMatrix.Apply(observable, state);
    r := state.Dot(transformed.value);
  }

  /** |Dot(measuredState, initialState)|²; fails unless the dimensions agree. */
  method ProbabilityOfMeasuringState(measuredState: ComplexVector, initialState: ComplexVector)
    returns (r: Result<real>)
    requires measuredState.Valid() && initialState.Valid()
    ensures r.Failure? <==> measuredState.Dimension() != initialState.Dimension()
    ensures r.Failure? ==> r.error == DimensionMismatch
    ensures r.Success? ==> r.value == MeasurementSpec.Probability(measuredState.Elements(), initialState.Elements())
  {
    if measuredState.Dimension() != initialState.Dimension() {
      return Failure(DimensionMismatch);
    }
    var innerProduct := measuredState.Dot(initialState);
    return Success(NormSq(innerProduct.value));
  }

  /** Normalises the state in place (see ComplexVector.Normalize). */
  method NormalizeState(state: ComplexVector, sqrt: real -> real)
    requires state.Valid()
    requires forall x :: x > 0.0 ==> sqrt(x) > 0.0 && sqrt(x) * sqrt(x) == x
    modifies state.elements
    ensures var m := SumNormSq(old(state.Elements()));
      if m == 0.0 then state.Elements() == old(state.Elements())
      else state.Elements() == DivideAll(old(state.Elements()), sqrt(m)) && SumNormSq(state.Elements()) == 1.0
  {
    state.Normalize(sqrt);
  }

  /** [A, B] = A·B − B·A; fails unless both are square and of one dimension. */
  method Commutator(a: ComplexMatrix, b: ComplexMatrix) returns (r: Result<ComplexMatrix>)
    requires a.Valid() && b.Valid()
    ensures r.Failure? <==> a.Rows() != a.Columns() || b.Rows() != b.Columns() || a.Rows() != b.Rows()
    ensures r.Failure? ==> r.error == DimensionMismatch
    ensures r.Success? ==> fresh(r.value) && fresh(r.value.elements) && r.value.Valid()
    ensures r.Success? ==> r.value.Entries() == EvolutionSpec.Commutator(a.Entries(), b.Entries())
  {
    if a.Rows() != a.Columns() || b.Rows() != b.Columns() || a.Rows() != b.Rows() {
      return Failure(DimensionMismatch);
    }
    var ab := ComplexMatrix.Times(a, b);
    var ba := ComplexMatrix.Times(b, a);
    r := ComplexMatrix.Minus(ab.value, ba.value);
  }

  /** {A, B} = A·B + B·A; fails unless both are square and of one dimension. */
  method AntiCommutator(a: ComplexMatrix, b: ComplexMatrix) returns (r: Result<ComplexMatrix>)
    requires a.Valid() && b.Valid()
    ensures r.Failure? <==> a.Rows() != a.Columns() || b.Rows() != b.Columns() || a.Rows() != b.Rows()
    ensures r.Failure? ==> r.error == DimensionMismatch
    ensures r.Success? ==> fresh(r.value) && fresh(r.value.elements) && r.value.Valid()
    ensures r.Success? ==> r.value.Entries() == EvolutionSpec.AntiCommutator(a.Entries(), b.Entries())
  {
    if a.Rows() != a.Columns() || b.Rows() != b.Columns() || a.Rows() != b.Rows() {
      return Failure(DimensionMismatch);
    }
    var ab := ComplexMatrix.Times(a, b);
    var ba := ComplexMatrix.Times(b, a);
    r := ComplexMatrix.Plus(ab.value, ba.value);
  }
}
