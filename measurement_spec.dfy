/** Properties of the values ExpectationValue and ProbabilityOfMeasuringState return:
    the probability |⟨u|v⟩|², and the two readings of ⟨ψ|O|ψ⟩ (the sum with the
    conjugate cancelled twice, as the simulator forms it, and with one conjugate). */
module MeasurementSpec {
  import opened Numbers
  import opened VectorSpec
  import opened MatrixSpec

  /** |⟨u|v⟩|², the probability ProbabilityOfMeasuringState returns. */
  function Probability(u: Vector, v: Vector): (r: real)
    requires |u| == |v|
    ensures r >= 0.0
  {
    NormSq(InnerProduct(u, v))
  }

  /** Σ ψ[i]·(Oψ)[i]: ExpectationValue's value, the receiver conjugated and then
      conjugated again inside Dot. */
  function ExpectationAsWritten(state: Vector, observable: Matrix): (r: Complex)
    requires IsMatrix(observable) && Width(observable) == |state| && |observable| == |state|
    ensures r == InnerProduct(Conj(state), MApply(observable, state))
  {
    InnerProductOfConj(state, MApply(observable, state));
    InnerTo(state, MApply(observable, state), |state|)
  }

  /** ⟨ψ|O|ψ⟩ = Σ conj(ψ[i])·(Oψ)[i], the conjugate of ⟨Oψ|ψ⟩. */
  function Expectation(state: Vector, observable: Matrix): (r: Complex)
    requires IsMatrix(observable) && Width(observable) == |state| && |observable| == |state|
    ensures r == Conjugate(InnerProduct(MApply(observable, state), state))
  {
    InnerProductConjugateSymmetric(state, MApply(observable, state));
    InnerProduct(state, MApply(observable, state))
  }

  /** Measuring u in v is as likely as measuring v in u. */
  lemma ProbabilitySymmetric(u: Vector, v: Vector)
    requires |u| == |v|
    ensures Probability(u, v) == Probability(v, u)
  {
    InnerProductConjugateSymmetric(u, v);
  }

  /** A normalised state is found in itself with probability 1. */
  lemma ProbabilityOfNormalizedSelf(v: Vector)
    requires SumNormSq(v) == 1.0
    ensures Probability(v, v) == 1.0
  {
    InnerProductSelf(v);
  }

  /** The probability of measuring the zero vector is 0. */
  lemma ProbabilityOfZeros(v: Vector)
    ensures Probability(Zeros(|v|), v) == 0.0
  {
    var z := Zeros(|v|);
    assert Conj(z) == z by {
      assert forall i :: 0 <= i < |z| ==> Conj(z)[i] == z[i];
    }
    InnerToZerosLeft(v, |v|);
    assert InnerProduct(z, v) == Zero;
    assert NormSq(Zero) == 0.0;
  }

  lemma {:induction false} InnerToZerosLeft(v: Vector, n: nat)
    requires n <= |v|
    ensures InnerTo(Zeros(|v|), v, n) == Zero
  {
    if n > 0 {
      InnerToZerosLeft(v, n - 1);
      ZeroAnnihilates(v[n - 1]);
      MulCommutes(Zero, v[n - 1]);
    }
  }

  /** The identity observable has expectation Σ |ψ[i]|², which is 1 on a normalised state. */
  lemma ExpectationOfIdentity(state: Vector)
    requires |state| > 0
    ensures Expectation(state, IdentityMatrix(|state|)) == Complex(SumNormSq(state), 0.0)
  {
    MApplyIdentity(state);
    InnerProductSelf(state);
  }

  /** On a state with only real amplitudes the double conjugation is harmless. */
  lemma ExpectationsAgreeOnRealStates(state: Vector, observable: Matrix)
    requires IsMatrix(observable) && Width(observable) == |state| && |observable| == |state|
    requires Conj(state) == state
    ensures ExpectationAsWritten(state, observable) == Expectation(state, observable)
  {
  }

  /** ψ = (i), O = (1): ⟨ψ|O|ψ⟩ is 1, but the doubly conjugated sum gives i·i = −1. */
  lemma DoubleConjugationCounterexample()
    ensures ExpectationAsWritten([I], [[One]]) == Complex(-1.0, 0.0)
    ensures Expectation([I], [[One]]) == One
  {
    AsWrittenOnI();
    ExpectationOnI();
  }

  lemma AsWrittenOnI()
    ensures ExpectationAsWritten([I], [[One]]) == Complex(-1.0, 0.0)
  {
    UnitAppliedToI();
    InnerToSingle([I], [I]);
    ISquaredIsMinusOne();
  }

  lemma ExpectationOnI()
    ensures Expectation([I], [[One]]) == One
  {
    UnitAppliedToI();
    var bra := Conj([I]);
    assert bra == [Complex(0.0, -1.0)];
    InnerToSingle(bra, [I]);
  }

  /** The 1×1 matrix (1) leaves (i) unchanged. */
  lemma UnitAppliedToI()
    ensures MApply([[One]], [I]) == [I]
  {
    InnerToSingle([One], [I]);
    OneIsMultiplicativeIdentity(I);
  }

  /** A one-term sum is its single product. */
  lemma InnerToSingle(u: Vector, v: Vector)
    requires |u| == 1 && |v| == 1
    ensures InnerTo(u, v, 1) == Mul(u[0], v[0])
  {
    ZeroIsAdditiveIdentity(Mul(u[0], v[0]));
  }
}
