/** The value-level meaning of a ComplexMatrix: its entries as a sequence of rows,
    and the sums, products and transposes the class fills in cell by cell. */
module MatrixSpec {
  import opened Numbers
  import opened VectorSpec

  type Matrix = seq<seq<Complex>>

  /** The shape every ComplexMatrix has: at least one row, at least one column, and
      every row as wide as the first. */
  predicate IsMatrix(m: Matrix)
  {
    |m| > 0 && |m[0]| > 0 && forall i :: 0 <= i < |m| ==> |m[i]| == |m[0]|
  }

  function Width(m: Matrix): nat
    requires |m| > 0
  {
    |m[0]|
  }

  predicate SameShape(a: Matrix, b: Matrix)
  {
    IsMatrix(a) && IsMatrix(b) && |a| == |b| && Width(a) == Width(b)
  }

  /** The grid filled by InitializeWithZeros. */
  function ZeroMatrix(rows: nat, cols: nat): (r: Matrix)
    requires rows > 0 && cols > 0
    ensures IsMatrix(r) && |r| == rows && Width(r) == cols
  {
    seq(rows, _ => Zeros(cols))
  }

  /** Row p of the identity: One at index p, Zero elsewhere. */
  function Unit(n: nat, p: nat): Vector
  {
    seq(n, k => if k == p then One else Zero)
  }

  function IdentityMatrix(n: nat): (r: Matrix)
    requires n > 0
    ensures IsMatrix(r) && |r| == n && Width(r) == n
  {
    seq(n, i requires 0 <= i < n => Unit(n, i))
  }

  function MAdd(a: Matrix, b: Matrix): (r: Matrix)
    requires SameShape(a, b)
    ensures SameShape(r, a)
  {
    seq(|a|, i requires 0 <= i < |a| => VAdd(a[i], b[i]))
  }

  function MSub(a: Matrix, b: Matrix): (r: Matrix)
    requires SameShape(a, b)
    ensures SameShape(r, a)
  {
    seq(|a|, i requires 0 <= i < |a| => VSub(a[i], b[i]))
  }

  /** `matrix * scalar` (and `scalar * matrix`, which delegates to it). */
  function MScale(m: Matrix, c: Complex): (r: Matrix)
    requires IsMatrix(m)
    ensures SameShape(r, m)
  {
    seq(|m|, i requires 0 <= i < |m| => VScale(m[i], c))
  }

  /** Column j of m, read top to bottom. */
  function Column(m: Matrix, j: nat): (r: Vector)
    requires IsMatrix(m) && j < Width(m)
    ensures |r| == |m|
  {
    seq(|m|, k requires 0 <= k < |m| => m[k][j])
  }

  /** The matrix product: entry (i, j) is Σ_k a[i][k]·b[k][j], summed over k upwards. */
  function MMul(a: Matrix, b: Matrix): (r: Matrix)
    requires IsMatrix(a) && IsMatrix(b) && Width(a) == |b|
    ensures IsMatrix(r) && |r| == |a| && Width(r) == Width(b)
  {
    seq(|a|, i requires 0 <= i < |a| =>
      seq(Width(b), j requires 0 <= j < Width(b) => InnerTo(a[i], Column(b, j), |b|)))
  }

  /** Matrix times vector: entry i is Σ_j m[i][j]·v[j]. */
  function MApply(m: Matrix, v: Vector): (r: Vector)
    requires IsMatrix(m) && Width(m) == |v|
    ensures |r| == |m|
  {
    seq(|m|, i requires 0 <= i < |m| => InnerTo(m[i], v, |v|))
  }

  /** The conjugate transpose: entry (j, i) is the conjugate of m[i][j]. */
  function ConjTranspose(m: Matrix): (r: Matrix)
    requires IsMatrix(m)
    ensures IsMatrix(r) && |r| == Width(m) && Width(r) == |m|
  {
    seq(Width(m), j requires 0 <= j < Width(m) =>
      seq(|m|, i requires 0 <= i < |m| => Conjugate(m[i][j])))
  }

  /** The outer product |u⟩⟨v|: entry (i, j) is u[i]·conj(v[j]). */
  function Outer(u: Vector, v: Vector): (r: Matrix)
    requires |u| > 0 && |v| > 0
    ensures IsMatrix(r) && |r| == |u| && Width(r) == |v|
  {
    seq(|u|, i requires 0 <= i < |u| =>
      seq(|v|, j requires 0 <= j < |v| => Mul(u[i], Conjugate(v[j]))))
  }

  // ---- addition, subtraction, scaling ----

  /** `(a + b) - b == a`. */
  lemma MSubUndoesMAdd(a: Matrix, b: Matrix)
    requires SameShape(a, b)
    ensures MSub(MAdd(a, b), b) == a
  {
    forall i | 0 <= i < |a| ensures MSub(MAdd(a, b), b)[i] == a[i] {
      VSubUndoesVAdd(a[i], b[i]);
    }
  }

  lemma MAddCommutes(a: Matrix, b: Matrix)
    requires SameShape(a, b)
    ensures MAdd(a, b) == MAdd(b, a)
  {
    forall i | 0 <= i < |a| ensures MAdd(a, b)[i] == MAdd(b, a)[i] {
      VAddCommutes(a[i], b[i]);
    }
  }

  lemma MAddZero(a: Matrix)
    requires IsMatrix(a)
    ensures MAdd(a, ZeroMatrix(|a|, Width(a))) == a
  {
    var z := ZeroMatrix(|a|, Width(a));
    forall i, j | 0 <= i < |a| && 0 <= j < Width(a) ensures MAdd(a, z)[i][j] == a[i][j] {
      ZeroIsAdditiveIdentity(a[i][j]);
    }
    forall i | 0 <= i < |a| ensures MAdd(a, z)[i] == a[i] {
    }
  }

  lemma MScaleByOne(a: Matrix)
    requires IsMatrix(a)
    ensures MScale(a, One) == a
  {
    forall i | 0 <= i < |a| ensures MScale(a, One)[i] == a[i] {
      VScaleByOne(a[i]);
    }
  }

  /** Scaling by Zero gives the zero matrix of the same shape. */
  lemma MScaleByZero(a: Matrix)
    requires IsMatrix(a)
    ensures MScale(a, Zero) == ZeroMatrix(|a|, Width(a))
  {
    var z := ZeroMatrix(|a|, Width(a));
    forall i, j | 0 <= i < |a| && 0 <= j < Width(a) ensures MScale(a, Zero)[i][j] == z[i][j] {
      ZeroAnnihilates(a[i][j]);
    }
    forall i | 0 <= i < |a| ensures MScale(a, Zero)[i] == z[i] {
    }
  }

  /** The zero matrix stays zero under any scaling. */
  lemma MScaleOfZero(rows: nat, cols: nat, c: Complex)
    requires rows > 0 && cols > 0
    ensures MScale(ZeroMatrix(rows, cols), c) == ZeroMatrix(rows, cols)
  {
    var z := ZeroMatrix(rows, cols);
    forall i | 0 <= i < rows ensures MScale(z, c)[i] == z[i] {
      ZeroAnnihilates(c);
    }
  }

  // ---- sums against unit and zero vectors ----

  /** Summing against a unit vector picks out one entry. */
  lemma {:induction false} InnerToUnit(u: Vector, m: nat, p: nat, n: nat)
    requires n <= |u| && n <= m
    ensures InnerTo(u, Unit(m, p), n) == if p < n then u[p] else Zero
  {
    if n > 0 {
      InnerToUnit(u, m, p, n - 1);
      var prev, x := InnerTo(u, Unit(m, p), n - 1), u[n - 1];
      if n - 1 == p {
        assert Unit(m, p)[n - 1] == One && prev == Zero;
        OneIsMultiplicativeIdentity(x);
        ZeroIsAdditiveIdentity(x);
      } else {
        assert Unit(m, p)[n - 1] == Zero;
        ZeroAnnihilates(x);
        ZeroIsAdditiveIdentity(prev);
      }
    }
  }

  lemma {:induction false} InnerToZeros(u: Vector, m: nat, n: nat)
    requires n <= |u| && n <= m
    ensures InnerTo(u, Zeros(m), n) == Zero
  {
    if n > 0 {
      InnerToZeros(u, m, n - 1);
      ZeroAnnihilates(u[n - 1]);
    }
  }

  // ---- the matrix product ----

  /** A * Identity == A. */
  lemma MMulIdentityRight(a: Matrix)
    requires IsMatrix(a)
    ensures MMul(a, IdentityMatrix(Width(a))) == a
  {
    var w := Width(a);
    var id := IdentityMatrix(w);
    forall i, j | 0 <= i < |a| && 0 <= j < w ensures MMul(a, id)[i][j] == a[i][j] {
      assert Column(id, j) == Unit(w, j);
      InnerToUnit(a[i], w, j, w);
    }
    forall i | 0 <= i < |a| ensures MMul(a, id)[i] == a[i] {
    }
  }

  /** Identity * A == A. */
  lemma MMulIdentityLeft(a: Matrix)
    requires IsMatrix(a)
    ensures MMul(IdentityMatrix(|a|), a) == a
  {
    var n := |a|;
    var id := IdentityMatrix(n);
    forall i, j | 0 <= i < n && 0 <= j < Width(a) ensures MMul(id, a)[i][j] == a[i][j] {
      InnerToCommutes(Unit(n, i), Column(a, j), n);
      InnerToUnit(Column(a, j), n, i, n);
    }
    forall i | 0 <= i < n ensures MMul(id, a)[i] == a[i] {
    }
  }

  /** Multiplying by a zero matrix on the right gives a zero matrix. */
  lemma MMulZeroRight(a: Matrix, cols: nat)
    requires IsMatrix(a) && cols > 0
    ensures MMul(a, ZeroMatrix(Width(a), cols)) == ZeroMatrix(|a|, cols)
  {
    var w := Width(a);
    var z := ZeroMatrix(w, cols);
    forall i, j | 0 <= i < |a| && 0 <= j < cols ensures MMul(a, z)[i][j] == Zero {
      assert Column(z, j) == Zeros(w);
      InnerToZeros(a[i], w, w);
    }
    forall i | 0 <= i < |a| ensures MMul(a, z)[i] == ZeroMatrix(|a|, cols)[i] {
    }
  }

  /** Identity * v == v. */
  lemma MApplyIdentity(v: Vector)
    requires |v| > 0
    ensures MApply(IdentityMatrix(|v|), v) == v
  {
    var n := |v|;
    forall i | 0 <= i < n ensures MApply(IdentityMatrix(n), v)[i] == v[i] {
      InnerToCommutes(Unit(n, i), v, n);
      InnerToUnit(v, n, i, n);
    }
  }

  // ---- the conjugate transpose ----

  lemma ConjTransposeInvolution(a: Matrix)
    requires IsMatrix(a)
    ensures ConjTranspose(ConjTranspose(a)) == a
  {
    var t := ConjTranspose(ConjTranspose(a));
    forall i | 0 <= i < |a| ensures t[i] == a[i] {
      assert forall j :: 0 <= j < Width(a) ==> t[i][j] == a[i][j];
    }
  }

  /** (A·B)ᴴ == Bᴴ·Aᴴ. */
  lemma ConjTransposeOfProduct(a: Matrix, b: Matrix)
    requires IsMatrix(a) && IsMatrix(b) && Width(a) == |b|
    ensures ConjTranspose(MMul(a, b)) == MMul(ConjTranspose(b), ConjTranspose(a))
  {
    var l, r := ConjTranspose(MMul(a, b)), MMul(ConjTranspose(b), ConjTranspose(a));
    var ta, tb := ConjTranspose(a), ConjTranspose(b);
    forall j, i | 0 <= j < Width(b) && 0 <= i < |a| ensures l[j][i] == r[j][i] {
      assert tb[j] == Conj(Column(b, j));
      assert Column(ta, i) == Conj(a[i]);
      ConjugateOfInnerTo(a[i], Column(b, j), |b|);
      InnerToCommutes(Conj(a[i]), Conj(Column(b, j)), |b|);
    }
    forall j | 0 <= j < Width(b) ensures l[j] == r[j] {
    }
  }

  // ---- the outer product ----

  /** (|u⟩⟨v|)ᴴ == |v⟩⟨u|. */
  lemma OuterConjTranspose(u: Vector, v: Vector)
    requires |u| > 0 && |v| > 0
    ensures ConjTranspose(Outer(u, v)) == Outer(v, u)
  {
    var l, r := ConjTranspose(Outer(u, v)), Outer(v, u);
    forall j, i | 0 <= j < |v| && 0 <= i < |u| ensures l[j][i] == r[j][i] {
      ConjugateOfProduct(u[i], Conjugate(v[j]));
      ConjugateInvolution(v[j]);
      MulCommutes(Conjugate(u[i]), v[j]);
    }
    forall j | 0 <= j < |v| ensures l[j] == r[j] {
    }
  }

  /** |u⟩⟨v| applied to w is u scaled by Dot(v, w). */
  lemma OuterApplied(u: Vector, v: Vector, w: Vector)
    requires |u| > 0 && |v| > 0 && |w| == |v|
    ensures MApply(Outer(u, v), w) == VScale(u, InnerProduct(v, w))
  {
    var o := Outer(u, v);
    forall i | 0 <= i < |u| ensures MApply(o, w)[i] == Mul(u[i], InnerProduct(v, w)) {
      assert forall j :: 0 <= j < |v| ==> o[i][j] == Mul(u[i], Conj(v)[j]);
      forall j | 0 <= j < |v| ensures o[i][j] == VScale(Conj(v), u[i])[j] {
        MulCommutes(u[i], Conj(v)[j]);
      }
      assert o[i] == VScale(Conj(v), u[i]);
      InnerToScaleLeft(Conj(v), w, u[i], |w|);
    }
  }
}
