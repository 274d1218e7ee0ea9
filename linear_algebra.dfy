/** ComplexVector and ComplexMatrix: the array-backed classes of the kernel. They
    refer to each other (OuterProduct builds a matrix, matrix × vector builds a
    vector), so they share one module. Each class exposes its contents as a value
    (Elements, Entries) and every operation is stated against the value-level
    definitions of VectorSpec and MatrixSpec. */
module LinearAlgebra {
  import opened Outcomes
  import opened Numbers
  import opened VectorSpec
  import opened MatrixSpec

  /** The contents of a two-dimensional array, row by row. */
  function Grid(a: array2<Complex>): (m: Matrix)
    reads a
    ensures |m| == a.Length0 && forall i :: 0 <= i < |m| ==> |m[i]| == a.Length1
  {
    seq(a.Length0, i requires 0 <= i < a.Length0 reads a =>
      seq(a.Length1, j requires 0 <= j < a.Length1 reads a => a[i, j]))
  }

  class ComplexVector {
    /** The backing array. The reference is fixed; its cells change under the indexer
        setter and Normalize, and are shared with whoever supplied the array. */
    const elements: array<Complex>

    function Dimension(): nat
    {
      elements.Length
    }

    /** Both source constructors refuse to build an empty vector. */
    predicate Valid()
    {
      elements.Length > 0
    }

    function Elements(): (s: Vector)
      reads elements
      ensures |s| == Dimension()
    {
      elements[..]
    }

    /** `new ComplexVector(dimension)` past its size check: every element Zero. */
    constructor OfDimension(dimension: nat)
      requires dimension > 0
      ensures Valid() && fresh(elements) && Elements() == Zeros(dimension)
    {
      elements := new Complex[dimension](_ => Zero);
    }

    /** `new ComplexVector(elements)` past its emptiness check: the array itself is
        adopted, not copied. */
    constructor Wrap(elements: array<Complex>)
      requires elements.Length > 0
      ensures Valid() && this.elements == elements
    {
      this.elements := elements;
    }

    /** `new ComplexVector(int dimension)`: fails on a non-positive dimension. */
    static method New(dimension: int) returns (r: Result<ComplexVector>)
      ensures r.Failure? <==> dimension <= 0
      ensures r.Failure? ==> r.error == NonPositiveSize
      ensures r.Success? ==> fresh(r.value) && fresh(r.value.elements) && r.value.Valid()
      ensures r.Success? ==> r.value.Elements() == Zeros(dimension)
    {
      if dimension <= 0 {
        return Failure(NonPositiveSize);
      }
      var v := new ComplexVector.OfDimension(dimension);
      return Success(v);
    }

    /** `new ComplexVector(params ComplexNumber[] elements)`: fails on a null or empty
        array; otherwise the vector shares the caller's array. */
    static method FromElements(elements: array?<Complex>) returns (r: Result<ComplexVector>)
      ensures r.Failure? <==> elements == null || elements.Length == 0
      ensures r.Failure? ==> r.error == NullOrEmpty
      ensures r.Success? ==> fresh(r.value) && r.value.Valid() && r.value.elements == elements
    {
      if elements == null || elements.Length == 0 {
        return Failure(NullOrEmpty);
      }
      var v := new ComplexVector.Wrap(elements);
      return Success(v);
    }

    /** The indexer getter. */
    method Get(index: int) returns (c: Complex)
      requires 0 <= index < Dimension()
      ensures c == Elements()[index]
    {
      c := elements[index];
    }

    /** The indexer setter: exactly one element changes. */
    method Set(index: int, value: Complex)
      requires 0 <= index < Dimension()
      modifies elements
      ensures Elements() == old(Elements())[index := value]
    {
      elements[index] := value;
    }

    /** Scales the vector in place to unit norm; a zero vector is left as it is.
        `sqrt` stands for Math.Sqrt on the positive reals. */
    method Normalize(sqrt: real -> real)
      requires Valid()
      requires forall x :: x > 0.0 ==> sqrt(x) > 0.0 && sqrt(x) * sqrt(x) == x
      modifies elements
      ensures var m := SumNormSq(old(Elements()));
        if m == 0.0 then Elements() == old(Elements())
        else Elements() == DivideAll(old(Elements()), sqrt(m)) && SumNormSq(Elements()) == 1.0
    {
      var magnitudeSquared := SumNormSq(elements[..]);
      if magnitudeSquared == 0.0 {
        return;
      }
      var magnitude := sqrt(magnitudeSquared);
      ghost var original := elements[..];
      for i := 0 to elements.Length
        invariant forall k :: 0 <= k < i ==> elements[k] == DivReal(original[k], magnitude)
        invariant forall k :: i <= k < elements.Length ==> elements[k] == original[k]
      {
        elements[i] := DivReal(elements[i], magnitude);
      }
      assert elements[..] == DivideAll(original, magnitude);
      NormalizedIsUnit(original, magnitude);
    }

    /** A fresh vector holding the conjugate of every element; this one is untouched. */
    method ConjugateTranspose() returns (r: ComplexVector)
      requires Valid()
      ensures fresh(r) && fresh(r.elements) && r.Valid()
      ensures r.Elements() == Conj(Elements())
    {
      ghost var original := elements[..];
      var transposed := new Complex[elements.Length](_ => Zero);
      for i := 0 to elements.Length
        invariant transposed[..i] == Conj(original)[..i]
      {
        transposed[i] := Conjugate(elements[i]);
      }
      assert transposed[..] == Conj(original);
      r := new ComplexVector.Wrap(transposed);
    }

    /** `a + b`: fails unless the dimensions agree. */
    static method Plus(a: ComplexVector, b: ComplexVector) returns (r: Result<ComplexVector>)
      requires a.Valid() && b.Valid()
      ensures r.Failure? <==> a.Dimension() != b.Dimension()
      ensures r.Failure? ==> r.error == DimensionMismatch
      ensures r.Success? ==> fresh(r.value) && fresh(r.value.elements) && r.value.Valid()
      ensures r.Success? ==> r.value.Elements() == VAdd(a.Elements(), b.Elements())
    {
      if a.Dimension() != b.Dimension() {
        return Failure(DimensionMismatch);
      }
      var result := new ComplexVector.OfDimension(a.Dimension());
      for i := 0 to a.Dimension()
        invariant forall k :: 0 <= k < i ==> result.elements[k] == Add(a.elements[k], b.elements[k])
      {
        result.elements[i] := Add(a.elements[i], b.elements[i]);
      }
      assert result.Elements() == VAdd(a.Elements(), b.Elements());
      return Success(result);
    }

    /** `a - b`: fails unless the dimensions agree. */
    static method Minus(a: ComplexVector, b: ComplexVector) returns (r: Result<ComplexVector>)
      requires a.Valid() && b.Valid()
      ensures r.Failure? <==> a.Dimension() != b.Dimension()
      ensures r.Failure? ==> r.error == DimensionMismatch
      ensures r.Success? ==> fresh(r.value) && fresh(r.value.elements) && r.value.Valid()
      ensures r.Success? ==> r.value.Elements() == VSub(a.Elements(), b.Elements())
    {
      if a.Dimension() != b.Dimension() {
        return Failure(DimensionMismatch);
      }
      var result := new ComplexVector.OfDimension(a.Dimension());
      for i := 0 to a.Dimension()
        invariant forall k :: 0 <= k < i ==> result.elements[k] == Sub(a.elements[k], b.elements[k])
      {
        result.elements[i] := Sub(a.elements[i], b.elements[i]);
      }
      assert result.Elements() == VSub(a.Elements(), b.Elements());
      return Success(result);
    }

    /** `v * scalar`. */
    static method Scaled(v: ComplexVector, scalar: Complex) returns (r: ComplexVector)
      requires v.Valid()
      ensures fresh(r) && fresh(r.elements) && r.Valid()
      ensures r.Elements() == VScale(v.Elements(), scalar)
    {
      r := new ComplexVector.OfDimension(v.Dimension());
      for i := 0 to v.Dimension()
        invariant forall k :: 0 <= k < i ==> r.elements[k] == Mul(v.elements[k], scalar)
      {
        r.elements[i] := Mul(v.elements[i], scalar);
      }
      assert r.Elements() == VScale(v.Elements(), scalar);
    }

    /** `scalar * v`, which the source defines as `v * scalar`. */
    static method ScaledLeft(scalar: Complex, v: ComplexVector) returns (r: ComplexVector)
      requires v.Valid()
      ensures fresh(r) && fresh(r.elements) && r.Valid()
      ensures r.Elements() == VScale(v.Elements(), scalar)
    {
      r := Scaled(v, scalar);
    }

    /** `this.Dot(other)`: Σ conj(this[i])·other[i]; fails unless the dimensions agree. */
    method Dot(other: ComplexVector) returns (r: Result<Complex>)
      requires Valid() && other.Valid()
      ensures r.Failure? <==> Dimension() != other.Dimension()
      ensures r.Failure? ==> r.error == DimensionMismatch
      ensures r.Success? ==> r.value == InnerProduct(Elements(), other.Elements())
    {
      if Dimension() != other.Dimension() {
        return Failure(DimensionMismatch);
      }
      var sum := Zero;
      for i := 0 to Dimension()
        invariant sum == InnerTo(Conj(Elements()), other.Elements(), i)
      {
        sum := Add(sum, Mul(Conjugate(elements[i]), other.elements[i]));
      }
      return Success(sum);
    }

    /** `this.OuterProduct(other)`: the Dimension × other.Dimension matrix |this⟩⟨other|. */
    method OuterProduct(other: ComplexVector) returns (r: ComplexMatrix)
      requires Valid() && other.Valid()
      ensures fresh(r) && fresh(r.elements) && r.Valid()
      ensures r.Entries() == Outer(Elements(), other.Elements())
    {
      r := new ComplexMatrix.Zeros(Dimension(), other.Dimension());
      for i := 0 to Dimension()
        invariant forall i', j :: 0 <= i' < i && 0 <= j < other.Dimension() ==>
          r.elements[i', j] == Mul(elements[i'], Conjugate(other.elements[j]))
      {
        for j := 0 to other.Dimension()
          invariant forall i', j' :: 0 <= i' < i && 0 <= j' < other.Dimension() ==>
            r.elements[i', j'] == Mul(elements[i'], Conjugate(other.elements[j']))
          invariant forall j' :: 0 <= j' < j ==> r.elements[i, j'] == Mul(elements[i], Conjugate(other.elements[j']))
        {
          r.elements[i, j] := Mul(elements[i], Conjugate(other.elements[j]));
        }
      }
      r.EntriesAre(Outer(Elements(), other.Elements()));
    }

    /** `Equals(object)`: true exactly for a non-null vector of the same dimension whose
        elements are all equal to this one's. */
    method Equals(other: ComplexVector?) returns (r: bool)
      ensures r <==> other != null && Elements() == other.Elements()
    {
      if other == null || Dimension() != other.Dimension() {
        return false;
      }
      for i := 0 to Dimension()
        invariant elements[..i] == other.elements[..i]
      {
        if !Numbers.Equals(elements[i], other.elements[i]) {
          return false;
        }
      }
      return true;
    }
  }

  class ComplexMatrix {
    /** The backing grid: fixed reference, cells written through the indexer. */
    const elements: array2<Complex>

    function Rows(): nat
    {
      elements.Length0
    }

    function Columns(): nat
    {
      elements.Length1
    }

    /** Both source constructors refuse an empty shape. */
    predicate Valid()
    {
      elements.Length0 > 0 && elements.Length1 > 0
    }

    function Entries(): (m: Matrix)
      reads elements
      ensures |m| == Rows() && forall i :: 0 <= i < |m| ==> |m[i]| == Columns()
      ensures Valid() ==> IsMatrix(m) && Width(m) == Columns()
    {
      Grid(elements)
    }

    /** Cell-wise agreement with a value fixes the value of Entries. */
    lemma EntriesAre(m: Matrix)
      requires |m| == Rows() && forall i :: 0 <= i < |m| ==> |m[i]| == Columns()
      requires forall i, j :: 0 <= i < Rows() && 0 <= j < Columns() ==> elements[i, j] == m[i][j]
      ensures Entries() == m
    {
      forall i | 0 <= i < Rows() ensures Entries()[i] == m[i] {
      }
    }

    /** `new ComplexMatrix(rows, columns)` past its size check: all Zero. */
    constructor Zeros(rows: nat, columns: nat)
      requires rows > 0 && columns > 0
      ensures Valid() && fresh(elements) && Rows() == rows && Columns() == columns
      ensures Entries() == ZeroMatrix(rows, columns)
    {
      elements := new Complex[rows, columns];
      new;
      InitializeWithZeros();
    }

    /** `new ComplexMatrix(ComplexNumber[,] elements)` past its emptiness check: the
        grid is copied, so later writes to `source` do not reach this matrix. */
    constructor CopyOf(source: array2<Complex>)
      requires source.Length0 > 0 && source.Length1 > 0
      ensures Valid() && fresh(elements) && Entries() == Grid(source)
    {
      var copy := new Complex[source.Length0, source.Length1];
      for i := 0 to source.Length0
        invariant forall i', j :: 0 <= i' < i && 0 <= j < source.Length1 ==> copy[i', j] == source[i', j]
      {
        for j := 0 to source.Length1
          invariant forall i', j' :: 0 <= i' < i && 0 <= j' < source.Length1 ==> copy[i', j'] == source[i', j']
          invariant forall j' :: 0 <= j' < j ==> copy[i, j'] == source[i, j']
        {
          copy[i, j] := source[i, j];
        }
      }
      elements := copy;
      new;
      EntriesAre(Grid(source));
    }

    /** Sets every cell to Zero. */
    method InitializeWithZeros()
      requires Valid()
      modifies elements
      ensures Entries() == ZeroMatrix(Rows(), Columns())
    {
      for i := 0 to Rows()
        invariant forall i', j :: 0 <= i' < i && 0 <= j < Columns() ==> elements[i', j] == Zero
      {
        for j := 0 to Columns()
          invariant forall i', j' :: 0 <= i' < i && 0 <= j' < Columns() ==> elements[i', j'] == Zero
          invariant forall j' :: 0 <= j' < j ==> elements[i, j'] == Zero
        {
          elements[i, j] := Zero;
        }
      }
      EntriesAre(ZeroMatrix(Rows(), Columns()));
    }

    /** `new ComplexMatrix(int rows, int columns)`: fails unless both are positive. */
    static method Create(rows: int, columns: int) returns (r: Result<ComplexMatrix>)
      ensures r.Failure? <==> rows <= 0 || columns <= 0
      ensures r.Failure? ==> r.error == NonPositiveSize
      ensures r.Success? ==> fresh(r.value) && fresh(r.value.elements) && r.value.Valid()
      ensures r.Success? ==> r.value.Entries() == ZeroMatrix(rows, columns)
    {
      if rows <= 0 || columns <= 0 {
        return Failure(NonPositiveSize);
      }
      var m := new ComplexMatrix.Zeros(rows, columns);
      return Success(m);
    }

    /** `new ComplexMatrix(ComplexNumber[,] elements)`: fails on a null or empty grid;
        otherwise holds a copy of it in storage of its own. */
    static method FromArray(elements: array2?<Complex>) returns (r: Result<ComplexMatrix>)
      ensures r.Failure? <==> elements == null || elements.Length0 == 0 || elements.Length1 == 0
      ensures r.Failure? ==> r.error == NullOrEmpty
      ensures r.Success? ==> fresh(r.value) && fresh(r.value.elements) && r.value.Valid()
      ensures r.Success? ==> r.value.Entries() == Grid(elements)
    {
      if elements == null || elements.Length0 == 0 || elements.Length1 == 0 {
        return Failure(NullOrEmpty);
      }
      var m := new ComplexMatrix.CopyOf(elements);
      return Success(m);
    }

    /** The indexer getter. */
    method Get(row: int, col: int) returns (c: Complex)
      requires 0 <= row < Rows() && 0 <= col < Columns()
      ensures c == Entries()[row][col]
    {
      c := elements[row, col];
    }

    /** The indexer setter: exactly one cell changes. */
    method Set(row: int, col: int, value: Complex)
      requires 0 <= row < Rows() && 0 <= col < Columns()
      modifies elements
      ensures Entries() == old(Entries())[row := old(Entries())[row][col := value]]
    {
      elements[row, col] := value;
      EntriesAre(old(Entries())[row := old(Entries())[row][col := value]]);
    }

    /** `a + b`: fails unless the shapes are identical; otherwise cell by cell. */
    static method Plus(a: ComplexMatrix, b: ComplexMatrix) returns (r: Result<ComplexMatrix>)
      requires a.Valid() && b.Valid()
      ensures r.Failure? <==> a.Rows() != b.Rows() || a.Columns() != b.Columns()
      ensures r.Failure? ==> r.error == DimensionMismatch
      ensures r.Success? ==> fresh(r.value) && fresh(r.value.elements) && r.value.Valid()
      ensures r.Success? ==> r.value.Entries() == MAdd(a.Entries(), b.Entries())
    {
      if a.Rows() != b.Rows() || a.Columns() != b.Columns() {
        return Failure(DimensionMismatch);
      }
      var result := new ComplexMatrix.Zeros(a.Rows(), a.Columns());
      for i := 0 to a.Rows()
        invariant forall i', j :: 0 <= i' < i && 0 <= j < a.Columns() ==>
          result.elements[i', j] == Add(a.elements[i', j], b.elements[i', j])
      {
        for j := 0 to a.Columns()
          invariant forall i', j' :: 0 <= i' < i && 0 <= j' < a.Columns() ==>
            result.elements[i', j'] == Add(a.elements[i', j'], b.elements[i', j'])
          invariant forall j' :: 0 <= j' < j ==> result.elements[i, j'] == Add(a.elements[i, j'], b.elements[i, j'])
        {
          result.elements[i, j] := Add(a.elements[i, j], b.elements[i, j]);
        }
      }
      result.EntriesAre(MAdd(a.Entries(), b.Entries()));
      return Success(result);
    }

    /** `a - b`: fails unless the shapes are identical; otherwise cell by cell. */
    static method Minus(a: ComplexMatrix, b: ComplexMatrix) returns (r: Result<ComplexMatrix>)
      requires a.Valid() && b.Valid()
      ensures r.Failure? <==> a.Rows() != b.Rows() || a.Columns() != b.Columns()
      ensures r.Failure? ==> r.error == DimensionMismatch
      ensures r.Success? ==> fresh(r.value) && fresh(r.value.elements) && r.value.Valid()
      ensures r.Success? ==> r.value.Entries() == MSub(a.Entries(), b.Entries())
    {
      if a.Rows() != b.Rows() || a.Columns() != b.Columns() {
        return Failure(DimensionMismatch);
      }
      var result := new ComplexMatrix.Zeros(a.Rows(), a.Columns());
      for i := 0 to a.Rows()
        invariant forall i', j :: 0 <= i' < i && 0 <= j < a.Columns() ==>
          result.elements[i', j] == Sub(a.elements[i', j], b.elements[i', j])
      {
        for j := 0 to a.Columns()
          invariant forall i', j' :: 0 <= i' < i && 0 <= j' < a.Columns() ==>
            result.elements[i', j'] == Sub(a.elements[i', j'], b.elements[i', j'])
          invariant forall j' :: 0 <= j' < j ==> result.elements[i, j'] == Sub(a.elements[i, j'], b.elements[i, j'])
        {
          result.elements[i, j] := Sub(a.elements[i, j], b.elements[i, j]);
        }
      }
      result.EntriesAre(MSub(a.Entries(), b.Entries()));
      return Success(result);
    }

    /** `a * b`: fails unless a.Columns == b.Rows; entry (i, j) is Σ_k a[i, k]·b[k, j]. */
    static method Times(a: ComplexMatrix, b: ComplexMatrix) returns (r: Result<ComplexMatrix>)
      requires a.Valid() && b.Valid()
      ensures r.Failure? <==> a.Columns() != b.Rows()
      ensures r.Failure? ==> r.error == DimensionMismatch
      ensures r.Success? ==> fresh(r.value) && fresh(r.value.elements) && r.value.Valid()
      ensures r.Success? ==> r.value.Entries() == MMul(a.Entries(), b.Entries())
    {
      if a.Columns() != b.Rows() {
        return Failure(DimensionMismatch);
      }
      var result := new ComplexMatrix.Zeros(a.Rows(), b.Columns());
      ghost var A, B := a.Entries(), b.Entries();
      for i := 0 to a.Rows()
        invariant forall i', j :: 0 <= i' < i && 0 <= j < b.Columns() ==>
          result.elements[i', j] == InnerTo(A[i'], Column(B, j), |B|)
      {
        FillProductRow(a, b, result, i);
      }
      result.EntriesAre(MMul(A, B));
      return Success(result);
    }

    /** The middle loop of `a * b`: fills row i of the result, leaving the other rows. */
    static method FillProductRow(a: ComplexMatrix, b: ComplexMatrix, result: ComplexMatrix, i: nat)
      requires a.Valid() && b.Valid() && a.Columns() == b.Rows()
      requires result.Rows() == a.Rows() && result.Columns() == b.Columns() && i < a.Rows()
      requires result.elements != a.elements && result.elements != b.elements
      modifies result.elements
      ensures forall j :: 0 <= j < b.Columns() ==>
        result.elements[i, j] == InnerTo(a.Entries()[i], Column(b.Entries(), j), b.Rows())
      ensures forall i', j :: 0 <= i' < a.Rows() && i' != i && 0 <= j < b.Columns() ==>
        result.elements[i', j] == old(result.elements[i', j])
    {
      for j := 0 to b.Columns()
        invariant forall j' :: 0 <= j' < j ==>
          result.elements[i, j'] == InnerTo(a.Entries()[i], Column(b.Entries(), j'), b.Rows())
        invariant forall i', j' :: 0 <= i' < a.Rows() && i' != i && 0 <= j' < b.Columns() ==>
          result.elements[i', j'] == old(result.elements[i', j'])
      {
        var sum := RowTimesColumn(a, b, i, j);
        result.elements[i, j] := sum;
      }
    }

    /** The innermost loop of `a * b`: Σ_k a[i, k]·b[k, j], summed over k upwards. */
    static method RowTimesColumn(a: ComplexMatrix, b: ComplexMatrix, i: nat, j: nat) returns (sum: Complex)
      requires a.Valid() && b.Valid() && a.Columns() == b.Rows()
      requires i < a.Rows() && j < b.Columns()
      ensures sum == InnerTo(a.Entries()[i], Column(b.Entries(), j), b.Rows())
    {
      ghost var A, B := a.Entries(), b.Entries();
      sum := Zero;
      for k := 0 to a.Columns()
        invariant sum == InnerTo(A[i], Column(B, j), k)
      {
        sum := Add(sum, Mul(a.elements[i, k], b.elements[k, j]));
      }
    }

    /** `matrix * vector`: fails unless Columns == vector.Dimension; entry i is
        Σ_j matrix[i, j]·vector[j]. */
    static method Apply(matrix: ComplexMatrix, vector: ComplexVector) returns (r: Result<ComplexVector>)
      requires matrix.Valid() && vector.Valid()
      ensures r.Failure? <==> matrix.Columns() != vector.Dimension()
      ensures r.Failure? ==> r.error == DimensionMismatch
      ensures r.Success? ==> fresh(r.value) && fresh(r.value.elements) && r.value.Valid()
      ensures r.Success? ==> r.value.Elements() == MApply(matrix.Entries(), vector.Elements())
    {
      if matrix.Columns() != vector.Dimension() {
        return Failure(DimensionMismatch);
      }
      var result := new ComplexVector.OfDimension(matrix.Rows());
      ghost var M, v := matrix.Entries(), vector.Elements();
      for i := 0 to matrix.Rows()
        invariant forall i' :: 0 <= i' < i ==> result.elements[i'] == InnerTo(M[i'], v, |v|)
      {
        var sum := Zero;
        for j := 0 to matrix.Columns()
          invariant sum == InnerTo(M[i], v, j)
        {
          sum := Add(sum, Mul(matrix.elements[i, j], vector.elements[j]));
        }
        result.elements[i] := sum;
      }
      assert result.Elements() == MApply(M, v);
      return Success(result);
    }

    /** `matrix * scalar`. */
    static method Scaled(matrix: ComplexMatrix, scalar: Complex) returns (r: ComplexMatrix)
      requires matrix.Valid()
      ensures fresh(r) && fresh(r.elements) && r.Valid()
      ensures r.Entries() == MScale(matrix.Entries(), scalar)
    {
      r := new ComplexMatrix.Zeros(matrix.Rows(), matrix.Columns());
      for i := 0 to matrix.Rows()
        invariant forall i', j :: 0 <= i' < i && 0 <= j < matrix.Columns() ==>
          r.elements[i', j] == Mul(matrix.elements[i', j], scalar)
      {
        for j := 0 to matrix.Columns()
          invariant forall i', j' :: 0 <= i' < i && 0 <= j' < matrix.Columns() ==>
            r.elements[i', j'] == Mul(matrix.elements[i', j'], scalar)
          invariant forall j' :: 0 <= j' < j ==> r.elements[i, j'] == Mul(matrix.elements[i, j'], scalar)
        {
          r.elements[i, j] := Mul(matrix.elements[i, j], scalar);
        }
      }
      r.EntriesAre(MScale(matrix.Entries(), scalar));
    }

    /** `scalar * matrix`, which the source defines as `matrix * scalar`. */
    static method ScaledLeft(scalar: Complex, matrix: ComplexMatrix) returns (r: ComplexMatrix)
      requires matrix.Valid()
      ensures fresh(r) && fresh(r.elements) && r.Valid()
      ensures r.Entries() == MScale(matrix.Entries(), scalar)
    {
      r := Scaled(matrix, scalar);
    }

    /** A fresh Columns × Rows matrix with entry (j, i) the conjugate of this[i, j]. */
    method ConjugateTranspose() returns (r: ComplexMatrix)
      requires Valid()
      ensures fresh(r) && fresh(r.elements) && r.Valid()
      ensures r.Entries() == ConjTranspose(Entries())
    {
      r := new ComplexMatrix.Zeros(Columns(), Rows());
      for i := 0 to Rows()
        invariant forall j, i' :: 0 <= j < Columns() && 0 <= i' < i ==> r.elements[j, i'] == Conjugate(elements[i', j])
      {
        for j := 0 to Columns()
          invariant forall j', i' :: 0 <= j' < Columns() && 0 <= i' < i ==> r.elements[j', i'] == Conjugate(elements[i', j'])
          invariant forall j' :: 0 <= j' < j ==> r.elements[j', i] == Conjugate(elements[i, j'])
        {
          r.elements[j, i] := Conjugate(elements[i, j]);
        }
      }
      r.EntriesAre(ConjTranspose(Entries()));
    }

    /** `Identity(dimension)`: One on the diagonal, Zero elsewhere; a non-positive
        dimension fails in the constructor it calls. */
    static method Identity(dimension: int) returns (r: Result<ComplexMatrix>)
      ensures r.Failure? <==> dimension <= 0
      ensures r.Failure? ==> r.error == NonPositiveSize
      ensures r.Success? ==> fresh(r.value) && fresh(r.value.elements) && r.value.Valid()
      ensures r.Success? ==> r.value.Entries() == IdentityMatrix(dimension)
    {
      if dimension <= 0 {
        return Failure(NonPositiveSize);
      }
      var identity := new ComplexMatrix.Zeros(dimension, dimension);
      ghost var spec := IdentityMatrix(dimension);
      assert forall i', j :: 0 <= i' < dimension && 0 <= j < dimension ==>
        identity.elements[i', j] == identity.Entries()[i'][j];
      for i := 0 to dimension
        invariant forall i', j :: 0 <= i' < dimension && 0 <= j < dimension ==>
          identity.elements[i', j] == if i' == j && i' < i then One else Zero
      {
        identity.elements[i, i] := One;
      }
      identity.EntriesAre(spec);
      return Success(identity);
    }

    /** `Clone()`: equal entries in storage of its own. */
    method Clone() returns (r: ComplexMatrix)
      requires Valid()
      ensures fresh(r) && fresh(r.elements) && r.Valid()
      ensures r.Entries() == Entries()
    {
      r := new ComplexMatrix.CopyOf(elements);
    }
  }
}
