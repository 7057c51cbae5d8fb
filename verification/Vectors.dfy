/** Vectors of reals, their inner product, and matrices given entry by entry. */
module Vectors {

  type Vec = seq<real>

  /** A product kept by name, so that a proof can pass it on without multiplying it out. */
  function Product(a: real, b: real): real {
    a * b
  }

  function Plus(u: Vec, v: Vec): (r: Vec)
    requires |u| == |v|
    ensures |r| == |u| && forall i :: 0 <= i < |u| ==> r[i] == u[i] + v[i]
  {
    seq(|u|, i requires 0 <= i < |u| => u[i] + v[i])
  }

  function Minus(u: Vec, v: Vec): (r: Vec)
    requires |u| == |v|
    ensures |r| == |u| && forall i :: 0 <= i < |u| ==> r[i] == u[i] - v[i]
  {
    seq(|u|, i requires 0 <= i < |u| => u[i] - v[i])
  }

  lemma PlusAssociates(a: Vec, b: Vec, c: Vec)
    requires |a| == |b| == |c|
    ensures Plus(a, Plus(b, c)) == Plus(Plus(a, b), c)
  {
  }

  function Scale(a: real, v: Vec): (r: Vec)
    ensures |r| == |v| && forall i :: 0 <= i < |v| ==> r[i] == a * v[i]
  {
    seq(|v|, i requires 0 <= i < |v| => a * v[i])
  }

  function Zeros(n: nat): (r: Vec)
    ensures |r| == n && forall i :: 0 <= i < n ==> r[i] == 0.0
  {
    seq(n, _ => 0.0)
  }

  /** The sum of the first `n` entries. */
  function SumTo(v: Vec, n: nat): real
    requires n <= |v|
  {
    if n == 0 then 0.0 else SumTo(v, n - 1) + v[n - 1]
  }

  function Times(u: Vec, v: Vec): (r: Vec)
    requires |u| == |v|
    ensures |r| == |u| && forall i :: 0 <= i < |u| ==> r[i] == u[i] * v[i]
  {
    seq(|u|, i requires 0 <= i < |u| => u[i] * v[i])
  }

  function DotTo(u: Vec, v: Vec, n: nat): real
    requires n <= |u| && n <= |v|
  {
    if n == 0 then 0.0 else DotTo(u, v, n - 1) + u[n - 1] * v[n - 1]
  }

  function Dot(u: Vec, v: Vec): real
    requires |u| == |v|
  {
    DotTo(u, v, |u|)
  }

  lemma {:induction false} SumOfTimes(u: Vec, v: Vec, n: nat)
    requires |u| == |v| && n <= |u|
    ensures SumTo(Times(u, v), n) == DotTo(u, v, n)
  {
    if n > 0 { SumOfTimes(u, v, n - 1); }
  }

  lemma {:induction false} DotCommutesTo(u: Vec, v: Vec, n: nat)
    requires |u| == |v| && n <= |u|
    ensures DotTo(u, v, n) == DotTo(v, u, n)
  {
    if n > 0 { DotCommutesTo(u, v, n - 1); }
  }

  lemma DotCommutes(u: Vec, v: Vec)
    requires |u| == |v|
    ensures Dot(u, v) == Dot(v, u)
  {
    DotCommutesTo(u, v, |u|);
  }

  lemma DotStep(u: Vec, v: Vec, n: nat)
    requires n <= |u| && n <= |v|
    ensures DotTo(u, v, n) == if n == 0 then 0.0 else DotTo(u, v, n - 1) + Product(v[n - 1], u[n - 1])
  {
  }

  lemma {:induction false} DotLinearTo(a: real, u: Vec, b: real, v: Vec, w: Vec, n: nat)
    requires |u| == |v| == |w| && n <= |u|
    ensures DotTo(Plus(Scale(a, u), Scale(b, v)), w, n) == Product(a, DotTo(u, w, n)) + Product(b, DotTo(v, w, n))
  {
    hide Product; hide DotTo;
    var x := Plus(Scale(a, u), Scale(b, v));
    DotStep(u, w, n);
    DotStep(v, w, n);
    DotStep(x, w, n);
    if n == 0 {
      ProductNothing(a);
      ProductNothing(b);
    } else {
      var j := n - 1;
      DotLinearTo(a, u, b, v, w, j);
      LinearStep(a, b, w[j], u[j], v[j], x[j], DotTo(u, w, j), DotTo(v, w, j), DotTo(u, w, n), DotTo(v, w, n));
    }
  }

  /** The inner product is linear on the left. */
  lemma DotPlus(u: Vec, v: Vec, w: Vec)
    requires |u| == |v| == |w|
    ensures Dot(Plus(u, v), w) == Dot(u, w) + Dot(v, w)
  {
    DotLinearTo(1.0, u, 1.0, v, w, |u|);
    assert Plus(u, v) == Plus(Scale(1.0, u), Scale(1.0, v));
  }

  lemma DotMinus(u: Vec, v: Vec, w: Vec)
    requires |u| == |v| == |w|
    ensures Dot(Minus(u, v), w) == Dot(u, w) - Dot(v, w)
  {
    DotLinearTo(1.0, u, -1.0, v, w, |u|);
    assert Minus(u, v) == Plus(Scale(1.0, u), Scale(-1.0, v));
  }

  lemma DotScale(a: real, u: Vec, w: Vec)
    requires |u| == |w|
    ensures Dot(Scale(a, u), w) == a * Dot(u, w)
  {
    DotLinearTo(a, u, 0.0, u, w, |u|);
    assert Scale(a, u) == Plus(Scale(a, u), Scale(0.0, u));
  }

  /** `u + a v` paired with `w`. */
  lemma DotAxpy(u: Vec, a: real, v: Vec, w: Vec)
    requires |u| == |v| == |w|
    ensures Dot(Plus(u, Scale(a, v)), w) == Dot(u, w) + Product(a, Dot(v, w))
    ensures Dot(w, Plus(u, Scale(a, v))) == Dot(w, u) + Product(a, Dot(w, v))
  {
    DotPlus(u, Scale(a, v), w);
    DotScale(a, v, w);
    DotCommutes(w, Plus(u, Scale(a, v)));
    DotCommutes(w, u);
    DotCommutes(w, v);
  }

  type Matrix = (nat, nat) -> real

  /** Row `i` of `m` against the first `n` entries of `v`. */
  function RowTo(m: Matrix, i: nat, v: Vec, n: nat): real
    requires n <= |v|
  {
    if n == 0 then 0.0 else RowTo(m, i, v, n - 1) + m(i, n - 1) * v[n - 1]
  }

  function Apply(m: Matrix, rows: nat, v: Vec): (r: Vec)
    ensures |r| == rows && forall i :: 0 <= i < rows ==> r[i] == RowTo(m, i, v, |v|)
  {
    seq(rows, i requires 0 <= i < rows => RowTo(m, i, v, |v|))
  }

  function Transpose(m: Matrix): Matrix {
    (i: nat, j: nat) => m(j, i)
  }

  lemma RowStep(m: Matrix, i: nat, v: Vec, n: nat)
    requires n <= |v|
    ensures RowTo(m, i, v, n) == if n == 0 then 0.0 else RowTo(m, i, v, n - 1) + Product(m(i, n - 1), v[n - 1])
  {
  }

  lemma {:induction false} RowLinear(m: Matrix, i: nat, a: real, u: Vec, b: real, v: Vec, n: nat)
    requires |u| == |v| && n <= |u|
    ensures RowTo(m, i, Plus(Scale(a, u), Scale(b, v)), n)
      == Product(a, RowTo(m, i, u, n)) + Product(b, RowTo(m, i, v, n))
  {
    hide Product; hide RowTo;
    var w := Plus(Scale(a, u), Scale(b, v));
    RowStep(m, i, u, n);
    RowStep(m, i, v, n);
    RowStep(m, i, w, n);
    if n == 0 {
      ProductNothing(a);
      ProductNothing(b);
    } else {
      var j := n - 1;
      RowLinear(m, i, a, u, b, v, j);
      LinearStep(a, b, m(i, j), u[j], v[j], w[j], RowTo(m, i, u, j), RowTo(m, i, v, j), RowTo(m, i, u, n),
        RowTo(m, i, v, n));
    }
  }

  lemma ProductNothing(a: real)
    ensures Product(a, 0.0) == 0.0
  {
  }

  lemma LinearStep(a: real, b: real, w: real, u: real, v: real, x: real, row: real, row': real, next: real, next': real)
    requires x == a * u + b * v && next == row + Product(w, u) && next' == row' + Product(w, v)
    ensures Product(a, row) + Product(b, row') + Product(w, x) == Product(a, next) + Product(b, next')
  {
    Spread(a, row, w, u);
    Spread(b, row', w, v);
    Across(w, a, u, b, v);
  }

  lemma Spread(a: real, row: real, w: real, u: real)
    ensures Product(a, row + Product(w, u)) == Product(a, row) + w * (a * u)
  {
  }

  lemma Across(w: real, a: real, u: real, b: real, v: real)
    ensures Product(w, a * u + b * v) == w * (a * u) + w * (b * v)
  {
  }

  lemma ApplyLinear(m: Matrix, rows: nat, a: real, u: Vec, b: real, v: Vec)
    requires |u| == |v|
    ensures Apply(m, rows, Plus(Scale(a, u), Scale(b, v)))
      == Plus(Scale(a, Apply(m, rows, u)), Scale(b, Apply(m, rows, v)))
  {
    var w := Plus(Scale(a, u), Scale(b, v));
    var r := Plus(Scale(a, Apply(m, rows, u)), Scale(b, Apply(m, rows, v)));
    forall i | 0 <= i < rows ensures Apply(m, rows, w)[i] == r[i] {
      RowLinear(m, i, a, u, b, v, |u|);
      assert r[i] == Scale(a, Apply(m, rows, u))[i] + Scale(b, Apply(m, rows, v))[i];
    }
    assert Apply(m, rows, w) == r;
  }

  lemma ApplyPlus(m: Matrix, rows: nat, u: Vec, v: Vec)
    requires |u| == |v|
    ensures Apply(m, rows, Plus(u, v)) == Plus(Apply(m, rows, u), Apply(m, rows, v))
  {
    ApplyLinear(m, rows, 1.0, u, 1.0, v);
    assert Plus(u, v) == Plus(Scale(1.0, u), Scale(1.0, v));
  }

  lemma ApplyScale(m: Matrix, rows: nat, a: real, u: Vec)
    ensures Apply(m, rows, Scale(a, u)) == Scale(a, Apply(m, rows, u))
  {
    ApplyLinear(m, rows, a, u, 0.0, u);
    assert Scale(a, u) == Plus(Scale(a, u), Scale(0.0, u));
  }

  /** `w`'s first `rows` entries against those rows of `m v`. */
  function Form(m: Matrix, w: Vec, v: Vec, rows: nat, cols: nat): real
    requires rows <= |w| && cols <= |v|
  {
    if rows == 0 then 0.0 else Form(m, w, v, rows - 1, cols) + w[rows - 1] * RowTo(m, rows - 1, v, cols)
  }

  lemma FormStep(m: Matrix, w: Vec, v: Vec, rows: nat, cols: nat)
    requires rows <= |w| && cols <= |v|
    ensures Form(m, w, v, rows, cols)
      == if rows == 0 then 0.0 else Form(m, w, v, rows - 1, cols) + Product(w[rows - 1], RowTo(m, rows - 1, v, cols))
  {
  }

  lemma {:induction false} FormLastColumn(m: Matrix, w: Vec, v: Vec, rows: nat, cols: nat)
    requires rows <= |w| && 0 < cols <= |v|
    ensures Form(m, w, v, rows, cols)
      == Form(m, w, v, rows, cols - 1) + v[cols - 1] * RowTo(Transpose(m), cols - 1, w, rows)
  {
    if rows > 0 {
      FormLastColumn(m, w, v, rows - 1, cols);
      var a, b, e := w[rows - 1], v[cols - 1], m(rows - 1, cols - 1);
      var row := RowTo(m, rows - 1, v, cols - 1);
      var column := RowTo(Transpose(m), cols - 1, w, rows - 1);
      assert a * (row + e * b) == a * row + b * (e * a);
      assert b * (column + e * a) == b * column + b * (e * a);
    }
  }

  lemma {:induction false} FormTransposes(m: Matrix, w: Vec, v: Vec, rows: nat, cols: nat)
    requires rows <= |w| && cols <= |v|
    ensures Form(m, w, v, rows, cols) == Form(Transpose(m), v, w, cols, rows)
    decreases cols
  {
    if cols == 0 {
      FormNoColumns(m, w, v, rows);
    } else {
      FormLastColumn(m, w, v, rows, cols);
      FormTransposes(m, w, v, rows, cols - 1);
    }
  }

  lemma {:induction false} FormNoColumns(m: Matrix, w: Vec, v: Vec, rows: nat)
    requires rows <= |w|
    ensures Form(m, w, v, rows, 0) == 0.0
  {
    if rows > 0 { FormNoColumns(m, w, v, rows - 1); }
  }

  lemma {:induction false} FormIsDot(m: Matrix, w: Vec, v: Vec, rows: nat)
    requires rows <= |w|
    ensures Form(m, w, v, rows, |v|) == DotTo(w, Apply(m, |w|, v), rows)
  {
    if rows > 0 { FormIsDot(m, w, v, rows - 1); }
  }

  /** The transpose is the adjoint. */
  lemma Adjoint(m: Matrix, w: Vec, v: Vec)
    ensures Dot(w, Apply(m, |w|, v)) == Dot(Apply(Transpose(m), |v|, w), v)
  {
    FormIsDot(m, w, v, |w|);
    FormTransposes(m, w, v, |w|, |v|);
    FormIsDot(Transpose(m), v, w, |v|);
    DotCommutes(v, Apply(Transpose(m), |v|, w));
  }

  ghost predicate SymmetricUpTo(m: Matrix, n: nat) {
    forall i, j :: 0 <= i < n && 0 <= j < n ==> m(i, j) == m(j, i)
  }

  lemma {:induction false} RowsAgree(a: Matrix, b: Matrix, i: nat, v: Vec, n: nat)
    requires n <= |v| && forall j :: 0 <= j < n ==> a(i, j) == b(i, j)
    ensures RowTo(a, i, v, n) == RowTo(b, i, v, n)
  {
    if n > 0 { RowsAgree(a, b, i, v, n - 1); }
  }

  /** A symmetric matrix is a symmetric operator. */
  lemma SymmetricApplies(m: Matrix, u: Vec, v: Vec)
    requires |u| == |v| && SymmetricUpTo(m, |u|)
    ensures Dot(Apply(m, |u|, u), v) == Dot(u, Apply(m, |v|, v))
  {
    Adjoint(m, v, u);
    forall i | 0 <= i < |u| ensures RowTo(Transpose(m), i, v, |v|) == RowTo(m, i, v, |v|) {
      RowsAgree(Transpose(m), m, i, v, |v|);
    }
    assert Apply(Transpose(m), |u|, v) == Apply(m, |v|, v);
    DotCommutes(v, Apply(m, |v|, u));
    DotCommutes(Apply(m, |v|, v), u);
  }

  lemma {:induction false} FormsAgree(a: Matrix, b: Matrix, w: Vec, v: Vec, rows: nat, cols: nat)
    requires rows <= |w| && cols <= |v|
    requires forall i, j :: 0 <= i < rows && 0 <= j < cols ==> a(i, j) == b(i, j)
    ensures Form(a, w, v, rows, cols) == Form(b, w, v, rows, cols)
  {
    if rows > 0 {
      FormsAgree(a, b, w, v, rows - 1, cols);
      RowsAgree(a, b, rows - 1, v, cols);
    }
  }

  lemma {:induction false} RowNotNegative(m: Matrix, i: nat, v: Vec, n: nat)
    requires n <= |v| && forall j :: 0 <= j < n ==> m(i, j) >= 0.0 && v[j] >= 0.0
    ensures RowTo(m, i, v, n) >= 0.0
  {
    if n > 0 { RowNotNegative(m, i, v, n - 1); }
  }

  lemma {:induction false} DotNotNegative(u: Vec, v: Vec, n: nat)
    requires n <= |u| && n <= |v| && forall i :: 0 <= i < n ==> u[i] >= 0.0 && v[i] >= 0.0
    ensures DotTo(u, v, n) >= 0.0
  {
    if n > 0 { DotNotNegative(u, v, n - 1); }
  }

  lemma {:induction false} DotShiftTo(u: Vec, c: Vec, v: Vec, n: nat)
    requires |u| == |c| == |v| && n <= |u|
    ensures DotTo(u, Times(c, v), n) == DotTo(Times(u, v), c, n)
  {
    if n > 0 {
      DotShiftTo(u, c, v, n - 1);
      var i := n - 1;
      assert u[i] * (c[i] * v[i]) == (u[i] * v[i]) * c[i];
    }
  }

  /** Entrywise factors move across the inner product. */
  lemma DotShift(u: Vec, c: Vec, v: Vec)
    requires |u| == |c| == |v|
    ensures Dot(u, Times(c, v)) == Dot(Times(u, v), c)
  {
    DotShiftTo(u, c, v, |u|);
  }

  lemma {:induction false} RowOfZeros(m: Matrix, i: nat, k: nat, n: nat)
    requires n <= k
    ensures RowTo(m, i, Zeros(k), n) == 0.0
  {
    if n > 0 { RowOfZeros(m, i, k, n - 1); }
  }

  lemma ApplyZeros(m: Matrix, n: nat)
    ensures Apply(m, n, Zeros(n)) == Zeros(n)
  {
    forall i | 0 <= i < n ensures Apply(m, n, Zeros(n))[i] == 0.0 { RowOfZeros(m, i, n, n); }
  }

  lemma DotZeros(v: Vec)
    ensures Dot(Zeros(|v|), v) == 0.0
  {
    DotScale(0.0, v, v);
    assert Zeros(|v|) == Scale(0.0, v);
  }
}
