/** The pressure solve's kernels over the reals (elements-ember
    `kernels/shaders`): what each dispatch does to the fields it binds. A
    level's cells are its fluid cells, numbered; solid cells hold 0 throughout. */
module Kernels {
  import opened Vectors

  /** One grid level: the symmetric face weights between its cells (0 between
      cells that share no face), the weights of its open faces, its colouring,
      `k = h / dx^2`, and the interpolation weights from the next level. */
  datatype Level = Level(n: nat, weight: Matrix, open: nat -> real, red: nat -> bool, k: real,
                         prolong: Matrix, kappa: real)
  {
    ghost predicate Valid() {
      && k > 0.0 && kappa > 0.0
      && (forall i, j :: 0 <= i < n && 0 <= j < n ==> weight(i, j) == weight(j, i) && weight(i, j) >= 0.0)
      && (forall i, j :: 0 <= i < n && 0 <= j < n && red(i) == red(j) ==> weight(i, j) == 0.0)
      && (forall i :: 0 <= i < n ==> open(i) >= 0.0)
    }

    /** The total face weight around cell `i`. */
    function Count(i: nat): real {
      RowTo(weight, i, Ones(n), n) + open(i)
    }

    /** Cell `i`'s neighbours, weighted. */
    function Around(i: nat, x: Vec): real
      requires |x| == n
    {
      RowTo(weight, i, x, n)
    }

    function Entry(i: nat, j: nat): real {
      k * if i == j then -Count(i) else weight(i, j)
    }

    /** The solve's operator, entry by entry. */
    function A(): Matrix {
      (i: nat, j: nat) => Entry(i, j)
    }

    function ApplyA(x: Vec): (r: Vec)
      requires |x| == n
      ensures |r| == n
    {
      Apply(A(), n, x)
    }

    /** `residual.wgsl`. */
    function Residual(x: Vec, b: Vec): (r: Vec)
      requires |x| == n && |b| == n
      ensures |r| == n
    {
      seq(n, i requires 0 <= i < n => b[i] - k * (Around(i, x) - Count(i) * x[i]))
    }

    /** `pressure.wgsl`, `pressure_level.wgsl`: one colour of a sweep. */
    function Relaxed(x: Vec, b: Vec, colour: bool): (r: Vec)
      requires |x| == n && |b| == n && k != 0.0
      ensures |r| == n
    {
      seq(n, i requires 0 <= i < n =>
        if red(i) == colour && Count(i) != 0.0 then (Around(i, x) - b[i] / k) / Count(i) else x[i])
    }

    /** The inverse of A's diagonal on the cells one colour relaxes. */
    function Inverse(colour: bool, i: nat): real
      requires k != 0.0
    {
      if red(i) == colour && Count(i) != 0.0 then -(1.0 / (k * Count(i))) else 0.0
    }

    /** What one colour of a sweep adds, as a function of the residual. */
    function Jacobi(colour: bool, r: Vec): (e: Vec)
      requires |r| == n && k != 0.0
      ensures |e| == n
      ensures forall i :: 0 <= i < n ==> e[i] == Inverse(colour, i) * r[i]
    {
      seq(n, i requires 0 <= i < n => Inverse(colour, i) * r[i])
    }

    /** A cell's neighbour sum depends on the other colour alone, so it is the
        same before and during a pass over its own colour. */
    lemma RaceFree(i: nat, x: Vec, y: Vec)
      requires Valid() && i < n && |x| == n && |y| == n
      requires forall j :: 0 <= j < n && red(j) != red(i) ==> x[j] == y[j]
      ensures Around(i, x) == Around(i, y)
    {
      RaceFreeTo(i, x, y, n);
    }

    lemma {:induction false} RaceFreeTo(i: nat, x: Vec, y: Vec, m: nat)
      requires Valid() && i < n && |x| == n && |y| == n && m <= n
      requires forall j :: 0 <= j < n && red(j) != red(i) ==> x[j] == y[j]
      ensures RowTo(weight, i, x, m) == RowTo(weight, i, y, m)
    {
      if m > 0 { RaceFreeTo(i, x, y, m - 1); }
    }

    lemma RowOfA(i: nat, x: Vec)
      requires Valid() && i < n && |x| == n
      ensures RowTo(A(), i, x, n) == k * (Around(i, x) - Count(i) * x[i])
    {
      hide Level.Count; hide RowTo; hide Product;
      RowBesideDiagonal(A(), weight, i, k, x, n);
      DiagonalJoins(k, Around(i, x), Count(i), x[i], Entry(i, i));
    }

    /** The residual kernel computes b - A x. */
    lemma ResidualIs(x: Vec, b: Vec)
      requires Valid() && |x| == n && |b| == n
      ensures Residual(x, b) == Minus(b, ApplyA(x))
    {
      hide Level.Count; hide RowTo;
      forall i | 0 <= i < n ensures Residual(x, b)[i] == Minus(b, ApplyA(x))[i] {
        RowOfA(i, x);
      }
    }

    /** One colour of a sweep adds a correction that depends on the residual
        alone. */
    lemma RelaxIs(x: Vec, b: Vec, colour: bool)
      requires Valid() && |x| == n && |b| == n
      ensures Relaxed(x, b, colour) == Plus(x, Jacobi(colour, Minus(b, ApplyA(x))))
    {
      ResidualIs(x, b);
      var r := Residual(x, b);
      forall i | 0 <= i < n ensures Relaxed(x, b, colour)[i] == Plus(x, Jacobi(colour, r))[i] {
        RelaxIsAt(x, b, colour, i);
      }
    }

    lemma RelaxIsAt(x: Vec, b: Vec, colour: bool, i: nat)
      requires k != 0.0 && |x| == n && |b| == n && i < n
      ensures Relaxed(x, b, colour)[i] == x[i] + Jacobi(colour, Residual(x, b))[i]
    {
      hide RowTo;
      if red(i) == colour && Count(i) != 0.0 { RelaxCell(Around(i, x), b[i], x[i], k, Count(i)); }
    }

    lemma SymmetricA(u: Vec, v: Vec)
      requires Valid() && |u| == n && |v| == n
      ensures Dot(ApplyA(u), v) == Dot(u, ApplyA(v))
    {
      SymmetricApplies(A(), u, v);
    }

    lemma {:induction false} JacobiTo(colour: bool, u: Vec, v: Vec, m: nat)
      requires k != 0.0 && |u| == n && |v| == n && m <= n
      ensures DotTo(Jacobi(colour, u), v, m) == DotTo(u, Jacobi(colour, v), m)
    {
      hide Level.Inverse;
      if m > 0 {
        JacobiTo(colour, u, v, m - 1);
        var i := m - 1;
        assert (Inverse(colour, i) * u[i]) * v[i] == u[i] * (Inverse(colour, i) * v[i]);
      }
    }

    lemma SymmetricJacobi(colour: bool, u: Vec, v: Vec)
      requires k != 0.0 && |u| == n && |v| == n
      ensures Dot(Jacobi(colour, u), v) == Dot(u, Jacobi(colour, v))
    {
      JacobiTo(colour, u, v, n);
    }

    lemma AddsUp(u: Vec, v: Vec)
      requires |u| == n && |v| == n
      ensures ApplyA(Plus(u, v)) == Plus(ApplyA(u), ApplyA(v))
    {
      ApplyPlus(A(), n, u, v);
    }

    lemma {:induction false} SumOfSquares(x: Vec, m: nat)
      requires Valid() && |x| == n && m <= n
      ensures 2.0 * Form(weight, x, x, m, n) <= Form(weight, Times(x, x), Ones(n), m, n)
        + Form(weight, Ones(n), Times(x, x), m, n)
    {
      hide RowTo; hide Form; hide Product;
      FormStep(weight, x, x, m, n);
      FormStep(weight, Times(x, x), Ones(n), m, n);
      FormStep(weight, Ones(n), Times(x, x), m, n);
      if m > 0 {
        SumOfSquares(x, m - 1);
        RowOfSquares(weight, m - 1, x);
      }
    }

    function Counts(): (c: Vec)
      ensures |c| == n && forall i :: 0 <= i < n ==> c[i] == Count(i)
    {
      seq(n, i requires 0 <= i < n => Count(i))
    }

    function Opens(): (c: Vec)
      ensures |c| == n && forall i :: 0 <= i < n ==> c[i] == open(i)
    {
      seq(n, i requires 0 <= i < n => open(i))
    }

    /** L(x): the weights less the diagonal of counts. */
    function Laplacian(x: Vec): (r: Vec)
      requires |x| == n
      ensures |r| == n
    {
      Minus(Apply(weight, n, x), Times(Counts(), x))
    }

    lemma SplitA(x: Vec)
      requires Valid() && |x| == n
      ensures ApplyA(x) == Scale(k, Laplacian(x))
    {
      hide Level.Count; hide RowTo;
      forall i | 0 <= i < n ensures ApplyA(x)[i] == Scale(k, Laplacian(x))[i] {
        RowOfA(i, x);
      }
    }

    lemma PairLaplacian(x: Vec)
      requires Valid() && |x| == n
      ensures Dot(Laplacian(x), x) == Form(weight, x, x, n, n) - Dot(Times(x, x), Counts())
    {
      hide RowTo; hide Form; hide DotTo; hide Level.Count;
      var wx, cx := Apply(weight, n, x), Times(Counts(), x);
      DotMinus(wx, cx, x);
      DotCommutes(wx, x);
      DotCommutes(cx, x);
      FormIsDot(weight, x, x, n);
      DotShift(x, Counts(), x);
    }

    lemma PairCounts(y: Vec)
      requires Valid() && |y| == n && forall i :: 0 <= i < n ==> y[i] >= 0.0
      ensures Form(weight, y, Ones(n), n, n) <= Dot(y, Counts())
    {
      hide RowTo; hide Form; hide DotTo;
      var w1 := Apply(weight, n, Ones(n));
      assert Counts() == Plus(w1, Opens());
      DotCommutes(y, Counts());
      DotPlus(w1, Opens(), y);
      DotCommutes(w1, y);
      FormIsDot(weight, y, Ones(n), n);
      DotNotNegative(Opens(), y, n);
    }

    /** A is negative semidefinite, whatever the weights of the open faces. */
    lemma NegativeSemidefinite(x: Vec)
      requires Valid() && |x| == n
      ensures Dot(x, ApplyA(x)) <= 0.0
    {
      hide RowTo; hide Form; hide DotTo; hide Level.Count;
      SplitA(x);
      DotCommutes(x, ApplyA(x));
      DotScale(k, Laplacian(x), x);
      LaplacianNotPositive(x);
      hide *;
      NegativeProduct(k, Dot(Laplacian(x), x));
    }

    lemma LaplacianNotPositive(x: Vec)
      requires Valid() && |x| == n
      ensures Dot(Laplacian(x), x) <= 0.0
    {
      hide RowTo; hide Form; hide DotTo; hide Level.Count;
      PairLaplacian(x);
      PairCounts(Times(x, x));
      SumOfSquares(x, n);
      FormTransposes(weight, Ones(n), Times(x, x), n, n);
      FormsAgree(Transpose(weight), weight, Times(x, x), Ones(n), n, n);
    }
  }

  /** Twice the cross terms never exceed the squares: row `i` of the weights
      applied to the squared differences from `x_i`. */
  lemma RowOfSquares(w: Matrix, i: nat, x: Vec)
    requires i < |x| && forall j :: 0 <= j < |x| ==> w(i, j) >= 0.0
    ensures 2.0 * Product(x[i], RowTo(w, i, x, |x|))
      <= Product(Times(x, x)[i], RowTo(w, i, Ones(|x|), |x|)) + Product(Ones(|x|)[i], RowTo(w, i, Times(x, x), |x|))
  {
    hide RowTo; hide Product; hide Times; hide Plus; hide Scale; hide Gaps;
    var c, n, squares := x[i], |x|, Times(x, x);
    GapsAre(i, x);
    RowNotNegative(w, i, Gaps(i, x), n);
    var affine := Plus(Scale(squares[i], Ones(n)), Scale(-2.0 * c, x));
    RowLinear(w, i, squares[i], Ones(n), -2.0 * c, x, n);
    RowLinear(w, i, 1.0, affine, 1.0, squares, n);
    GapsAddUp(c, squares[i], RowTo(w, i, Ones(n), n), RowTo(w, i, x, n), RowTo(w, i, affine, n),
      RowTo(w, i, squares, n));
  }

  /** The squared differences from `x_i`, multiplied out. */
  function Gaps(i: nat, x: Vec): (gaps: Vec)
    requires i < |x|
    ensures |gaps| == |x|
  {
    Plus(Scale(1.0, Plus(Scale(Times(x, x)[i], Ones(|x|)), Scale(-2.0 * x[i], x))), Scale(1.0, Times(x, x)))
  }

  lemma GapsAre(i: nat, x: Vec)
    requires i < |x|
    ensures Gaps(i, x)
      == Plus(Scale(1.0, Plus(Scale(Times(x, x)[i], Ones(|x|)), Scale(-2.0 * x[i], x))), Scale(1.0, Times(x, x)))
    ensures forall j :: 0 <= j < |x| ==> Gaps(i, x)[j] >= 0.0
  {
    forall j | 0 <= j < |x| ensures Gaps(i, x)[j] >= 0.0 { SquaredGap(x[i], Times(x, x)[i], x[j]); }
  }

  lemma GapsAddUp(c: real, c2: real, ones: real, row: real, affine: real, squares: real)
    requires affine == Product(c2, ones) + Product(-2.0 * c, row)
    requires Product(1.0, affine) + Product(1.0, squares) >= 0.0
    ensures 2.0 * Product(c, row) <= Product(c2, ones) + Product(1.0, squares)
  {
    assert (-2.0 * c) * row == -(2.0 * (c * row));
  }

  lemma NegativeProduct(k: real, a: real)
    requires k > 0.0 && a <= 0.0
    ensures k * a <= 0.0
  {
  }

  lemma SquaredGap(c: real, c2: real, y: real)
    requires c2 == c * c
    ensures 1.0 * (c2 * 1.0 + -2.0 * c * y) + 1.0 * (y * y) >= 0.0
  {
    assert (c - y) * (c - y) == c * c - 2.0 * (c * y) + y * y;
  }

  /** A row that is `k` times a row of `w` but for its diagonal entry. */
  lemma {:induction false} RowBesideDiagonal(m: Matrix, w: Matrix, i: nat, k: real, x: Vec, n: nat)
    requires n <= |x| && w(i, i) == 0.0
    requires forall j :: 0 <= j < n && j != i ==> m(i, j) == k * w(i, j)
    ensures RowTo(m, i, x, n) == Product(k, RowTo(w, i, x, n)) + if i < n then Product(m(i, i), x[i]) else 0.0
  {
    hide RowTo; hide Product;
    RowStep(m, i, x, n);
    RowStep(w, i, x, n);
    if n == 0 {
      ProductNothing(k);
    } else {
      var j := n - 1;
      RowBesideDiagonal(m, w, i, k, x, j);
      BesideStep(k, RowTo(w, i, x, j), w(i, j), x[j], m(i, j), RowTo(w, i, x, n));
    }
  }

  lemma BesideStep(k: real, row: real, w: real, x: real, m: real, next: real)
    requires next == row + Product(w, x)
    ensures m == k * w ==> Product(k, next) == Product(k, row) + Product(m, x)
    ensures w == 0.0 ==> next == row
  {
  }

  lemma DiagonalJoins(k: real, around: real, count: real, x: real, diagonal: real)
    requires diagonal == k * -count
    ensures Product(k, around) + Product(diagonal, x) == k * (around - count * x)
  {
  }

  lemma RelaxCell(around: real, b: real, x: real, k: real, count: real)
    requires k != 0.0 && count != 0.0
    ensures (around - b / k) / count == x + -(1.0 / (k * count)) * (b - k * (around - count * x))
  {
    var c := 1.0 / (k * count);
    assert c * (k * count) == 1.0;
    assert (around - b / k) / count == (around - b / k) * (c * k) by {
      assert (around - b / k) / count * count == around - b / k;
      assert (c * k) * count == 1.0;
    }
    assert (b / k) * (c * k) == b * c by { assert b / k * k == b; }
    assert c * k * count == 1.0;
  }

  function Ones(n: nat): (r: Vec)
    ensures |r| == n && forall i :: 0 <= i < n ==> r[i] == 1.0
  {
    seq(n, _ => 1.0)
  }

  /** The bound of `Negligible`, 1e-30 (`pcg.wgsl`). */
  const TINY: real := 1.0 / 1_000_000_000_000_000_000_000_000_000_000.0

  predicate Negligible(x: real) {
    -TINY <= x <= TINY
  }

  /** One in 10^30 either way, and nothing above it. */
  lemma NegligibleExactly(x: real)
    ensures Negligible(x) <==> -1.0 <= x * 1_000_000_000_000_000_000_000_000_000_000.0 <= 1.0
  {
  }
}
