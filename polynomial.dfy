/**
 * The fitted pipeline `make_pipeline(PolynomialFeatures(degree=2), LinearRegression())`
 * as plain data: the degree-2 basis expansion, laid out in scikit-learn's order,
 * and a linear model over it whose intercept and coefficients are parameters.
 */
module Polynomial {

  /** A fitted `LinearRegression` over the expanded basis: `intercept_` and `coef_`. */
  datatype Model = Model(intercept: real, coef: seq<real>)

  /** Number of monomials of degree at most 2 in `n` variables, constant included. */
  function ExpandedArity(n: nat): nat
  {
    1 + n + RowStart(n, n)
  }

  /** In closed form: 1 + n + n(n+1)/2, which is 45 for the eight features of the handler. */
  lemma ExpandedArityClosed(n: nat)
    ensures ExpandedArity(n) == 1 + n + n * (n + 1) / 2
    ensures ExpandedArity(8) == 45
  {
    RowStartAll(n);
    RowStartAll(8);
  }

  /** The model was fitted on `n` input columns. */
  predicate Fits(m: Model, n: nat)
  {
    |m.coef| == ExpandedArity(n)
  }

  /** `a * x[0], ..., a * x[|x| - 1]`. */
  function Scaled(a: real, x: seq<real>): (r: seq<real>)
    ensures |r| == |x|
  {
    seq(|x|, j requires 0 <= j < |x| => a * x[j])
  }

  /** How many pairs come before those whose first index is `i`: n + (n - 1) + ... + (n - i + 1). */
  function RowStart(n: nat, i: nat): nat
    requires i <= n
  {
    if i == 0 then 0 else RowStart(n, i - 1) + (n - (i - 1))
  }

  /**
   * The index pairs `(a, b)` with `i <= a <= b < n` in the order of
   * `combinations_with_replacement(range(n), 2)`, which is the order in which
   * `PolynomialFeatures` lays out its degree-2 terms.
   */
  function PairsFrom(n: nat, i: nat): (r: seq<(nat, nat)>)
    requires i <= n
    ensures |r| == RowStart(n, n) - RowStart(n, i)
    decreases n - i
  {
    if i == n then []
    else
      RowStartMonotone(n, i + 1, n);
      seq(n - i, d requires 0 <= d < n - i => (i, i + d)) + PairsFrom(n, i + 1)
  }

  /** Position of `x[i] * x[j]` (i <= j) among the products of `n` variables. */
  function PairIndex(n: nat, i: nat, j: nat): nat
    requires i <= j < n
  {
    RowStart(n, i) + (j - i)
  }

  lemma {:induction false} RowStartMonotone(n: nat, i: nat, a: nat)
    requires i <= a <= n
    ensures RowStart(n, i) <= RowStart(n, a)
    decreases a - i
  {
    if i < a {
      RowStartMonotone(n, i, a - 1);
    }
  }

  /** The pairs from `i` on: first `(i, i), ..., (i, n - 1)`, then the pairs from `i + 1` on. */
  lemma PairsFromIndex(n: nat, i: nat, k: nat)
    requires i < n && k < |PairsFrom(n, i)|
    ensures k < n - i ==> PairsFrom(n, i)[k] == (i, i + k)
    ensures n - i <= k ==> k - (n - i) < |PairsFrom(n, i + 1)| && PairsFrom(n, i)[k] == PairsFrom(n, i + 1)[k - (n - i)]
  {
    var row: seq<(nat, nat)> := seq(n - i, d requires 0 <= d < n - i => (i, i + d));
    var rest := PairsFrom(n, i + 1);
    assert PairsFrom(n, i) == row + rest;
    if k < n - i {
      assert (row + rest)[k] == row[k];
    } else {
      assert (row + rest)[k] == rest[k - (n - i)];
    }
  }

  /** The pair `(a, b)` sits at its closed-form position. */
  lemma {:induction false} PairsFromAt(n: nat, i: nat, a: nat, b: nat)
    requires i <= a <= b < n
    ensures RowStart(n, i) <= PairIndex(n, a, b) < RowStart(n, n)
    ensures PairsFrom(n, i)[PairIndex(n, a, b) - RowStart(n, i)] == (a, b)
    decreases a - i
  {
    RowStartMonotone(n, a + 1, n);
    assert RowStart(n, a + 1) == RowStart(n, a) + (n - a);
    var k := PairIndex(n, a, b) - RowStart(n, i);
    if a == i {
      PairsFromIndex(n, i, k);
    } else {
      RowStartMonotone(n, i + 1, a);
      assert RowStart(n, i + 1) == RowStart(n, i) + (n - i);
      PairsFromAt(n, i + 1, a, b);
      var rest := PairsFrom(n, i + 1);
      var k' := PairIndex(n, a, b) - RowStart(n, i + 1);
      assert 0 <= k' < |rest| && rest[k'] == (a, b);
      assert k == k' + (n - i);
      PairsFromIndex(n, i, k);
    }
  }

  /** Every position holds a pair `(a, b)`, at its closed-form position. */
  lemma {:induction false} PairsFromCover(n: nat, i: nat, k: nat)
    requires i <= n && k < |PairsFrom(n, i)|
    ensures var (a, b) := PairsFrom(n, i)[k];
            a <= b < n && RowStart(n, i) + k == PairIndex(n, a, b)
    decreases n - i
  {
    PairsFromIndex(n, i, k);
    if k >= n - i {
      PairsFromCover(n, i + 1, k - (n - i));
    }
  }

  lemma {:induction false} RowStartAll(n: nat)
    ensures RowStart(n, n) == n * (n + 1) / 2
    decreases n
  {
    if n > 0 {
      RowStartAll(n - 1);
      RowStartStep(n, n);
      assert (n - 1) * n + 2 * n == n * (n + 1);
      assert n * (n + 1) / 2 == (n - 1) * n / 2 + n;
    }
  }

  lemma {:induction false} RowStartStep(n: nat, i: nat)
    requires 1 <= i <= n
    ensures RowStart(n, i) == n + RowStart(n - 1, i - 1)
    decreases i
  {
    if i > 1 {
      RowStartStep(n, i - 1);
    }
  }

  /** The degree-2 products x[a] * x[b], one per index pair, in scikit-learn's order. */
  function Products(x: seq<real>): (r: seq<real>)
    ensures |r| == RowStart(|x|, |x|)
  {
    var pairs := PairsFrom(|x|, 0);
    seq(|pairs|, k requires 0 <= k < |pairs| => PairsFromCover(|x|, 0, k); x[pairs[k].0] * x[pairs[k].1])
  }

  /** `PolynomialFeatures(degree=2).transform` of one row: bias, the features, then the products. */
  function Expand(x: seq<real>): (r: seq<real>)
    ensures |r| == ExpandedArity(|x|)
    ensures r[0] == 1.0 && r[1..1 + |x|] == x
  {
    [1.0] + x + Products(x)
  }

  /** Every product of two features sits at its closed-form position. */
  lemma ProductAt(x: seq<real>, i: nat, j: nat)
    requires i <= j < |x|
    ensures PairIndex(|x|, i, j) < |Products(x)|
    ensures Products(x)[PairIndex(|x|, i, j)] == x[i] * x[j]
  {
    var pairs := PairsFrom(|x|, 0);
    var k := PairIndex(|x|, i, j);
    PairsFromAt(|x|, 0, i, j);
    assert pairs[k] == (i, j);
  }

  /** Conversely, every product position holds the product of some pair `i <= j`. */
  lemma ProductsCover(x: seq<real>, k: nat)
    requires k < |Products(x)|
    ensures exists i: nat, j: nat :: i <= j < |x| && k == PairIndex(|x|, i, j) && Products(x)[k] == x[i] * x[j]
  {
    PairsFromCover(|x|, 0, k);
    var (i, j) := PairsFrom(|x|, 0)[k];
    assert Products(x)[k] == x[i] * x[j];
  }

  /**
   * The expanded basis: the constant 1, each feature, and each product of two
   * features, at scikit-learn's positions; `ExpandedArity(n)` terms in all.
   */
  lemma ExpandLayout(x: seq<real>)
    ensures |Expand(x)| == ExpandedArity(|x|)
    ensures Expand(x)[0] == 1.0
    ensures forall i :: 0 <= i < |x| ==> Expand(x)[1 + i] == x[i]
    ensures forall i: nat, j: nat :: i <= j < |x| ==>
              1 + |x| + PairIndex(|x|, i, j) < |Expand(x)| &&
              Expand(x)[1 + |x| + PairIndex(|x|, i, j)] == x[i] * x[j]
  {
    forall i: nat, j: nat | i <= j < |x|
      ensures 1 + |x| + PairIndex(|x|, i, j) < |Expand(x)|
      ensures Expand(x)[1 + |x| + PairIndex(|x|, i, j)] == x[i] * x[j]
    {
      ProductAt(x, i, j);
    }
  }

  /** Sum of `c[k] * v[k]`. */
  function Dot(c: seq<real>, v: seq<real>): real
    requires |c| == |v|
    decreases |c|
  {
    if |c| == 0 then 0.0 else c[0] * v[0] + Dot(c[1..], v[1..])
  }

  /** `model.predict` on one row of `n` features: intercept plus coefficients dotted with the basis. */
  function Predict(m: Model, x: seq<real>): real
    requires Fits(m, |x|)
  {
    m.intercept + Dot(m.coef, Expand(x))
  }

  /**
   * The prediction is the intercept, plus the coefficient of the constant
   * term, plus a linear part over the features, plus a part over the
   * degree-2 products, each weighted by its own coefficients.
   */
  lemma PredictTerms(m: Model, x: seq<real>)
    requires Fits(m, |x|)
    ensures var n := |x|;
            Predict(m, x) ==
              m.intercept + m.coef[0] + Dot(m.coef[1..1 + n], x) + Dot(m.coef[1 + n..], Expand(x)[1 + n..])
  {
    var n := |x|;
    var c, e := m.coef, Expand(x);
    var c0, c1, c2 := c[..1], c[1..1 + n], c[1 + n..];
    var e2 := e[1 + n..];
    SplitThree(c, n);
    ExpandSplit(x);
    DotAppend(c0 + c1, c2, [1.0] + x, e2);
    DotAppend(c0, c1, [1.0], x);
    DotSingle(c0, 1.0);
  }

  lemma SplitThree(c: seq<real>, n: nat)
    requires 1 + n <= |c|
    ensures c == (c[..1] + c[1..1 + n]) + c[1 + n..]
  {
  }

  lemma ExpandSplit(x: seq<real>)
    ensures Expand(x) == ([1.0] + x) + Expand(x)[1 + |x|..]
  {
  }

  lemma DotSingle(c: seq<real>, v: real)
    requires |c| == 1
    ensures Dot(c, [v]) == c[0] * v
  {
    assert Dot(c[1..], [v][1..]) == 0.0;
  }

  /** The dot product of two concatenations is the sum of the parts' dot products. */
  lemma {:induction false} DotAppend(c: seq<real>, d: seq<real>, u: seq<real>, v: seq<real>)
    requires |c| == |u| && |d| == |v|
    ensures Dot(c + d, u + v) == Dot(c, u) + Dot(d, v)
    decreases |c|
  {
    if |c| == 0 {
      assert c + d == d && u + v == v;
    } else {
      assert (c + d)[1..] == c[1..] + d && (u + v)[1..] == u[1..] + v;
      DotAppend(c[1..], d, u[1..], v);
    }
  }

  /** The coefficient vector of length `n` that selects only term `k`. */
  function Unit(n: nat, k: nat): (r: seq<real>)
    ensures |r| == n
  {
    seq(n, i requires 0 <= i < n => if i == k then 1.0 else 0.0)
  }

  /** Selecting one term of the basis reads off exactly that term. */
  lemma {:induction false} DotUnit(n: nat, k: nat, v: seq<real>)
    requires k < n == |v|
    ensures Dot(Unit(n, k), v) == v[k]
    decreases n
  {
    if k == 0 {
      DotZero(n - 1, v[1..]);
      assert Unit(n, k)[1..] == seq(n - 1, i requires 0 <= i < n - 1 => 0.0);
    } else {
      assert Unit(n, k)[1..] == Unit(n - 1, k - 1);
      DotUnit(n - 1, k - 1, v[1..]);
    }
  }

  lemma {:induction false} DotZero(n: nat, v: seq<real>)
    requires n == |v|
    ensures Dot(seq(n, i requires 0 <= i < n => 0.0), v) == 0.0
    decreases n
  {
    if n > 0 {
      assert seq(n, i requires 0 <= i < n => 0.0)[1..] == seq(n - 1, i requires 0 <= i < n - 1 => 0.0);
      DotZero(n - 1, v[1..]);
    }
  }

  /** Coefficients add: the prediction is affine in the coefficient vector. */
  lemma {:induction false} DotAdd(c: seq<real>, d: seq<real>, v: seq<real>)
    requires |c| == |d| == |v|
    ensures Dot(seq(|c|, k requires 0 <= k < |c| => c[k] + d[k]), v) == Dot(c, v) + Dot(d, v)
    decreases |c|
  {
    if |c| > 0 {
      var s := seq(|c|, k requires 0 <= k < |c| => c[k] + d[k]);
      assert s[1..] == seq(|c| - 1, k requires 0 <= k < |c| - 1 => c[1..][k] + d[1..][k]);
      DotAdd(c[1..], d[1..], v[1..]);
    }
  }

  /**
   * The quadratic part is really applied: a model whose only nonzero
   * coefficient is the one of `x[i] * x[j]` predicts exactly that product.
   */
  lemma QuadraticTermApplied(x: seq<real>, i: nat, j: nat)
    requires i <= j < |x|
    ensures Predict(Model(0.0, Unit(ExpandedArity(|x|), 1 + |x| + PairIndex(|x|, i, j))), x) == x[i] * x[j]
  {
    var k := 1 + |x| + PairIndex(|x|, i, j);
    var e := Expand(x);
    ProductAt(x, i, j);
    assert e[k] == Products(x)[PairIndex(|x|, i, j)];
    DotUnit(ExpandedArity(|x|), k, e);
  }

  lemma ScaledProduct(c: real, a: real, b: real, p: real, q: real)
    requires p == a * b && q == (c * a) * (c * b)
    ensures q == (c * c) * p
  {
  }

  /**
   * Hence the prediction is not linear in the features: scaling every feature
   * by `c` scales the isolated product term `x[i] * x[j]` by `c * c`, not by `c`.
   */
  lemma ScalingIsQuadratic(x: seq<real>, i: nat, j: nat, c: real)
    requires i <= j < |x|
    ensures var m := Model(0.0, Unit(ExpandedArity(|x|), 1 + |x| + PairIndex(|x|, i, j)));
            Predict(m, Scaled(c, x)) == (c * c) * Predict(m, x)
  {
    var m := Model(0.0, Unit(ExpandedArity(|x|), 1 + |x| + PairIndex(|x|, i, j)));
    var y := Scaled(c, x);
    var a, b := x[i], x[j];
    assert y[i] == c * a && y[j] == c * b;
    var p, q := Predict(m, x), Predict(m, y);
    assert p == a * b by {
      QuadraticTermApplied(x, i, j);
    }
    assert q == (c * a) * (c * b) by {
      QuadraticTermApplied(y, i, j);
    }
    ScaledProduct(c, a, b, p, q);
  }
}
