/** Embeddings scaled to length one and padded to one width, over exact reals: no comparison changes. */
module Embeddings {

  const WIDTH := 4100

  type Vector = seq<real>

  datatype PrepareError = UnknownModel | WidthExceedsCanonical(got: nat) | WidthExceedsNative(got: nat, native: nat)
    | ZeroVector

  datatype Prepared = Embedding(vector: Vector) | Refused(error: PrepareError)

  /** A registered model's native width, if the model is known. */
  datatype Registration = Registered(native: nat) | Unregistered

  /** `root` gives the positive square root of everything that has one. */
  ghost predicate Roots(root: real -> real) {
    forall x: real :: x >= 0.0 ==> root(x) >= 0.0 && root(x) * root(x) == x
  }

  // ---------------------------------------------------------------------
  // Vectors
  // ---------------------------------------------------------------------

  /** The sum of the products of the first `n` components. */
  function Dot(u: Vector, v: Vector, n: nat): real
    requires n <= |u| && n <= |v|
  {
    if n == 0 then 0.0 else Dot(u, v, n - 1) + u[n - 1] * v[n - 1]
  }

  /** The sum of the squares of the differences of the first `n` components. */
  function SquaredDistance(u: Vector, v: Vector, n: nat): real
    requires n <= |u| && n <= |v|
  {
    if n == 0 then 0.0 else SquaredDistance(u, v, n - 1) + (u[n - 1] - v[n - 1]) * (u[n - 1] - v[n - 1])
  }

  function Norm(v: Vector, root: real -> real): real {
    root(Dot(v, v, |v|))
  }

  function Scaled(raw: Vector, norm: real): Vector
    requires norm != 0.0
  {
    seq(|raw|, i requires 0 <= i < |raw| => raw[i] / norm)
  }

  function Zeros(n: nat): Vector {
    seq(n, _ => 0.0)
  }

  // ---------------------------------------------------------------------
  // The database's helpers
  // ---------------------------------------------------------------------

  datatype Padded = Vector(v: Vector) | Null

  /** `emb_pad` */
  function EmbPad(v: Vector): Padded {
    if |v| == WIDTH then Padded.Vector(v)
    else if |v| > WIDTH then Null
    else Padded.Vector(v + Zeros(WIDTH - |v|))
  }

  /** `emb_is_zero_padded` */
  predicate EmbIsZeroPadded(v: Vector, native: int, root: real -> real) {
    if |v| != WIDTH then false
    else if native < 1 || native > WIDTH then false
    else if native == WIDTH then true
    else Norm(v[native..], root) == 0.0
  }

  /** `emb_is_unit` */
  predicate EmbIsUnit(v: Vector, tolerance: real, root: real -> real) {
    -tolerance <= Norm(v, root) - 1.0 <= tolerance
  }

  // ---------------------------------------------------------------------
  // Preparation
  // ---------------------------------------------------------------------

  /** What preparation makes of an accepted vector. */
  function Canonical(raw: Vector, norm: real): Vector
    requires norm > 0.0 && |raw| <= WIDTH
  {
    Scaled(raw, norm) + Zeros(WIDTH - |raw|)
  }

  lemma PaddedIsCanonical(raw: Vector, norm: real)
    requires norm > 0.0 && |raw| <= WIDTH
    ensures EmbPad(Scaled(raw, norm)) == Padded.Vector(Canonical(raw, norm))
  {
    assert |raw| == WIDTH ==> Scaled(raw, norm) + Zeros(0) == Scaled(raw, norm);
  }

  /** `v` times `norm` is `raw`, component by component, and after that `v` is zero. */
  predicate Stretches(v: Vector, norm: real, raw: Vector) {
    && |raw| <= |v| && (forall i :: 0 <= i < |raw| ==> v[i] * norm == raw[i])
    && forall i :: |raw| <= i < |v| ==> v[i] == 0.0
  }

  /** The components of an accepted vector, one by one. */
  lemma CanonicalComponents(raw: Vector, norm: real)
    requires norm > 0.0 && |raw| <= 4100
    ensures var v := Canonical(raw, norm);
      && |v| == 4100
      && Stretches(v, norm, raw)
  {
    var v := Canonical(raw, norm);
    forall i | 0 <= i < |raw| ensures v[i] * norm == raw[i] {
      assert v[i] == raw[i] / norm;
    }
  }

  method PrepareEmbedding(model: Registration, raw: Vector, root: real -> real) returns (r: Prepared)
    ensures model.Unregistered? ==> r == Refused(UnknownModel)
    ensures model.Registered? && |raw| > 4100 ==> r == Refused(WidthExceedsCanonical(|raw|))
    ensures model.Registered? && model.native < |raw| <= 4100 ==> r == Refused(WidthExceedsNative(|raw|, model.native))
    ensures model.Registered? && |raw| <= model.native && |raw| <= 4100 && Norm(raw, root) <= 0.0 ==>
      r == Refused(ZeroVector)
    ensures model.Registered? && |raw| <= model.native && |raw| <= 4100 && Norm(raw, root) > 0.0 ==>
      && r.Embedding? && |r.vector| == 4100
      && Stretches(r.vector, Norm(raw, root), raw)
      && EmbPad(Scaled(raw, Norm(raw, root))) == Padded.Vector(r.vector)
  {
    if model.Unregistered? {
      return Refused(UnknownModel);
    }
    if |raw| > WIDTH {
      return Refused(WidthExceedsCanonical(|raw|));
    }
    if |raw| > model.native {
      return Refused(WidthExceedsNative(|raw|, model.native));
    }
    var sum := 0.0;
    for i := 0 to |raw|
      invariant sum == Dot(raw, raw, i)
    {
      sum := sum + raw[i] * raw[i];
    }
    var norm := root(sum);
    if !(norm > 0.0) {
      return Refused(ZeroVector);
    }
    var out := new real[WIDTH](_ => 0.0);
    for i := 0 to |raw|
      invariant forall k :: 0 <= k < i ==> out[k] == raw[k] / norm
      invariant forall k :: i <= k < WIDTH ==> out[k] == 0.0
    {
      out[i] := raw[i] / norm;
    }
    assert out[..] == Canonical(raw, norm);
    CanonicalComponents(raw, norm);
    PaddedIsCanonical(raw, norm);
    r := Embedding(out[..]);
  }

  // ---------------------------------------------------------------------
  // Products and distances
  // ---------------------------------------------------------------------

  /** `x`, scaled back by both norms, is `p`. */
  predicate ScalesTo(x: real, l: real, m: real, p: real) {
    x * (l * m) == p
  }

  lemma ProductOfQuotients(a: real, b: real, m: real, n: real)
    requires m > 0.0 && n > 0.0
    ensures a / m * (b / n) * (m * n) == a * b
  {
    var p, q := a / m, b / n;
    assert p * m == a && q * n == b;
    assert p * q * (m * n) == (p * m) * (q * n);
  }

  lemma Distribute(x: real, y: real, c: real)
    ensures (x + y) * c == x * c + y * c
  {
  }

  lemma {:induction false} DotOfScaled(a: Vector, b: Vector, m: real, n: real, k: nat)
    requires m > 0.0 && n > 0.0 && k <= |a| <= WIDTH && k <= |b| <= WIDTH
    ensures ScalesTo(Dot(Canonical(a, m), Canonical(b, n), k), m, n, Dot(a, b, k))
    decreases k
  {
    if k == 0 {
    } else {
      var u, v := Canonical(a, m), Canonical(b, n);
      DotOfScaled(a, b, m, n, k - 1);
      ProductOfQuotients(a[k - 1], b[k - 1], m, n);
      assert u[k - 1] == a[k - 1] / m && v[k - 1] == b[k - 1] / n;
      Distribute(Dot(u, v, k - 1), u[k - 1] * v[k - 1], m * n);
    }
  }

  /** Past the shorter vector there is only padding. */
  lemma {:induction false} DotOfPadding(u: Vector, v: Vector, from: nat, k: nat)
    requires from <= k <= |u| && k <= |v|
    requires forall i :: from <= i < k ==> u[i] == 0.0 || v[i] == 0.0
    ensures Dot(u, v, k) == Dot(u, v, from)
    decreases k
  {
    if k == from {
    } else {
      DotOfPadding(u, v, from, k - 1);
    }
  }

  function Min(a: nat, b: nat): nat {
    if a < b then a else b
  }

  lemma BeyondShorter(a: Vector, b: Vector, m: real, n: real)
    requires m > 0.0 && n > 0.0 && |a| <= WIDTH && |b| <= WIDTH
    ensures Dot(Canonical(a, m), Canonical(b, n), WIDTH) == Dot(Canonical(a, m), Canonical(b, n), Min(|a|, |b|))
  {
    DotOfPadding(Canonical(a, m), Canonical(b, n), Min(|a|, |b|), WIDTH);
  }

  /** Up to the norms, canonical vectors multiply like the source vectors over the prefix these share. */
  lemma DotsAreKept(a: Vector, b: Vector, m: real, n: real)
    requires m > 0.0 && n > 0.0 && |a| <= WIDTH && |b| <= WIDTH
    ensures ScalesTo(Dot(Canonical(a, m), Canonical(b, n), WIDTH), m, n, Dot(a, b, Min(|a|, |b|)))
  {
    BeyondShorter(a, b, m, n);
    DotOfScaled(a, b, m, n, Min(|a|, |b|));
  }

  lemma {:induction false} SquaresAreNotNegative(v: Vector, k: nat)
    requires k <= |v|
    ensures Dot(v, v, k) >= 0.0
    decreases k
  {
    if k == 0 {
    } else {
      SquaresAreNotNegative(v, k - 1);
    }
  }

  lemma DifferenceOfSquares(x: real, y: real, d: real, s: real)
    requires d == y - x && s == y + x
    ensures y * y - x * x == d * s
  {
  }

  lemma Positive(x: real, y: real)
    requires x > 0.0 && y > 0.0
    ensures x * y > 0.0
  {
  }

  lemma Product(x: real, y: real, s: real)
    requires x > 0.0 && y > 0.0 && s == x * y
    ensures s > 0.0
  {
  }

  lemma SquareIsMonotone(x: real, y: real)
    requires 0.0 <= x <= y
    ensures 0.0 <= x * x <= y * y && (x < y ==> x * x < y * y)
  {
    DifferenceOfSquares(x, y, y - x, y + x);
    if x == 0.0 {
      assert x * x == 0.0;
    } else {
      Positive(x, x);
    }
    if x < y {
      Positive(y - x, y + x);
    }
  }

  lemma RootOfSquare(root: real -> real, x: real)
    requires Roots(root) && x >= 0.0
    ensures root(x * x) == x
  {
    var y := root(x * x);
    SquareIsMonotone(0.0, x);
    assert y * y == x * x && y >= 0.0;
    if x < y {
      SquareIsMonotone(x, y);
    } else if y < x {
      SquareIsMonotone(y, x);
    }
  }

  lemma Cancel(d: real, m: real, n: real, e: real)
    requires d * (m * n) == e && e == m * n && m > 0.0 && n > 0.0
    ensures d == 1.0
  {
    var c := m * n;
    assert c > 0.0;
    assert (d - 1.0) * c == 0.0;
  }

  /** What scales to the square of the norm is one. */
  lemma Unscaled(d: real, m: real, p: real)
    requires m > 0.0 && ScalesTo(d, m, m, p) && p == m * m
    ensures d == 1.0
  {
    Cancel(d, m, m, p);
  }

  lemma NormSquared(raw: Vector, root: real -> real)
    requires Roots(root)
    ensures Norm(raw, root) * Norm(raw, root) == Dot(raw, raw, |raw|)
  {
    SquaresAreNotNegative(raw, |raw|);
  }

  lemma UnitLength(raw: Vector, norm: real)
    requires norm > 0.0 && |raw| <= WIDTH && norm * norm == Dot(raw, raw, |raw|)
    ensures Dot(Canonical(raw, norm), Canonical(raw, norm), WIDTH) == 1.0
  {
    DotsAreKept(raw, raw, norm, norm);
    Unscaled(Dot(Canonical(raw, norm), Canonical(raw, norm), WIDTH), norm, Dot(raw, raw, |raw|));
  }

  /** An accepted vector comes out with length one. */
  lemma CanonicalIsUnit(raw: Vector, root: real -> real)
    requires Roots(root) && |raw| <= WIDTH && Norm(raw, root) > 0.0
    ensures var v := Canonical(raw, Norm(raw, root));
      |v| == WIDTH && Dot(v, v, WIDTH) == 1.0 && EmbIsUnit(v, 0.0, root)
  {
    NormSquared(raw, root);
    UnitLength(raw, Norm(raw, root));
    RootOfSquare(root, 1.0);
  }

  /** The square of a negative number is one of a positive number. */
  lemma Negated(x: real) returns (y: real)
    requires x < 0.0
    ensures y > 0.0 && y * y == x * x
  {
    y := -x;
    DifferenceOfSquares(x, y, y - x, y + x);
    assert (y - x) * 0.0 == 0.0;
  }

  lemma SquareOfNothing(x: real, s: real)
    requires s == x * x
    ensures s >= 0.0 && (s == 0.0 <==> x == 0.0)
  {
    if x == 0.0 {
      assert s == 0.0;
    } else if x > 0.0 {
      Product(x, x, s);
    } else {
      var y := Negated(x);
      Product(y, y, s);
    }
  }

  lemma {:induction false} NoSquares(v: Vector, k: nat)
    requires k <= |v|
    ensures Dot(v, v, k) == 0.0 <==> forall i :: 0 <= i < k ==> v[i] == 0.0
    decreases k
  {
    if k == 0 {
    } else {
      NoSquares(v, k - 1);
      SquaresAreNotNegative(v, k - 1);
      SquareOfNothing(v[k - 1], v[k - 1] * v[k - 1]);
    }
  }

  /** The tail check holds of the vectors of full width that are zero from the native width on, and of no other. */
  lemma ZeroPaddedExactly(v: Vector, native: int, root: real -> real)
    requires Roots(root)
    ensures EmbIsZeroPadded(v, native, root) <==>
      |v| == 4100 && 1 <= native <= 4100 && forall i :: native <= i < 4100 ==> v[i] == 0.0
  {
    if |v| == WIDTH && 1 <= native < WIDTH {
      var tail := v[native..];
      var norm := Norm(tail, root);
      SquaresAreNotNegative(tail, |tail|);
      SquareOfNothing(norm, norm * norm);
      NoSquares(tail, |tail|);
      assert forall i :: 0 <= i < |tail| ==> tail[i] == v[native + i];
      assert forall i :: native <= i < WIDTH ==> v[i] == tail[i - native];
    }
  }

  lemma NormBetween(norm: real, low: real, high: real)
    requires norm >= 0.0 && 0.0 <= low && 0.0 <= high
    ensures low <= norm <= high <==> low * low <= norm * norm <= high * high
  {
    if low <= norm {
      SquareIsMonotone(low, norm);
    } else {
      SquareIsMonotone(norm, low);
    }
    if norm <= high {
      SquareIsMonotone(norm, high);
    } else {
      SquareIsMonotone(high, norm);
    }
  }

  /** The length check, without the root. */
  lemma UnitExactly(v: Vector, tolerance: real, root: real -> real)
    requires Roots(root) && 0.0 <= tolerance <= 1.0
    ensures EmbIsUnit(v, tolerance, root) <==>
      (1.0 - tolerance) * (1.0 - tolerance) <= Dot(v, v, |v|) <= (1.0 + tolerance) * (1.0 + tolerance)
  {
    NormSquared(v, root);
    SquaresAreNotNegative(v, |v|);
    NormBetween(Norm(v, root), 1.0 - tolerance, 1.0 + tolerance);
  }

  /** Padding keeps the vector, adds zeros up to the full width, and refuses what is wider. */
  lemma PadsExactly(v: Vector)
    ensures EmbPad(v).Null? <==> |v| > 4100
    ensures EmbPad(v).Vector? ==> var p := EmbPad(v).v;
      |p| == 4100 && p[..|v|] == v && forall i :: |v| <= i < 4100 ==> p[i] == 0.0
  {
  }

  lemma TailIsZero(raw: Vector, native: nat, root: real -> real)
    requires Roots(root) && |raw| <= native <= WIDTH && Norm(raw, root) > 0.0 && root(0.0) == 0.0
    ensures Norm(Canonical(raw, Norm(raw, root))[native..], root) == 0.0
  {
    var tail := Canonical(raw, Norm(raw, root))[native..];
    DotOfPadding(tail, tail, 0, |tail|);
  }

  /** Its tail is zero, as the database checks it for the vector's own width and for any greater native width. */
  lemma CanonicalIsZeroPadded(raw: Vector, native: nat, root: real -> real)
    requires Roots(root) && |raw| <= native <= WIDTH && Norm(raw, root) > 0.0
    ensures EmbIsZeroPadded(Canonical(raw, Norm(raw, root)), native, root)
    ensures EmbIsZeroPadded(Canonical(raw, Norm(raw, root)), |raw|, root)
  {
    RootOfSquare(root, 0.0);
    assert raw != [];
    TailIsZero(raw, native, root);
    TailIsZero(raw, |raw|, root);
  }

  /** Distance, product and lengths of any two vectors. */
  lemma {:induction false} DistanceByProduct(u: Vector, v: Vector, k: nat)
    requires k <= |u| && k <= |v|
    ensures SquaredDistance(u, v, k) == Dot(u, u, k) + Dot(v, v, k) - 2.0 * Dot(u, v, k)
    decreases k
  {
    if k == 0 {
    } else {
      DistanceByProduct(u, v, k - 1);
      var a, b := u[k - 1], v[k - 1];
      assert (a - b) * (a - b) == a * a + b * b - 2.0 * (a * b);
    }
  }

  lemma UnitDistance(u: Vector, v: Vector)
    requires |u| == |v| == WIDTH && Dot(u, u, WIDTH) == 1.0 && Dot(v, v, WIDTH) == 1.0
    ensures SquaredDistance(u, v, WIDTH) == 2.0 - 2.0 * Dot(u, v, WIDTH)
  {
    DistanceByProduct(u, v, WIDTH);
  }

  /** For any query at all, the nearer of two stored vectors is the one with the greater product. */
  lemma RankingsAgree(query: Vector, a: Vector, b: Vector)
    requires |query| == |a| == |b| == WIDTH && Dot(a, a, WIDTH) == 1.0 && Dot(b, b, WIDTH) == 1.0
    ensures SquaredDistance(query, a, WIDTH) < SquaredDistance(query, b, WIDTH) <==>
      Dot(query, a, WIDTH) > Dot(query, b, WIDTH)
  {
    DistanceByProduct(query, a, WIDTH);
    DistanceByProduct(query, b, WIDTH);
  }

  lemma StoredProduct(q: Vector, a: Vector, l: real, m: real)
    requires l > 0.0 && m > 0.0 && |q| == |a| <= WIDTH
    ensures ScalesTo(Dot(Canonical(q, l), Canonical(a, m), WIDTH), l, m, Dot(q, a, |q|))
  {
    DotsAreKept(q, a, l, m);
  }

  /**
    The cosine with one vector is greater than with another, where `p` and `r` are products with sources of norms `m`
    and `n`.
   */
  predicate CosineGreater(p: real, m: real, r: real, n: real) {
    p * n > r * m
  }

  lemma Regroup(x: real, l: real, m: real, n: real, c: real)
    requires c == l * m * n
    ensures x * (l * m) * n == x * c
  {
  }

  lemma Swap(x: real, l: real, m: real, n: real, c: real)
    requires c == l * m * n
    ensures x * (l * n) * m == x * c
  {
  }

  lemma Compare(x: real, y: real, c: real, p: real, q: real)
    requires c > 0.0 && p == x * c && q == y * c
    ensures x > y <==> p > q
  {
    if x > y {
      Product(x - y, c, (x - y) * c);
    } else if y > x {
      Product(y - x, c, (y - x) * c);
    }
  }

  lemma ScaledComparison(x: real, y: real, l: real, m: real, n: real, p: real, q: real)
    requires l > 0.0 && m > 0.0 && n > 0.0
    requires p == x * (l * m) && q == y * (l * n)
    ensures x > y <==> p * n > q * m
  {
    var c := l * m * n;
    Product(l, m, l * m);
    Product(l * m, n, c);
    Regroup(x, l, m, n, c);
    Swap(y, l, m, n, c);
    Compare(x, y, c, p * n, q * m);
  }

  lemma StoredComparison(x: real, y: real, l: real, m: real, n: real, p: real, r: real)
    requires l > 0.0 && m > 0.0 && n > 0.0 && ScalesTo(x, l, m, p) && ScalesTo(y, l, n, r)
    ensures x > y <==> CosineGreater(p, m, r, n)
  {
    ScaledComparison(x, y, l, m, n, p, r);
  }

  lemma ProductsCompare(q: Vector, a: Vector, b: Vector, l: real, m: real, n: real)
    requires l > 0.0 && m > 0.0 && n > 0.0 && |q| == |a| == |b| <= WIDTH
    ensures Dot(Canonical(q, l), Canonical(a, m), WIDTH) > Dot(Canonical(q, l), Canonical(b, n), WIDTH)
      <==> CosineGreater(Dot(q, a, |q|), m, Dot(q, b, |q|), n)
  {
    StoredProduct(q, a, l, m);
    StoredProduct(q, b, l, n);
    StoredComparison(Dot(Canonical(q, l), Canonical(a, m), WIDTH), Dot(Canonical(q, l), Canonical(b, n), WIDTH),
                     l, m, n, Dot(q, a, |q|), Dot(q, b, |q|));
  }

  lemma StoredRanking(q: Vector, a: Vector, b: Vector, l: real, m: real, n: real)
    requires l > 0.0 && m > 0.0 && n > 0.0 && |q| == |a| == |b| <= WIDTH
    requires Dot(Canonical(a, m), Canonical(a, m), WIDTH) == 1.0 && Dot(Canonical(b, n), Canonical(b, n), WIDTH) == 1.0
    ensures
      SquaredDistance(Canonical(q, l), Canonical(a, m), WIDTH)
      < SquaredDistance(Canonical(q, l), Canonical(b, n), WIDTH)
      <==> CosineGreater(Dot(q, a, |q|), m, Dot(q, b, |q|), n)
  {
    RankingsAgree(Canonical(q, l), Canonical(a, m), Canonical(b, n));
    ProductsCompare(q, a, b, l, m, n);
  }

  /**
    Storing changes no ranking: for source vectors of one width, the nearer stored vector is the one whose source
    has the greater cosine with the query's source, written without division.
   */
  lemma StoredRankingIsCosineRanking(q: Vector, a: Vector, b: Vector, root: real -> real)
    requires Roots(root) && |q| == |a| == |b| <= WIDTH
    requires Norm(q, root) > 0.0 && Norm(a, root) > 0.0 && Norm(b, root) > 0.0
    ensures
      var m, n, k := Norm(a, root), Norm(b, root), |q|;
      var sq, sa, sb := Canonical(q, Norm(q, root)), Canonical(a, m), Canonical(b, n);
      SquaredDistance(sq, sa, WIDTH) < SquaredDistance(sq, sb, WIDTH) <==>
        CosineGreater(Dot(q, a, k), m, Dot(q, b, k), n)
  {
    NormSquared(a, root);
    UnitLength(a, Norm(a, root));
    NormSquared(b, root);
    UnitLength(b, Norm(b, root));
    StoredRanking(q, a, b, Norm(q, root), Norm(a, root), Norm(b, root));
  }
}
