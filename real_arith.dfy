/** Small facts about real arithmetic shared by the geometry and colour modules. The
    solver handles products of reals poorly, so every non-linear step of the other
    modules goes through one of the lemmas here, each proved on bare products. */
module RealArith {

  function Abs(v: real): real { if v < 0.0 then -v else v }

  function Max(a: real, b: real): real { if a < b then b else a }

  function Min(a: real, b: real): real { if a < b then a else b }

  /** np.clip(v, lo, hi) == minimum(maximum(v, lo), hi): v clamped into [lo, hi]. The
      nearest-point construction of the footprint and the colour ramp clamp with it too. */
  function Clip(v: real, lo: real, hi: real): (c: real)
    ensures lo <= hi ==> lo <= c <= hi
    ensures v < lo <= hi ==> c == lo
    ensures lo <= v <= hi ==> c == v
    ensures hi < v ==> c == hi
    ensures hi < lo ==> c == hi
  {
    Min(Max(v, lo), hi)
  }

  /** v ** 2. */
  function Square(v: real): real { v * v }

  lemma ProductSign(a: real, w: real)
    requires 0.0 < w
    ensures 0.0 < a ==> 0.0 < a * w
    ensures a < 0.0 ==> a * w < 0.0
  {
  }

  lemma ScaleBound(a: real, b: real, w: real)
    requires a <= b && 0.0 < w
    ensures a * w <= b * w
  {
    ProductSign(b - a, w);
    assert (b - a) * w == b * w - a * w;
  }

  lemma SquareStrict(a: real, b: real)
    requires 0.0 <= a < b
    ensures Square(a) < Square(b)
  {
    ProductSign(b - a, b + a);
    assert (b - a) * (b + a) == b * b - a * a;
  }

  lemma SquareOfNegation(a: real)
    ensures Square(-a) == Square(a)
  {
  }

  /** Zero squares to zero, anything else to a positive number. */
  lemma SquareSign(v: real)
    ensures v == 0.0 ==> Square(v) == 0.0
    ensures v != 0.0 ==> 0.0 < Square(v)
  {
    if 0.0 < v {
      SquareStrict(0.0, v);
    } else if v < 0.0 {
      SquareStrict(0.0, -v);
      SquareOfNegation(v);
    }
  }

  lemma SquareMonotone(a: real, b: real)
    requires 0.0 <= a <= b
    ensures Square(a) <= Square(b)
  {
    if a < b {
      SquareStrict(a, b);
    }
  }

  /** A non-negative number is determined by its square. */
  lemma RootUnique(s: real, r: real)
    requires 0.0 <= s && 0.0 <= r
    requires Square(s) == Square(r)
    ensures s == r
  {
    if s < r {
      SquareStrict(s, r);
    } else if r < s {
      SquareStrict(r, s);
    }
  }

  /** a / w is the q with q * w == a. */
  lemma Quotient(a: real, w: real, q: real)
    requires 0.0 < w && q * w == a
    ensures a / w == q
  {
    var p := a / w;
    assert p * w == a;
    ProductSign(q - p, w);
    assert (q - p) * w == q * w - p * w;
  }

  lemma QuotientStrict(a: real, b: real, w: real)
    requires a < b && 0.0 < w
    ensures a / w < b / w
  {
    var p, q := a / w, b / w;
    assert p * w == a && q * w == b;
    if q <= p {
      ScaleBound(q, p, w);
    }
  }

  lemma QuotientMonotone(a: real, b: real, w: real)
    requires a <= b && 0.0 < w
    ensures a / w <= b / w
  {
    if a < b {
      QuotientStrict(a, b, w);
    }
  }

  /** a / w for 0 <= a <= w: 0 at 0, 1 at w, in (0, 1] in between. */
  lemma UnitQuotient(a: real, w: real)
    requires 0.0 < w
    ensures 0.0 < a <= w ==> 0.0 < a / w <= 1.0
    ensures a == 0.0 ==> a / w == 0.0
    ensures a == w ==> a / w == 1.0
  {
    Quotient(0.0, w, 0.0);
    Quotient(w, w, 1.0);
    if 0.0 < a <= w {
      QuotientStrict(0.0, a, w);
      QuotientMonotone(a, w, w);
    }
  }

  /** Linear interpolation strictly inside [0, w] stays between its end values:
      the slope (b - a) / w times an offset 0 < u < w, plus a, lies between a and b. */
  lemma SlopeBetween(a: real, b: real, u: real, w: real)
    requires 0.0 < u < w
    ensures Min(a, b) <= (b - a) / w * u + a <= Max(a, b)
  {
    var q := (b - a) / w;
    assert q * w == b - a;
    Quotient(0.0, w, 0.0);
    if a < b {
      QuotientStrict(0.0, b - a, w);
      ProductSign(u, q);
      ScaleBound(u, w, q);
    } else if b < a {
      QuotientStrict(b - a, 0.0, w);
      ProductSign(u, -q);
      ScaleBound(u, w, -q);
    } else {
      Quotient(b - a, w, 0.0);
    }
  }
}
