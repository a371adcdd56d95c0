/** Polynomial identities behind the Moller-Trumbore test, stated over the
    coordinates of the vectors as plain reals.  Throughout, `e` and `f` are the
    two triangle edges (`e1`, `e2` in the kernel), `d` the segment direction,
    `h = d x f`, `s` the offset of the segment start from the first vertex and
    `q = s x e`; the determinant is `det = e . h`. */
module Algebra {

  /** `(x / a) a == x`, written as the test writes the division. */
  lemma InverseTimes(a: real, x: real)
    requires a != 0.0
    ensures ((1.0 / a) * x) * a == x
  {
  }

  /** Dividing one coordinate of Cramer's rule by the determinant. */
  lemma Divided(a: real, s: real, d: real, e: real, g: real, u: real, v: real, t: real, uu: real, vv: real, tt: real)
    requires a != 0.0 && u * a == uu && v * a == vv && t * a == tt
    requires a * s + tt * d == uu * e + vv * g
    ensures s + t * d == u * e + v * g
  {
    assert (s + t * d - u * e - v * g) * a == 0.0;
  }

  /** `x / a == u` when `x == u a`. */
  lemma CancelBy(a: real, x: real, u: real)
    requires a != 0.0 && x == u * a
    ensures (1.0 / a) * x == u
  {
  }

  /** For `s = u e + v f - t d`, the dot product `s . h` is `u det`. */
  lemma SubstU(s1: real, s2: real, s3: real, e1: real, e2: real, e3: real, f1: real, f2: real, f3: real,
               d1: real, d2: real, d3: real, u: real, v: real, t: real, h1: real, h2: real, h3: real, det: real)
    requires s1 == (u * e1 + v * f1) - t * d1 && s2 == (u * e2 + v * f2) - t * d2 && s3 == (u * e3 + v * f3) - t * d3
    requires h1 == d2 * f3 - d3 * f2 && h2 == d3 * f1 - d1 * f3 && h3 == d1 * f2 - d2 * f1
    requires det == e1 * h1 + e2 * h2 + e3 * h3
    ensures s1 * h1 + s2 * h2 + s3 * h3 == u * det
  {
  }

  /** One coordinate of `q = s x e` for `s = u e + v f - t d`. */
  lemma QComponent(s2: real, s3: real, e2: real, e3: real, f2: real, f3: real, d2: real, d3: real,
                   u: real, v: real, t: real, q1: real)
    requires s2 == (u * e2 + v * f2) - t * d2 && s3 == (u * e3 + v * f3) - t * d3
    requires q1 == s2 * e3 - s3 * e2
    ensures q1 == v * (f2 * e3 - f3 * e2) - t * (d2 * e3 - d3 * e2)
  {
  }

  /** Expansion of `w . q` once the coordinates of `q` are known. */
  lemma DotQ(w1: real, w2: real, w3: real, e1: real, e2: real, e3: real, f1: real, f2: real, f3: real,
             d1: real, d2: real, d3: real, v: real, t: real, q1: real, q2: real, q3: real)
    requires q1 == v * (f2 * e3 - f3 * e2) - t * (d2 * e3 - d3 * e2)
    requires q2 == v * (f3 * e1 - f1 * e3) - t * (d3 * e1 - d1 * e3)
    requires q3 == v * (f1 * e2 - f2 * e1) - t * (d1 * e2 - d2 * e1)
    ensures w1 * q1 + w2 * q2 + w3 * q3
         == v * (w1 * (f2 * e3 - f3 * e2) + w2 * (f3 * e1 - f1 * e3) + w3 * (f1 * e2 - f2 * e1))
          - t * (w1 * (d2 * e3 - d3 * e2) + w2 * (d3 * e1 - d1 * e3) + w3 * (d1 * e2 - d2 * e1))
  {
  }

  /** `d . q == v det`. */
  lemma DotQV(e1: real, e2: real, e3: real, f1: real, f2: real, f3: real, d1: real, d2: real, d3: real,
              v: real, t: real, q1: real, q2: real, q3: real, det: real)
    requires q1 == v * (f2 * e3 - f3 * e2) - t * (d2 * e3 - d3 * e2)
    requires q2 == v * (f3 * e1 - f1 * e3) - t * (d3 * e1 - d1 * e3)
    requires q3 == v * (f1 * e2 - f2 * e1) - t * (d1 * e2 - d2 * e1)
    requires det == e1 * (d2 * f3 - d3 * f2) + e2 * (d3 * f1 - d1 * f3) + e3 * (d1 * f2 - d2 * f1)
    ensures d1 * q1 + d2 * q2 + d3 * q3 == v * det
  {
    DotQ(d1, d2, d3, e1, e2, e3, f1, f2, f3, d1, d2, d3, v, t, q1, q2, q3);
    assert d1 * (d2 * e3 - d3 * e2) + d2 * (d3 * e1 - d1 * e3) + d3 * (d1 * e2 - d2 * e1) == 0.0;
    assert d1 * (f2 * e3 - f3 * e2) + d2 * (f3 * e1 - f1 * e3) + d3 * (f1 * e2 - f2 * e1) == det;
  }

  /** `f . q == t det`. */
  lemma DotQT(e1: real, e2: real, e3: real, f1: real, f2: real, f3: real, d1: real, d2: real, d3: real,
              v: real, t: real, q1: real, q2: real, q3: real, det: real)
    requires q1 == v * (f2 * e3 - f3 * e2) - t * (d2 * e3 - d3 * e2)
    requires q2 == v * (f3 * e1 - f1 * e3) - t * (d3 * e1 - d1 * e3)
    requires q3 == v * (f1 * e2 - f2 * e1) - t * (d1 * e2 - d2 * e1)
    requires det == e1 * (d2 * f3 - d3 * f2) + e2 * (d3 * f1 - d1 * f3) + e3 * (d1 * f2 - d2 * f1)
    ensures f1 * q1 + f2 * q2 + f3 * q3 == t * det
  {
    DotQ(f1, f2, f3, e1, e2, e3, f1, f2, f3, d1, d2, d3, v, t, q1, q2, q3);
    assert f1 * (f2 * e3 - f3 * e2) + f2 * (f3 * e1 - f1 * e3) + f3 * (f1 * e2 - f2 * e1) == 0.0;
    assert f1 * (d2 * e3 - d3 * e2) + f2 * (d3 * e1 - d1 * e3) + f3 * (d1 * e2 - d2 * e1) == -det;
  }

  /** First coordinate of Cramer's rule; the other two follow by rotating the axes. */
  lemma CramerRow(s1: real, s2: real, s3: real, e1: real, e2: real, e3: real, f1: real, f2: real, f3: real,
                  d1: real, d2: real, d3: real, h1: real, h2: real, h3: real, q1: real, q2: real, q3: real,
                  a: real, uu: real, vv: real, tt: real)
    requires h1 == d2 * f3 - d3 * f2 && h2 == d3 * f1 - d1 * f3 && h3 == d1 * f2 - d2 * f1
    requires q1 == s2 * e3 - s3 * e2 && q2 == s3 * e1 - s1 * e3 && q3 == s1 * e2 - s2 * e1
    requires a == e1 * h1 + e2 * h2 + e3 * h3
    requires uu == s1 * h1 + s2 * h2 + s3 * h3
    requires vv == d1 * q1 + d2 * q2 + d3 * q3
    requires tt == f1 * q1 + f2 * q2 + f3 * q3
    ensures a * s1 + tt * d1 == uu * e1 + vv * f1
  {
  }

  /** Cramer's rule: `det s + (f . q) d == (s . h) e + (d . q) f`, coordinate by coordinate. */
  lemma Cramer(s1: real, s2: real, s3: real, e1: real, e2: real, e3: real, f1: real, f2: real, f3: real,
                d1: real, d2: real, d3: real, h1: real, h2: real, h3: real, q1: real, q2: real, q3: real,
                a: real, uu: real, vv: real, tt: real)
    requires h1 == d2 * f3 - d3 * f2 && h2 == d3 * f1 - d1 * f3 && h3 == d1 * f2 - d2 * f1
    requires q1 == s2 * e3 - s3 * e2 && q2 == s3 * e1 - s1 * e3 && q3 == s1 * e2 - s2 * e1
    requires a == e1 * h1 + e2 * h2 + e3 * h3
    requires uu == s1 * h1 + s2 * h2 + s3 * h3
    requires vv == d1 * q1 + d2 * q2 + d3 * q3
    requires tt == f1 * q1 + f2 * q2 + f3 * q3
    ensures a * s1 + tt * d1 == uu * e1 + vv * f1
    ensures a * s2 + tt * d2 == uu * e2 + vv * f2
    ensures a * s3 + tt * d3 == uu * e3 + vv * f3
  {
    CramerRow(s1, s2, s3, e1, e2, e3, f1, f2, f3, d1, d2, d3, h1, h2, h3, q1, q2, q3, a, uu, vv, tt);
    CramerRow(s2, s3, s1, e2, e3, e1, f2, f3, f1, d2, d3, d1, h2, h3, h1, q2, q3, q1, a, uu, vv, tt);
    CramerRow(s3, s1, s2, e3, e1, e2, f3, f1, f2, d3, d1, d2, h3, h1, h2, q3, q1, q2, a, uu, vv, tt);
  }
}
