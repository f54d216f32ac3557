/** Scalars of the source (`f32`/`Float`) are reals here; this module adds the
    two special values the core produces (+INFINITY, NaN) where it matters, the
    truncating `modf`, and the nearest-hit fold shared by both scene types. */
module Floats {

  /** A distance along a ray: finite, `INFINITY`, or NaN (from `sqrt` of a
      negative number). */
  datatype Ext = Finite(value: real) | Infinity | NaN

  /** IEEE-754 `a < b`: false as soon as either side is NaN. */
  predicate Less(a: Ext, b: Ext)
  {
    match (a, b)
    case (Finite(x), Finite(y)) => x < y
    case (Finite(_), Infinity) => true
    case _ => false
  }

  /** IEEE-754 `a <= b`. */
  predicate LessEq(a: Ext, b: Ext)
  {
    Less(a, b) || (a == b && !a.NaN?)
  }

  /** `<` is a strict total order on the values that are not NaN. */
  lemma LessTotal(a: Ext, b: Ext)
    requires !a.NaN? && !b.NaN?
    ensures Less(a, b) || a == b || Less(b, a)
    ensures !(Less(a, b) && Less(b, a))
  {
  }

  lemma MulNonNegative(a: real, b: real)
    requires 0.0 <= a && 0.0 <= b
    ensures 0.0 <= a * b
  {
  }

  lemma MulStrictlyMonotone(a: real, b: real, c: real)
    requires 0.0 < a && b < c
    ensures a * b < a * c
  {
  }

  /** `std::abs` on a scalar. */
  function Abs(x: real): (r: real)
    ensures 0.0 <= r && (r == x || r == -x)
  {
    if x < 0.0 then -x else x
  }

  /** Multiplying by a positive factor keeps `<`; the products are passed in
      as `ab` and `ca` so that callers can name them. */
  lemma MulLess(a: real, b: real, c: real, ab: real, ca: real)
    requires 0.0 < a && b < c && ab == a * b && ca == c * a
    ensures ab < ca
  {
  }

  /** Multiplying by a positive factor keeps `<=`. */
  lemma MulLessEq(a: real, b: real, c: real, ba: real, ca: real)
    requires 0.0 < a && b <= c && ba == b * a && ca == c * a
    ensures ba <= ca
  {
  }

  /** `x * x`, named so that a square can be mentioned without exposing the
      product to the solver's non-linear reasoning. */
  function Square(x: real): real
  {
    x * x
  }

  /** The square `rr` of any number is non-negative. */
  lemma SquareNonNegative(r: real, rr: real)
    requires rr == r * r
    ensures rr >= 0.0
  {
    if r < 0.0 {
      MulNonNegative(-r, -r);
    } else {
      MulNonNegative(r, r);
    }
  }

  /** The square `rr` of a non-zero number is positive. */
  lemma SquarePositive(r: real, rr: real)
    requires r != 0.0 && rr == r * r
    ensures rr > 0.0
  {
    if r > 0.0 {
      MulLess(r, 0.0, r, 0.0, rr);
    } else {
      MulLess(-r, 0.0, -r, 0.0, rr);
    }
  }

  /** For a positive `m` with square `q`, `y / m > m` exactly when `y > q`. */
  lemma QuotientAbove(y: real, m: real, q: real)
    requires 0.0 < m && m * m == q
    ensures y / m > m <==> y > q
    ensures q != 0.0
  {
    MulLess(m, 0.0, m, 0.0, q);
    var z := y / m;
    assert z * m == y;
    if z > m {
      MulLess(m, m, z, q, y);
    } else {
      MulLessEq(m, z, m, y, q);
    }
  }

  /** Two non-negative numbers with equal squares are equal. */
  lemma SquareRootUnique(s: real, r: real)
    requires 0.0 <= s && 0.0 <= r && s * s == r * r
    ensures s == r
  {
    assert (s + r) * s == s * s + r * s;
    assert (s + r) * r == s * r + r * r;
    if s < r {
      MulStrictlyMonotone(s + r, s, r);
    } else if s > r {
      MulStrictlyMonotone(s + r, r, s);
    }
  }

  /** `x.Floor` rounds towards minus infinity; C++ truncates towards zero. */
  function Trunc(x: real): (n: int)
    ensures 0.0 <= x ==> 0 <= n && n as real <= x < n as real + 1.0
    ensures x < 0.0 ==> n <= 0 && n as real - 1.0 < x <= n as real
  {
    if x >= 0.0 then x.Floor else -((-x).Floor)
  }

  /** `std::modf(x, &whole)`: the fractional part, and the integral part
      stored through the second argument. Both carry the sign of `x`. */
  function Modf(x: real): (r: (real, int))
    ensures r.1 as real + r.0 == x
    ensures 0.0 <= x ==> 0.0 <= r.0 < 1.0
    ensures x < 0.0 ==> -1.0 < r.0 <= 0.0
  {
    var whole := Trunc(x);
    (x - whole as real, whole)
  }

  /** One step of the nearest-hit loop: `if (current.dist < nearest.dist)
      nearest = current`. */
  function Pick<T>(nearest: T, current: T, dist: T -> Ext): T
  {
    if Less(dist(current), dist(nearest)) then current else nearest
  }

  /** The nearest-hit loop over `rs`, starting from `init`, in loop order. */
  function Nearest<T>(init: T, dist: T -> Ext, rs: seq<T>): T
  {
    if |rs| == 0 then init
    else Pick(Nearest(init, dist, rs[..|rs| - 1]), rs[|rs| - 1], dist)
  }

  /** The result is no farther than the start value and than every member
      whose distance is not NaN, and it is never NaN itself. */
  lemma {:induction false} NearestIsMinimal<T>(init: T, dist: T -> Ext, rs: seq<T>)
    requires !dist(init).NaN?
    ensures !dist(Nearest(init, dist, rs)).NaN?
    ensures LessEq(dist(Nearest(init, dist, rs)), dist(init))
    ensures forall j :: 0 <= j < |rs| && !dist(rs[j]).NaN? ==>
              LessEq(dist(Nearest(init, dist, rs)), dist(rs[j]))
  {
    if |rs| > 0 {
      var prefix := rs[..|rs| - 1];
      NearestIsMinimal(init, dist, prefix);
      var acc := Nearest(init, dist, prefix);
      var last := rs[|rs| - 1];
      LessTotal(dist(acc), dist(init));
      if !dist(last).NaN? {
        LessTotal(dist(last), dist(acc));
      }
      forall j | 0 <= j < |rs| && !dist(rs[j]).NaN?
        ensures LessEq(dist(Nearest(init, dist, rs)), dist(rs[j]))
      {
        if j < |rs| - 1 {
          assert rs[j] == prefix[j];
          LessTotal(dist(acc), dist(rs[j]));
        }
      }
    }
  }

  /** The result is the start value or exactly one member, `rs[k]`; every
      member before `k` is strictly farther or NaN, so the earliest member
      wins a tie. `k == -1` means no member was strictly nearer than `init`. */
  lemma {:induction false} NearestSource<T>(init: T, dist: T -> Ext, rs: seq<T>) returns (k: int)
    requires !dist(init).NaN?
    ensures -1 <= k < |rs|
    ensures k == -1 ==> Nearest(init, dist, rs) == init
    ensures k == -1 ==> forall j :: 0 <= j < |rs| ==> !Less(dist(rs[j]), dist(init))
    ensures 0 <= k ==> Nearest(init, dist, rs) == rs[k] && Less(dist(rs[k]), dist(init))
    ensures 0 <= k ==> forall j :: 0 <= j < k ==> Less(dist(rs[k]), dist(rs[j])) || dist(rs[j]).NaN?
  {
    if |rs| == 0 {
      k := -1;
    } else {
      var prefix := rs[..|rs| - 1];
      var k0 := NearestSource(init, dist, prefix);
      NearestIsMinimal(init, dist, prefix);
      var acc := Nearest(init, dist, prefix);
      var last := rs[|rs| - 1];
      if Less(dist(last), dist(acc)) {
        k := |rs| - 1;
        forall j | 0 <= j < k && !dist(rs[j]).NaN?
          ensures Less(dist(rs[k]), dist(rs[j]))
        {
          assert rs[j] == prefix[j];
        }
      } else {
        k := k0;
        forall j | 0 <= j < |rs| && k == -1
          ensures !Less(dist(rs[j]), dist(init))
        {
          if j < |rs| - 1 {
            assert rs[j] == prefix[j];
          }
        }
        forall j | 0 <= j < k
          ensures Less(dist(rs[k]), dist(rs[j])) || dist(rs[j]).NaN?
        {
          assert rs[j] == prefix[j];
        }
      }
    }
  }

  /** A member at distance NaN or INFINITY is never selected, so replacing it
      by another such member does not change the result. */
  lemma {:induction false} NearestIgnoresFarMembers<T>(init: T, dist: T -> Ext, rs: seq<T>, rs': seq<T>)
    requires !dist(init).NaN?
    requires |rs| == |rs'|
    requires forall j :: 0 <= j < |rs| ==>
               rs[j] == rs'[j] ||
               ((dist(rs[j]).NaN? || dist(rs[j]).Infinity?) && (dist(rs'[j]).NaN? || dist(rs'[j]).Infinity?))
    ensures Nearest(init, dist, rs) == Nearest(init, dist, rs')
  {
    if |rs| > 0 {
      var n := |rs| - 1;
      assert forall j :: 0 <= j < n ==> rs[..n][j] == rs[j] && rs'[..n][j] == rs'[j];
      NearestIgnoresFarMembers(init, dist, rs[..n], rs'[..n]);
    }
  }

  /** When every member hits exactly when its distance is finite, and the start
      value is a miss at INFINITY, the result hits iff some member hits. */
  lemma NearestHitsIffSome<T>(init: T, dist: T -> Ext, hit: T -> bool, rs: seq<T>)
    requires dist(init) == Infinity && !hit(init)
    requires forall j :: 0 <= j < |rs| ==> (hit(rs[j]) <==> dist(rs[j]).Finite?)
    ensures hit(Nearest(init, dist, rs)) <==> exists j :: 0 <= j < |rs| && hit(rs[j])
  {
    var k := NearestSource(init, dist, rs);
    if k == -1 {
      forall j | 0 <= j < |rs|
        ensures !hit(rs[j])
      {
        assert !Less(dist(rs[j]), Infinity);
      }
    }
  }
}
