/** The pairing groups in discrete-logarithm representation.

    G1, G2 and GT are cyclic of order R. An element is represented by its
    discrete logarithm with respect to a fixed generator, reduced to [0, R):
    the group law is addition mod R, negation is `R - x`, scalar
    multiplication is multiplication mod R. A Miller loop over pairs (p_i, q_i)
    yields an unreduced target-field value, the integer sum of p_i * q_i, and the
    final exponentiation maps it into GT by reduction mod R, so that
    `pairing(p, q) = final_exp(miller_loop([p], [q])) = p * q mod R` is bilinear.
    "Prepared" forms carry the point unchanged. */
module Algebra {
  import opened ModArith

  /** Order of the groups (the BLS12-381 scalar-field modulus; no proof uses its primality). */
  const R: int := 52435875175126190479447740508185965837690552500527637822603658699938581184513

  type G1 = x: int | 0 <= x < R
  type G2 = x: int | 0 <= x < R
  type GT = x: int | 0 <= x < R

  datatype G1Prepared = G1Prepared(point: G1)
  datatype G2Prepared = G2Prepared(point: G2)

  /** The group law of G1 (`+=` on a G1 variable). */
  function AddG1(p: G1, q: G1): G1 {
    (p + q) % R
  }

  /** Negation in G2. */
  function NegateG2(q: G2): (r: G2)
    ensures (q + r) % R == 0
  {
    ModOfRange(0, R);
    if q == 0 then 0 else R - q
  }

  /** The identity of GT and its group law (written multiplicatively in the source's terms). */
  const GtOne: GT := 0

  function GtMul(a: GT, b: GT): GT {
    (a + b) % R
  }

  function GtInverse(a: GT): (r: GT)
    ensures GtMul(a, r) == GtOne
  {
    ModOfRange(0, R);
    if a == 0 then 0 else R - a
  }

  /** The integer a little-endian bit sequence denotes. */
  function BitsValue(bits: seq<bool>): nat {
    if bits == [] then 0 else (if bits[0] then 1 else 0) + 2 * BitsValue(bits[1..])
  }

  function Pow2(n: nat): nat {
    if n == 0 then 1 else 2 * Pow2(n - 1)
  }

  /** The little-endian decomposition of `n` into `width` bits. */
  function BitsLe(n: nat, width: nat): (bits: seq<bool>)
    ensures |bits| == width
  {
    if width == 0 then [] else [n % 2 == 1] + BitsLe(n / 2, width - 1)
  }

  /** Scalar multiplication of a G1 point by the scalar its little-endian bits denote. */
  function ScalarMulBits(p: G1, bits: seq<bool>): G1 {
    (p * BitsValue(bits)) % R
  }

  /** The Miller loop over the pairs (ps[i], qs[i]), before final exponentiation. */
  function MillerValue(ps: seq<G1Prepared>, qs: seq<G2Prepared>): int
    requires |ps| == |qs|
  {
    if ps == [] then 0
    else MillerValue(ps[..|ps| - 1], qs[..|qs| - 1]) + ps[|ps| - 1].point * qs[|qs| - 1].point
  }

  function FinalExpValue(f: int): GT {
    f % R
  }

  function PairingValue(p: G1Prepared, q: G2Prepared): GT {
    FinalExpValue(MillerValue([p], [q]))
  }

  /** The product in GT of the pairings of the pairs, one pairing at a time. */
  function PairingProduct(ps: seq<G1Prepared>, qs: seq<G2Prepared>): GT
    requires |ps| == |qs|
  {
    if ps == [] then GtOne
    else GtMul(PairingProduct(ps[..|ps| - 1], qs[..|qs| - 1]), PairingValue(ps[|ps| - 1], qs[|qs| - 1]))
  }

  // ---------------------------------------------------------------------------
  // Laws of the interface

  /** Bits round trip: decomposing a scalar that fits in `width` bits and reading it back gives it again. */
  lemma {:induction false} BitsLeRoundTrip(n: nat, width: nat)
    requires n < Pow2(width)
    ensures BitsValue(BitsLe(n, width)) == n
  {
    if width > 0 {
      BitsLeRoundTrip(n / 2, width - 1);
      var bits := BitsLe(n, width);
      assert bits[1..] == BitsLe(n / 2, width - 1);
    }
  }

  /** One multi-Miller loop followed by one final exponentiation is the product of the individual pairings. */
  lemma {:induction false} MultiPairing(ps: seq<G1Prepared>, qs: seq<G2Prepared>)
    requires |ps| == |qs|
    ensures FinalExpValue(MillerValue(ps, qs)) == PairingProduct(ps, qs)
  {
    if ps == [] {
      ModOfRange(0, R);
    } else {
      var ps', qs' := ps[..|ps| - 1], qs[..|qs| - 1];
      var p, q := ps[|ps| - 1], qs[|qs| - 1];
      MultiPairing(ps', qs');
      var m := MillerValue(ps', qs');
      var t := p.point * q.point;
      assert MillerValue([p], [q]) == t by {
        assert [p][..0] == [];
      }
      calc {
        PairingProduct(ps, qs);
        GtMul(m % R, t % R);
        (m % R + t % R) % R;
        { ModSum(m, t % R, R); }
        (m + t % R) % R;
        { ModSum(t, m, R); }
        (m + t) % R;
        FinalExpValue(MillerValue(ps, qs));
      }
    }
  }

  /** Linearity of the pairing in its first argument. */
  lemma PairingLinearLeft(p1: G1, p2: G1, q: G2)
    ensures PairingValue(G1Prepared(AddG1(p1, p2)), G2Prepared(q))
         == GtMul(PairingValue(G1Prepared(p1), G2Prepared(q)), PairingValue(G1Prepared(p2), G2Prepared(q)))
  {
    PairingIsProduct(AddG1(p1, p2), q);
    PairingIsProduct(p1, q);
    PairingIsProduct(p2, q);
    calc {
      ((p1 + p2) % R * q) % R;
      { ModProduct(p1 + p2, q, R); }
      ((p1 + p2) * q) % R;
      { assert (p1 + p2) * q == p1 * q + p2 * q; }
      (p1 * q + p2 * q) % R;
      { ModSum(p1 * q, p2 * q, R); }
      ((p1 * q) % R + p2 * q) % R;
      { ModSum(p2 * q, (p1 * q) % R, R); }
      ((p1 * q) % R + (p2 * q) % R) % R;
    }
  }

  /** Linearity of the pairing in its second argument; with `PairingLinearLeft`, bilinearity. */
  lemma PairingLinearRight(p: G1, q1: G2, q2: G2)
    ensures PairingValue(G1Prepared(p), G2Prepared((q1 + q2) % R))
         == GtMul(PairingValue(G1Prepared(p), G2Prepared(q1)), PairingValue(G1Prepared(p), G2Prepared(q2)))
  {
    PairingIsProduct(p, (q1 + q2) % R);
    PairingIsProduct(p, q1);
    PairingIsProduct(p, q2);
    var q := q1 + q2;
    calc {
      (p * (q % R)) % R;
      { assert p * (q % R) == (q % R) * p; }
      ((q % R) * p) % R;
      { ModProduct(q, p, R); }
      (q * p) % R;
      { assert q * p == p * q1 + p * q2; }
      (p * q1 + p * q2) % R;
      { ModSum(p * q1, p * q2, R); }
      ((p * q1) % R + p * q2) % R;
      { ModSum(p * q2, (p * q1) % R, R); }
      ((p * q1) % R + (p * q2) % R) % R;
    }
  }

  /** Pairing with a negated second argument inverts the pairing. */
  lemma PairingNegateRight(p: G1, q: G2)
    ensures PairingValue(G1Prepared(p), G2Prepared(NegateG2(q)))
         == GtInverse(PairingValue(G1Prepared(p), G2Prepared(q)))
  {
    var nq := NegateG2(q);
    PairingIsProduct(p, nq);
    PairingIsProduct(p, q);
    var e, n := (p * q) % R, (p * nq) % R;
    if q == 0 {
      assert p * q == 0 && p * nq == 0;
      ModOfRange(0, R);
    } else {
      assert p * nq == -(p * q) + p * R;
      ModAddMultiple(-(p * q), p, R);
      ModSum(p * q, -(p * q), R);
      ModOfRange(0, R);
      assert (e + n) % R == 0 by {
        ModSum(-(p * q), e, R);
      }
      assert GtMul(e, n) == GtOne;
      assert GtMul(e, GtInverse(e)) == GtOne;
      GtInverseUnique(e, n);
    }
  }

  lemma PairingIsProduct(p: G1, q: G2)
    ensures PairingValue(G1Prepared(p), G2Prepared(q)) == (p * q) % R
  {
    assert [G1Prepared(p)][..0] == [] && [G2Prepared(q)][..0] == [];
    assert MillerValue([G1Prepared(p)], [G2Prepared(q)]) == p * q;
  }

  /** In GT, an element has only one inverse. */
  lemma GtInverseUnique(a: GT, b: GT)
    requires GtMul(a, b) == GtOne
    ensures b == GtInverse(a)
  {
    if a == 0 {
      assert b % R == 0;
      ModOfRange(b, R);
    } else {
      ModOfRange(a + b - R, R);
      if a + b < R {
        ModOfRange(a + b, R);
      } else {
        ModUnique(a + b, 1, a + b - R, R);
      }
    }
  }

  /** Moving the two inverted factors across the equation: x / y / z == w exactly when x == w * y * z. */
  lemma GtRearrange(x: GT, y: GT, z: GT, w: GT)
    ensures GtMul(GtMul(x, GtInverse(y)), GtInverse(z)) == w <==> x == GtMul(GtMul(w, y), z)
  {
    var iy, iz := GtInverse(y), GtInverse(z);
    // Work with the integer sum before reduction.
    var lhs := x + iy + iz;
    var rhs := w + y + z;
    ModSum(x + iy, iz, R);
    ModSum(w + y, z, R);
    assert GtMul(GtMul(x, iy), iz) == lhs % R;
    assert GtMul(GtMul(w, y), z) == rhs % R;
    assert (y + iy) % R == 0 && (z + iz) % R == 0;
    ModEqualIff(y + iy, 0, R);
    ModEqualIff(z + iz, 0, R);
    ModOfRange(x, R);
    ModOfRange(w, R);
    // x + iy + iz and x - y - z differ by a multiple of R.
    var ky, kz := (y + iy) / R, (z + iz) / R;
    assert y + iy == ky * R && z + iz == kz * R;
    assert lhs == (x - y - z) + (ky + kz) * R;
    ModAddMultiple(x - y - z, ky + kz, R);
    ModEqualIff(x - y - z, w, R);
    ModEqualIff(x, rhs, R);
    assert x - rhs == (x - y - z) - w;
  }
}
