/** The serialisations of an in-circuit verifying key: `to_sponge_bytes`,
    `to_sponge_field_elements` (absorbing the key into a sponge) and `to_bytes_le`.

    All three write alpha, beta, gamma, delta and then every entry of gamma_abc,
    each point encoded by the backend's encoding for its group, one after the
    other; the first point whose encoding fails ends the serialisation with
    that error. */
module Encoding {
  import opened Results
  import opened Algebra
  import opened Backend
  import opened Keys
  import opened Allocation

  /** The first failure of `a` then `b`, or both outputs one after the other. */
  function Then<T>(a: Result<seq<T>>, b: Result<seq<T>>): Result<seq<T>> {
    match a
    case Failure(e) => Failure(e)
    case Success(x) => (match b case Failure(e) => Failure(e) case Success(y) => Success(x + y))
  }

  /** The encodings of the points `gs`, in order, one after the other. */
  function EncodeAll<T>(f: G1 -> Result<seq<T>>, gs: seq<G1>): Result<seq<T>> {
    if gs == [] then Success([])
    else
      var init :- EncodeAll(f, gs[..|gs| - 1]);
      var last :- f(gs[|gs| - 1]);
      Success(init + last)
  }

  /** The serialisation of a key under the per-point encoding `enc`. */
  function KeyEncoding<T>(vk: VerifyingKeyVar, enc: ElementEncoding<T>): Result<seq<T>> {
    var alpha :- enc.g1(vk.alpha);
    var beta :- enc.g2(vk.beta);
    var gamma :- enc.g2(vk.gamma);
    var delta :- enc.g2(vk.delta);
    var abc :- EncodeAll(enc.g1, vk.gammaAbc);
    Success(alpha + beta + gamma + delta + abc)
  }

  /** Encoding a concatenation of point lists is encoding each and concatenating. */
  lemma {:induction false} EncodeAllAppend<T>(f: G1 -> Result<seq<T>>, a: seq<G1>, b: seq<G1>)
    ensures EncodeAll(f, a + b) == Then(EncodeAll(f, a), EncodeAll(f, b))
    decreases |b|
  {
    if b == [] {
      assert a + b == a;
      match EncodeAll(f, a) {
        case Failure(_) =>
        case Success(x) => assert x + [] == x;
      }
    } else {
      var b', last := b[..|b| - 1], b[|b| - 1];
      assert (a + b)[..|a + b| - 1] == a + b';
      assert (a + b)[|a + b| - 1] == last;
      EncodeAllAppend(f, a, b');
      match EncodeAll(f, a) {
        case Failure(_) =>
        case Success(x) =>
          match EncodeAll(f, b') {
            case Failure(_) =>
            case Success(y) =>
              match f(last) {
                case Failure(_) =>
                case Success(l) => assert x + y + l == x + (y + l);
              }
          }
      }
    }
  }

  /** The encoding of a list fails exactly when some point's encoding fails, and then with
      the error of the first such point. */
  lemma {:induction false} EncodeAllFailsAtFirstBadPoint<T>(f: G1 -> Result<seq<T>>, gs: seq<G1>)
    ensures EncodeAll(f, gs).Failure? <==> exists i :: 0 <= i < |gs| && f(gs[i]).Failure?
    ensures (EncodeAll(f, gs).Failure? ==>
               exists i :: 0 <= i < |gs| && f(gs[i]) == Failure(EncodeAll(f, gs).error)
                           && forall j :: 0 <= j < i ==> f(gs[j]).Success?)
  {
    if gs != [] {
      var init := gs[..|gs| - 1];
      EncodeAllFailsAtFirstBadPoint(f, init);
      assert forall i :: 0 <= i < |init| ==> init[i] == gs[i];
      if EncodeAll(f, init).Failure? {
        var i :| 0 <= i < |init| && f(init[i]) == Failure(EncodeAll(f, init).error)
                 && forall j :: 0 <= j < i ==> f(init[j]).Success?;
        assert f(gs[i]) == Failure(EncodeAll(f, gs).error);
      } else if f(gs[|gs| - 1]).Failure? {
        assert f(gs[|gs| - 1]) == Failure(EncodeAll(f, gs).error);
        assert forall j :: 0 <= j < |gs| - 1 ==> f(gs[j]).Success?;
      } else {
        forall i | 0 <= i < |gs|
          ensures f(gs[i]).Success?
        {
          if i < |gs| - 1 {
            assert gs[i] == init[i];
          }
        }
      }
    }
  }

  /** Every encoding `f` produces has exactly `w` elements. */
  ghost predicate FixedWidth<P(!new), T>(f: P -> Result<seq<T>>, w: nat) {
    forall p :: f(p).Success? ==> |f(p).value| == w
  }

  /** Distinct points have distinct encodings. */
  ghost predicate Injective<P(!new), T>(f: P -> Result<seq<T>>) {
    forall p, q :: f(p).Success? && f(q).Success? && f(p).value == f(q).value ==> p == q
  }

  lemma MulLe(a: nat, b: nat, w: nat)
    requires a <= b
    ensures a * w <= b * w
  {
  }

  lemma MulSucc(i: nat, w: nat)
    ensures (i + 1) * w == i * w + w
  {
  }

  /** With a fixed-width encoding, a list of n points encodes to n * w elements. */
  lemma {:induction false} EncodeAllLength<T>(f: G1 -> Result<seq<T>>, gs: seq<G1>, w: nat)
    requires FixedWidth(f, w) && EncodeAll(f, gs).Success?
    ensures |EncodeAll(f, gs).value| == |gs| * w
  {
    if gs != [] {
      EncodeAllLength(f, gs[..|gs| - 1], w);
      MulSucc(|gs| - 1, w);
    }
  }

  /** With fixed-width injective encodings, equal point-list encodings come from equal lists:
      the encoding of gamma_abc can be split back into its points. */
  lemma {:induction false} EncodeAllInjective<T>(f: G1 -> Result<seq<T>>, gs: seq<G1>, hs: seq<G1>, w: nat)
    requires 0 < w && FixedWidth(f, w) && Injective(f)
    requires EncodeAll(f, gs).Success? && EncodeAll(f, hs).Success?
    requires EncodeAll(f, gs).value == EncodeAll(f, hs).value
    ensures gs == hs
  {
    EncodeAllLength(f, gs, w);
    EncodeAllLength(f, hs, w);
    if |gs| < |hs| {
      MulSucc(|gs|, w);
      MulLe(|gs| + 1, |hs|, w);
    } else if |hs| < |gs| {
      MulSucc(|hs|, w);
      MulLe(|hs| + 1, |gs|, w);
    }
    if gs != [] {
      var n := |gs|;
      var x, l := EncodeAll(f, gs[..n - 1]).value, f(gs[n - 1]).value;
      var y, m := EncodeAll(f, hs[..n - 1]).value, f(hs[n - 1]).value;
      assert x + l == y + m;
      assert |l| == w && |m| == w;
      assert l == (x + l)[|x + l| - w..] && m == (y + m)[|y + m| - w..];
      assert x == (x + l)[..|x + l| - w] && y == (y + m)[..|y + m| - w];
      EncodeAllInjective(f, gs[..n - 1], hs[..n - 1], w);
      assert gs == gs[..n - 1] + [gs[n - 1]] && hs == hs[..n - 1] + [hs[n - 1]];
    }
  }

  /** With fixed-width injective point encodings, the key serialisation determines the key:
      a sponge that absorbs it absorbs every field, gamma_abc entry by entry. */
  lemma KeyEncodingInjective<T>(vk1: VerifyingKeyVar, vk2: VerifyingKeyVar, enc: ElementEncoding<T>, w1: nat, w2: nat)
    requires 0 < w1 && FixedWidth(enc.g1, w1) && FixedWidth(enc.g2, w2)
    requires Injective(enc.g1) && Injective(enc.g2)
    requires KeyEncoding(vk1, enc).Success? && KeyEncoding(vk2, enc).Success?
    requires KeyEncoding(vk1, enc).value == KeyEncoding(vk2, enc).value
    ensures vk1 == vk2
  {
    var s := KeyEncoding(vk1, enc).value;
    var o1, o2, o3, o4 := w1, w1 + w2, w1 + 2 * w2, w1 + 3 * w2;
    var e1 := enc.g1(vk1.alpha).value + enc.g2(vk1.beta).value + enc.g2(vk1.gamma).value + enc.g2(vk1.delta).value;
    var e2 := enc.g1(vk2.alpha).value + enc.g2(vk2.beta).value + enc.g2(vk2.gamma).value + enc.g2(vk2.delta).value;
    assert |e1| == o4 && |e2| == o4;
    assert s == e1 + EncodeAll(enc.g1, vk1.gammaAbc).value == e2 + EncodeAll(enc.g1, vk2.gammaAbc).value;
    assert s[..o4] == e1 && s[..o4] == e2;
    assert EncodeAll(enc.g1, vk1.gammaAbc).value == s[o4..] == EncodeAll(enc.g1, vk2.gammaAbc).value;
    assert enc.g1(vk1.alpha).value == e1[..o1] == e2[..o1] == enc.g1(vk2.alpha).value;
    assert enc.g2(vk1.beta).value == e1[o1..o2] == e2[o1..o2] == enc.g2(vk2.beta).value;
    assert enc.g2(vk1.gamma).value == e1[o2..o3] == e2[o2..o3] == enc.g2(vk2.gamma).value;
    assert enc.g2(vk1.delta).value == e1[o3..o4] == e2[o3..o4] == enc.g2(vk2.delta).value;
    EncodeAllInjective(enc.g1, vk1.gammaAbc, vk2.gammaAbc, w1);
  }

  /** Serialises the key field by field and then gamma_abc point by point, appending each
      encoding to the output. */
  method EncodeKey<T>(vk: VerifyingKeyVar, enc: ElementEncoding<T>) returns (r: Result<seq<T>>)
    ensures r == KeyEncoding(vk, enc)
  {
    var alpha := enc.g1(vk.alpha);
    if alpha.Failure? {
      return Failure(alpha.error);
    }
    var beta := enc.g2(vk.beta);
    if beta.Failure? {
      return Failure(beta.error);
    }
    var gamma := enc.g2(vk.gamma);
    if gamma.Failure? {
      return Failure(gamma.error);
    }
    var delta := enc.g2(vk.delta);
    if delta.Failure? {
      return Failure(delta.error);
    }
    var out := alpha.value + beta.value + gamma.value + delta.value;
    ghost var head := out;
    var i := 0;
    while i < |vk.gammaAbc|
      invariant 0 <= i <= |vk.gammaAbc|
      invariant EncodeAll(enc.g1, vk.gammaAbc[..i]).Success?
      invariant out == head + EncodeAll(enc.g1, vk.gammaAbc[..i]).value
    {
      var g := enc.g1(vk.gammaAbc[i]);
      assert vk.gammaAbc[..i + 1][..i] == vk.gammaAbc[..i];
      if g.Failure? {
        assert vk.gammaAbc == vk.gammaAbc[..i + 1] + vk.gammaAbc[i + 1..];
        EncodeAllAppend(enc.g1, vk.gammaAbc[..i + 1], vk.gammaAbc[i + 1..]);
        return Failure(g.error);
      }
      out := out + g.value;
      i := i + 1;
    }
    assert vk.gammaAbc[..i] == vk.gammaAbc;
    return Success(out);
  }

  /** `to_sponge_bytes`. */
  method ToSpongeBytes(be: Backend, vk: VerifyingKeyVar) returns (r: Result<seq<Byte>>)
    ensures r == KeyEncoding(vk, be.spongeBytes)
  {
    r := EncodeKey(vk, be.spongeBytes);
  }

  /** `to_sponge_field_elements`. */
  method ToSpongeFieldElements(be: Backend, vk: VerifyingKeyVar) returns (r: Result<seq<BaseFieldElement>>)
    ensures r == KeyEncoding(vk, be.spongeFieldElements)
  {
    r := EncodeKey(vk, be.spongeFieldElements);
  }

  /** `to_bytes_le`. */
  method ToBytesLe(be: Backend, vk: VerifyingKeyVar) returns (r: Result<seq<Byte>>)
    ensures r == KeyEncoding(vk, be.bytesLe)
  {
    r := EncodeKey(vk, be.bytesLe);
  }

  /** The serialisation depends only on the key's points: a key allocated with or without
      subgroup checks, in any mode, serialises the same. */
  lemma EncodingIgnoresAllocation<T>(be: Backend, vk: VerifyingKey, m1: AllocationMode, m2: AllocationMode, enc: ElementEncoding<T>)
    requires NoFaults(be)
    ensures NewVerifyingKey(be, Success(vk), m1).Success?
    ensures NewVerificationKeyUnchecked(be, Success(vk), m2).Success?
    ensures (KeyEncoding(NewVerifyingKey(be, Success(vk), m1).value.vars, enc)
               == KeyEncoding(NewVerificationKeyUnchecked(be, Success(vk), m2).value.vars, enc))
  {
    UncheckedKeySkipsOnlySubgroupChecks(be, vk, m2);
    UncheckedKeySkipsOnlySubgroupChecks(be, vk, m1);
  }
}
