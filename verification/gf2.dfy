/** Polynomials over GF(2) as bit sequences, highest power first, and division by a fixed generator. */
module Gf2 {

  type Bits = seq<bool>

  function Zeros(n: nat): (z: Bits)
    ensures |z| == n && forall i :: 0 <= i < n ==> !z[i]
  {
    seq(n, _ => false)
  }

  /** Addition, coefficient by coefficient. */
  function Xor(a: Bits, b: Bits): (c: Bits)
    requires |a| == |b|
    ensures |c| == |a| && forall i :: 0 <= i < |a| ==> c[i] == (a[i] != b[i])
  {
    seq(|a|, i requires 0 <= i < |a| => a[i] != b[i])
  }

  function Not(a: Bits): (c: Bits)
    ensures |c| == |a| && forall i :: 0 <= i < |a| ==> c[i] == !a[i]
  {
    seq(|a|, i requires 0 <= i < |a| => !a[i])
  }

  function Scale(t: bool, g: Bits): Bits {
    if t then g else Zeros(|g|)
  }

  /** The term q_i * g_(k-i) of coefficient k of a product. */
  predicate Term(q: Bits, g: Bits, k: nat, i: nat)
    requires i < |q|
  {
    q[i] && 0 <= k - i < |g| && g[k - i]
  }

  /** The sum of the first n terms of coefficient k of q(x) * g(x). */
  function Coefficient(q: Bits, g: Bits, k: nat, n: nat): bool
    requires n <= |q|
  {
    if n == 0 then false else Coefficient(q, g, k, n - 1) != Term(q, g, k, n - 1)
  }

  /** The product q(x) * g(x); leading zero coefficients are kept. */
  function Mul(q: Bits, g: Bits): (p: Bits)
    requires |g| > 0
    ensures |p| == |q| + |g| - 1 && forall k :: 0 <= k < |p| ==> p[k] == Coefficient(q, g, k, |q|)
  {
    seq(|q| + |g| - 1, k requires 0 <= k < |q| + |g| - 1 => Coefficient(q, g, k, |q|))
  }

  /** p = q*g + r, with r of lower degree than g. */
  ghost predicate Divides(p: Bits, g: Bits, q: Bits, r: Bits)
    requires |g| > 0
  {
    |r| == |g| - 1 && |p| == |q| + |r| && p == Xor(Mul(q, g), Zeros(|q|) + r)
  }

  /** r is a remainder of p by g. */
  ghost predicate IsRemainder(p: Bits, g: Bits, r: Bits)
    requires |g| > 0
  {
    exists q: Bits :: Divides(p, g, q, r)
  }

  lemma {:induction false} CoefficientPrefix(q: Bits, t: bool, g: Bits, k: nat, n: nat)
    requires n <= |q|
    ensures Coefficient(q + [t], g, k, n) == Coefficient(q, g, k, n)
  {
    if n > 0 {
      CoefficientPrefix(q, t, g, k, n - 1);
    }
  }

  lemma {:induction false} CoefficientBeyond(q: Bits, g: Bits, k: nat, n: nat)
    requires n <= |q| && k >= n + |g| - 1
    ensures !Coefficient(q, g, k, n)
  {
    if n > 0 {
      CoefficientBeyond(q, g, k, n - 1);
    }
  }

  lemma MulSnoc(q: Bits, t: bool, g: Bits, k: nat)
    requires |g| > 0 && k < |q| + |g|
    ensures Mul(q + [t], g)[k] == ((k < |q| + |g| - 1 && Mul(q, g)[k]) != (k >= |q| && t && g[k - |q|]))
  {
    CoefficientPrefix(q, t, g, k, |q|);
    if k == |q| + |g| - 1 {
      CoefficientBeyond(q, g, k, |q|);
    }
  }

  lemma DividesAt(p: Bits, g: Bits, q: Bits, r: Bits, i: nat)
    requires |g| > 0 && Divides(p, g, q, r) && i < |p|
    ensures p[i] == (Mul(q, g)[i] != (i >= |q| && r[i - |q|]))
  {
    assert p[i] == (Mul(q, g)[i] != (Zeros(|q|) + r)[i]);
  }

  lemma {:induction false} CoefficientXor(a: Bits, b: Bits, g: Bits, k: nat, n: nat)
    requires |a| == |b| && n <= |a|
    ensures Coefficient(Xor(a, b), g, k, n) == (Coefficient(a, g, k, n) != Coefficient(b, g, k, n))
  {
    if n > 0 {
      CoefficientXor(a, b, g, k, n - 1);
    }
  }

  lemma MulXorAt(a: Bits, b: Bits, g: Bits, k: nat)
    requires |a| == |b| && |g| > 0 && k < |a| + |g| - 1
    ensures Mul(Xor(a, b), g)[k] == (Mul(a, g)[k] != Mul(b, g)[k])
  {
    CoefficientXor(a, b, g, k, |a|);
  }

  /** If the first k coefficients of q are zero, coefficient k of q*g is q_k times the leading one of g. */
  lemma {:induction false} LeadingCoefficient(q: Bits, g: Bits, k: nat, n: nat)
    requires k < |q| && n <= |q| && |g| > 0
    requires forall i :: 0 <= i < k ==> !q[i]
    ensures Coefficient(q, g, k, n) == (k < n && q[k] && g[0])
  {
    if n > 0 {
      LeadingCoefficient(q, g, k, n - 1);
    }
  }

  /** A multiple of a monic g of lower degree than g is zero. */
  lemma {:induction false} SmallMultipleIsZero(q: Bits, g: Bits, k: nat)
    requires |g| > 0 && g[0] && k <= |q|
    requires forall i :: 0 <= i < |q| ==> !Mul(q, g)[i]
    ensures forall i :: 0 <= i < k ==> !q[i]
  {
    if k > 0 {
      SmallMultipleIsZero(q, g, k - 1);
      LeadingCoefficient(q, g, k - 1, |q|);
      assert !Mul(q, g)[k - 1];
    }
  }

  lemma {:induction false} ZeroMultiple(q: Bits, g: Bits, k: nat, n: nat)
    requires n <= |q| && forall i :: 0 <= i < |q| ==> !q[i]
    ensures !Coefficient(q, g, k, n)
  {
    if n > 0 {
      ZeroMultiple(q, g, k, n - 1);
    }
  }

  /** Two divisions of one dividend: the difference of the quotients is a small multiple. */
  lemma QuotientsDiffer(p: Bits, g: Bits, q: Bits, r: Bits, q': Bits, r': Bits, i: nat)
    requires |g| > 0 && Divides(p, g, q, r) && Divides(p, g, q', r') && i < |p|
    ensures Mul(Xor(q, q'), g)[i] == (i >= |q| && r[i - |q|] != r'[i - |q|])
  {
    MulXorAt(q, q', g, i);
    DividesAt(p, g, q, r, i);
    DividesAt(p, g, q', r', i);
  }

  /** Division by a monic polynomial has at most one remainder. */
  lemma RemainderUnique(p: Bits, g: Bits, r: Bits, r': Bits)
    requires |g| > 0 && g[0]
    requires IsRemainder(p, g, r) && IsRemainder(p, g, r')
    ensures r == r'
  {
    var q: Bits :| Divides(p, g, q, r);
    var q': Bits :| Divides(p, g, q', r');
    var d := Xor(q, q');
    forall i | 0 <= i < |d| ensures !Mul(d, g)[i] {
      QuotientsDiffer(p, g, q, r, q', r', i);
    }
    SmallMultipleIsZero(d, g, |d|);
    forall i | 0 <= i < |r| ensures r[i] == r'[i] {
      QuotientsDiffer(p, g, q, r, q', r', |q| + i);
      ZeroMultiple(d, g, |q| + i, |d|);
    }
  }

  // ---- the shift register ----

  /** One long-division step of the register r on the next coefficient b of the dividend. */
  function Step(r: Bits, b: bool, g: Bits): (s: Bits)
    requires |r| == |g| - 1 > 0
    ensures |s| == |r|
  {
    Xor(r[1..] + [false], Scale(r[0] != b, g[1..]))
  }

  function Feed(r: Bits, m: Bits, g: Bits): (s: Bits)
    requires |r| == |g| - 1 > 0
    ensures |s| == |r|
  {
    if m == [] then r else Step(Feed(r, m[..|m| - 1], g), m[|m| - 1], g)
  }

  lemma StepCoefficient(r: Bits, b: bool, g: Bits, i: nat)
    requires |r| == |g| - 1 > 0 && i < |r|
    ensures Step(r, b, g)[i] == ((i + 1 < |r| && r[i + 1]) != (r[0] != b && g[i + 1]))
  {
    assert Scale(r[0] != b, g[1..])[i] == (r[0] != b && g[i + 1]);
  }

  /** The register of a monic generator holds the remainder of m(x) * x^deg(g). */
  lemma {:induction false} FeedIsRemainder(m: Bits, g: Bits)
    requires |g| > 1 && g[0]
    ensures IsRemainder(m + Zeros(|g| - 1), g, Feed(Zeros(|g| - 1), m, g))
  {
    var z := Zeros(|g| - 1);
    if m == [] {
      assert m + z == z == Xor(Mul([], g), [] + z);
      assert Divides(m + z, g, [], z);
    } else {
      var n := |m| - 1;
      FeedIsRemainder(m[..n], g);
      RemainderStep(m[..n], m[n], g, Feed(z, m[..n], g));
      assert m == m[..n] + [m[n]];
    }
  }

  lemma RemainderStep(m: Bits, b: bool, g: Bits, r: Bits)
    requires |g| > 1 && g[0]
    requires IsRemainder(m + Zeros(|g| - 1), g, r)
    ensures |r| == |g| - 1
    ensures IsRemainder(m + [b] + Zeros(|g| - 1), g, Step(r, b, g))
  {
    var q: Bits :| Divides(m + Zeros(|g| - 1), g, q, r);
    DividesStep(m, b, g, q, r);
  }

  lemma DividesStep(m: Bits, b: bool, g: Bits, q: Bits, r: Bits)
    requires |g| > 1 && g[0]
    requires Divides(m + Zeros(|g| - 1), g, q, r)
    ensures Divides(m + [b] + Zeros(|g| - 1), g, q + [r[0] != b], Step(r, b, g))
  {
    var p', q', s := m + [b] + Zeros(|g| - 1), q + [r[0] != b], Zeros(|m| + 1) + Step(r, b, g);
    forall i | 0 <= i < |p'| ensures p'[i] == Xor(Mul(q', g), s)[i] {
      StepAt(m, b, g, q, r, i);
    }
  }

  lemma StepAt(m: Bits, b: bool, g: Bits, q: Bits, r: Bits, i: nat)
    requires |g| > 1 && g[0]
    requires Divides(m + Zeros(|g| - 1), g, q, r)
    requires i < |m| + |g|
    ensures (m + [b] + Zeros(|g| - 1))[i] ==
            (Mul(q + [r[0] != b], g)[i] != (Zeros(|m| + 1) + Step(r, b, g))[i])
  {
    MulSnoc(q, r[0] != b, g, i);
    if i < |m| + |g| - 1 {
      DividesAt(m + Zeros(|g| - 1), g, q, r, i);
    }
    if i > |m| {
      StepCoefficient(r, b, g, i - |m| - 1);
    }
  }

  lemma FeedSnoc(r: Bits, m: Bits, b: bool, g: Bits)
    requires |r| == |g| - 1 > 0
    ensures Feed(r, m + [b], g) == Step(Feed(r, m, g), b, g)
  {
    assert (m + [b])[..|m|] == m;
  }

  lemma {:induction false} FeedConcat(r: Bits, a: Bits, b: Bits, g: Bits)
    requires |r| == |g| - 1 > 0
    ensures Feed(r, a + b, g) == Feed(Feed(r, a, g), b, g)
  {
    if b == [] {
      assert a + b == a;
    } else {
      var c, t := b[..|b| - 1], b[|b| - 1];
      assert a + b == (a + c) + [t];
      FeedSnoc(r, a + c, t, g);
      FeedConcat(r, a, c, g);
    }
  }

  lemma FeedOne(r: Bits, b: bool, g: Bits)
    requires |r| == |g| - 1 > 0
    ensures Feed(r, [b], g) == Step(r, b, g)
  {
    FeedSnoc(r, [], b, g);
    assert [] + [b] == [b];
  }

  lemma FeedCons(r: Bits, b: bool, t: Bits, g: Bits)
    requires |r| == |g| - 1 > 0
    ensures Feed(r, [b] + t, g) == Feed(Step(r, b, g), t, g)
  {
    FeedOne(r, b, g);
    FeedConcat(r, [b], t, g);
  }

  lemma StepXor(r: Bits, r': Bits, b: bool, b': bool, g: Bits)
    requires |r| == |r'| == |g| - 1 > 0
    ensures Step(Xor(r, r'), b != b', g) == Xor(Step(r, b, g), Step(r', b', g))
  {
    forall i | 0 <= i < |r|
      ensures Step(Xor(r, r'), b != b', g)[i] == (Step(r, b, g)[i] != Step(r', b', g)[i])
    {
      StepCoefficient(r, b, g, i);
      StepCoefficient(r', b', g, i);
      StepCoefficient(Xor(r, r'), b != b', g, i);
    }
  }

  /** The register is linear: feeding sums is summing what was fed. */
  lemma {:induction false} FeedXor(r: Bits, r': Bits, m: Bits, m': Bits, g: Bits)
    requires |r| == |r'| == |g| - 1 > 0 && |m| == |m'|
    ensures Feed(Xor(r, r'), Xor(m, m'), g) == Xor(Feed(r, m, g), Feed(r', m', g))
  {
    if m != [] {
      var n := |m| - 1;
      FeedXor(r, r', m[..n], m'[..n], g);
      assert Xor(m, m')[..n] == Xor(m[..n], m'[..n]);
      StepXor(Feed(r, m[..n], g), Feed(r', m'[..n], g), m[n], m'[n], g);
    }
  }

  /** With a nonzero constant term, a step whose result ends in 0 came from exactly one register. */
  lemma StepBack(r: Bits, b: bool, t: Bits, g: Bits)
    requires |r| == |g| - 1 == |t| + 1 && g[|g| - 1]
    ensures Step(r, b, g) == t + [false] <==> r == [b] + t
  {
    var s := Step(r, b, g);
    forall i | 0 <= i < |r|
      ensures s[i] == ((i + 1 < |r| && r[i + 1]) != (r[0] != b && g[i + 1]))
    {
      StepCoefficient(r, b, g, i);
    }
    if s == t + [false] {
      assert !s[|t|];
      forall i | 1 <= i < |r| ensures r[i] == t[i - 1] {
        assert s[i - 1] == (t + [false])[i - 1];
      }
    }
  }

  /** A register emptied by at most deg(g) bits held exactly those bits. */
  lemma {:induction false} FeedToZero(r: Bits, m: Bits, g: Bits)
    requires |r| == |g| - 1 > 0 && g[|g| - 1] && |m| <= |r|
    ensures Feed(r, m, g) == Zeros(|r|) <==> r == Padded(m, |r|)
    decreases |m|
  {
    hide Step;
    if m == [] {
      assert Padded(m, |r|) == Zeros(|r|);
    } else {
      var b, t := m[0], m[1..];
      assert m == [b] + t;
      FeedCons(r, b, t, g);
      FeedToZero(Step(r, b, g), t, g);
      StepBack(r, b, Padded(t, |r| - 1), g);
      PaddedCons(b, t, |r|);
    }
  }

  /** The bits m in the n top places of a register. */
  function Padded(m: Bits, n: nat): (p: Bits)
    requires |m| <= n
    ensures |p| == n
  {
    m + Zeros(n - |m|)
  }

  lemma PaddedCons(b: bool, t: Bits, n: nat)
    requires |t| < n
    ensures Padded([b] + t, n) == [b] + Padded(t, n - 1)
    ensures Padded(t, n) == Padded(t, n - 1) + [false]
  {
  }

  lemma XorBack(a: Bits, b: Bits)
    requires |a| == |b|
    ensures Xor(Xor(a, b), b) == a
  {
  }

  lemma XorZeros(a: Bits)
    ensures Xor(a, Zeros(|a|)) == a == Xor(Zeros(|a|), a)
  {
  }

  /** At most deg(g) bits may be added into the top of the register instead of being fed. */
  lemma FeedInject(r: Bits, m: Bits, g: Bits)
    requires |r| == |g| - 1 > 0 && g[|g| - 1] && |m| <= |r|
    ensures Feed(r, m, g) == Feed(Xor(r, Padded(m, |r|)), Zeros(|m|), g)
  {
    var s := Padded(m, |r|);
    FeedToZero(s, m, g);
    FeedXor(Xor(r, s), s, Zeros(|m|), m, g);
    XorBack(r, s);
    XorZeros(m);
    XorZeros(Feed(Xor(r, s), Zeros(|m|), g));
  }

  /** Feeding a block b is feeding zeros to the register with b added at the top, in any two parts. */
  lemma FeedBlock(r: Bits, b: Bits, high: Bits, low: Bits, g: Bits)
    requires |r| == |high| == |low| == |g| - 1 > 0 && g[|g| - 1] && |b| <= |r|
    requires Xor(r, Padded(b, |r|)) == Xor(high, low)
    ensures Feed(r, b, g) == Xor(Feed(low, Zeros(|b|), g), Feed(high, Zeros(|b|), g))
  {
    var z := Zeros(|b|);
    FeedInject(r, b, g);
    FeedXor(low, high, z, z, g);
    assert Xor(z, z) == z;
    assert Xor(high, low) == Xor(low, high);
  }

  /** The register is the remainder, and nothing else is. */
  lemma RegisterIsRemainder(m: Bits, g: Bits, r: Bits)
    requires |g| > 1 && g[0]
    ensures IsRemainder(m + Zeros(|g| - 1), g, r) <==> r == Feed(Zeros(|g| - 1), m, g)
  {
    FeedIsRemainder(m, g);
    if IsRemainder(m + Zeros(|g| - 1), g, r) {
      RemainderUnique(m + Zeros(|g| - 1), g, r, Feed(Zeros(|g| - 1), m, g));
    }
  }

  lemma NotNot(a: Bits)
    ensures Not(Not(a)) == a
  {
  }

  lemma XorZero(a: Bits, b: Bits)
    requires |a| == |b|
    ensures Xor(a, b) == Zeros(|a|) <==> a == b
  {
    if Xor(a, b) == Zeros(|a|) {
      forall i | 0 <= i < |a| ensures a[i] == b[i] {
        assert !Xor(a, b)[i];
      }
    }
  }

  /** Feeding zeros never empties a register that is not empty. */
  lemma {:induction false} ZerosKeep(r: Bits, n: nat, g: Bits)
    requires |r| == |g| - 1 > 0 && g[|g| - 1]
    ensures Feed(r, Zeros(n), g) == Zeros(|r|) <==> r == Zeros(|r|)
  {
    hide Step;
    if n > 0 {
      ZerosKeep(r, n - 1, g);
      assert Zeros(n)[..n - 1] == Zeros(n - 1);
      ZeroKeeps(Feed(r, Zeros(n - 1), g), g);
    }
  }

  lemma ZeroKeeps(r: Bits, g: Bits)
    requires |r| == |g| - 1 > 0 && g[|g| - 1]
    ensures Step(r, false, g) == Zeros(|r|) <==> r == Zeros(|r|)
  {
    var u := Zeros(|r| - 1);
    StepBack(r, false, u, g);
    assert u + [false] == Zeros(|r|) == [false] + u;
  }

  /** Two registers fed the same bits stay different. */
  lemma SuffixKeeps(r: Bits, r': Bits, t: Bits, g: Bits)
    requires |r| == |r'| == |g| - 1 > 0 && g[|g| - 1]
    ensures Feed(r, t, g) == Feed(r', t, g) <==> r == r'
  {
    FeedXor(r, r', t, t, g);
    XorZero(t, t);
    XorZero(r, r');
    XorZero(Feed(r, t, g), Feed(r', t, g));
    ZerosKeep(Xor(r, r'), |t|, g);
  }

  lemma PaddedZero(d: Bits, n: nat)
    requires |d| <= n
    ensures Zeros(n) == Padded(d, n) <==> d == Zeros(|d|)
  {
    assert Padded(d, n)[..|d|] == d;
    assert Zeros(n)[..|d|] == Zeros(|d|);
    assert Zeros(|d|) + Zeros(n - |d|) == Zeros(n);
  }

  /** One register fed two different blocks of at most deg(g) bits. */
  lemma BlocksDiffer(r: Bits, a: Bits, b: Bits, g: Bits)
    requires |r| == |g| - 1 > 0 && g[|g| - 1] && |a| == |b| <= |r|
    ensures Feed(r, a, g) == Feed(r, b, g) <==> a == b
  {
    var z, d := Zeros(|r|), Xor(a, b);
    FeedXor(r, r, a, b, g);
    XorZero(r, r);
    XorZero(a, b);
    XorZero(Feed(r, a, g), Feed(r, b, g));
    FeedToZero(z, d, g);
    PaddedZero(d, |r|);
  }

  /** Equal outside the window of n places starting at k. */
  ghost predicate AgreeOutside(a: Bits, b: Bits, k: nat, n: nat) {
    |a| == |b| && forall i :: 0 <= i < |a| && !(k <= i < k + n) ==> a[i] == b[i]
  }

  /** A burst of at most deg(g) bits changes the register. */
  lemma BurstChanges(r: Bits, a: Bits, b: Bits, k: nat, g: Bits)
    requires |r| == |g| - 1 > 0 && g[|g| - 1]
    requires AgreeOutside(a, b, k, |r|) && a != b
    ensures Feed(r, a, g) != Feed(r, b, g)
  {
    hide Feed;
    var lo := if k <= |a| then k else |a|;
    var hi := if lo + |r| <= |a| then lo + |r| else |a|;
    assert a[..lo] == b[..lo];
    assert a[hi..] == b[hi..];
    assert a == a[..lo] + a[lo..hi] + a[hi..];
    assert b == b[..lo] + b[lo..hi] + b[hi..];
    var s := Feed(r, a[..lo], g);
    ThreePieces(r, a[..lo], a[lo..hi], a[hi..], g);
    ThreePieces(r, b[..lo], b[lo..hi], b[hi..], g);
    BlocksDiffer(s, a[lo..hi], b[lo..hi], g);
    SuffixKeeps(Feed(s, a[lo..hi], g), Feed(s, b[lo..hi], g), a[hi..], g);
  }

  lemma ThreePieces(r: Bits, a: Bits, b: Bits, c: Bits, g: Bits)
    requires |r| == |g| - 1 > 0
    ensures Feed(r, a + b + c, g) == Feed(Feed(Feed(r, a, g), b, g), c, g)
  {
    FeedConcat(r, a + b, c, g);
    FeedConcat(r, a, b, g);
  }
}
