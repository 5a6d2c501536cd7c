/** The rejection bound of arc4random_uniform and the residues it leaves. */
module Uniform {

  const WORDS: int := 0x1_0000_0000

  /** u_int32_t arithmetic. */
  function Wrap(x: int): (w: nat)
    ensures w < WORDS
  {
    x % WORDS
  }

  /** ~x on 32 bits. */
  function Complement(x: nat): nat
    requires x < WORDS
  {
    WORDS - 1 - x
  }

  /** 2**32 % upper_bound with and without 64-bit arithmetic. */
  method RejectBelow(upperBound: nat, wide: bool) returns (min: nat)
    requires 2 <= upperBound < WORDS
    ensures min == WORDS % upperBound
    ensures 2 * min < WORDS
  {
    HalfAccepted(upperBound);
    if wide {
      min := WORDS % upperBound;
    } else if upperBound > 0x80000000 {
      min := Wrap(1 + Complement(upperBound));
      ModOnce(WORDS, upperBound, 1);
    } else {
      min := Wrap(Wrap(0xffffffff - Wrap(upperBound * 2)) + 1) % upperBound;
      NarrowBound(upperBound);
    }
  }

  lemma Distribute(a: int, b: int, x: int)
    ensures (a + b) * x == a * x + b * x
  {
  }

  lemma Monotone(a: int, b: int, x: nat)
    requires a <= b
    ensures a * x <= b * x
  {
  }

  lemma DivMod(a: nat, b: nat)
    requires b > 0
    ensures a == a / b * b + a % b && 0 <= a % b < b
  {
  }

  lemma Quotient(a: nat, b: nat) returns (q: nat)
    requires b > 0
    ensures a == q * b + a % b
  {
    DivMod(a, b);
    q := a / b;
  }

  /** Quotient and remainder are unique. */
  lemma QuotientUnique(b: nat, q: nat, r: nat, q': nat, r': nat)
    requires r < b && r' < b && q * b + r == q' * b + r'
    ensures q == q' && r == r'
  {
    if q < q' {
      Monotone(q + 1, q', b);
      Distribute(q, 1, b);
    } else if q' < q {
      Monotone(q' + 1, q, b);
      Distribute(q', 1, b);
    }
  }

  lemma ModOnce(a: nat, b: nat, q: nat)
    requires b > 0 && q * b <= a < q * b + b
    ensures a % b == a - q * b && a / b == q
  {
    DivMod(a, b);
    QuotientUnique(b, a / b, a % b, q, a - q * b);
  }

  lemma ModDown(a: nat, b: nat, q: nat)
    requires b > 0 && q * b <= a
    ensures (a - q * b) % b == a % b
  {
    var k := a / b;
    DivMod(a, b);
    if k < q {
      Monotone(k + 1, q, b);
      Distribute(k, 1, b);
    }
    Distribute(k - q, q, b);
    ModOnce(a - q * b, b, k - q);
  }

  /** (2**32 - 2x) % x is 2**32 % x when 2x does not exceed 2**32; at x == 2**31 the sum wraps to 0. */
  lemma NarrowBound(x: nat)
    requires 2 <= x <= 0x80000000
    ensures Wrap(Wrap(0xffffffff - Wrap(x * 2)) + 1) % x == WORDS % x
  {
    if x == 0x80000000 {
      assert Wrap(Wrap(0xffffffff - Wrap(x * 2)) + 1) == 0;
      ModOnce(WORDS, x, 2);
    } else {
      assert Wrap(Wrap(0xffffffff - Wrap(x * 2)) + 1) == WORDS - 2 * x;
      ModDown(WORDS, x, 2);
    }
  }

  /** More than half of all words are accepted. */
  lemma HalfAccepted(x: nat)
    requires 2 <= x < WORDS
    ensures 2 * (WORDS % x) < WORDS
  {
    if x > 0x80000000 {
      ModOnce(WORDS, x, 1);
    }
  }

  /** The accepted words that map to v. */
  function Preimage(x: nat, v: nat): set<nat>
    requires 2 <= x < WORDS
  {
    set r: nat | WORDS % x <= r < WORDS && r % x == v
  }

  /** The arithmetic progression start, start + x, ... of n terms. */
  function Progression(start: nat, x: nat, n: nat): set<nat> {
    if n == 0 then {} else Progression(start, x, n - 1) + {start + (n - 1) * x}
  }

  lemma {:induction false} ProgressionSize(start: nat, x: nat, n: nat)
    requires x > 0
    ensures |Progression(start, x, n)| == n
    ensures forall r :: r in Progression(start, x, n) ==> r < start + n * x
  {
    if n > 0 {
      ProgressionSize(start, x, n - 1);
      assert start + (n - 1) * x < start + n * x;
    }
  }

  lemma {:induction false} ProgressionHas(start: nat, x: nat, n: nat, k: nat)
    requires k < n
    ensures start + k * x in Progression(start, x, n)
  {
    if k < n - 1 {
      ProgressionHas(start, x, n - 1, k);
    }
  }

  lemma {:induction false} ProgressionIs(start: nat, x: nat, n: nat, r: nat)
    requires r in Progression(start, x, n)
    ensures InProgression(start, x, n, r)
  {
    if r in Progression(start, x, n - 1) {
      ProgressionIs(start, x, n - 1, r);
    }
  }

  /** The least accepted word that maps to v. */
  function First(x: nat, v: nat): nat
    requires x > 0 && v < x
  {
    if WORDS % x <= v then v else v + x
  }

  /** First + k*x is accepted for every k below the quotient, and is v plus a multiple of x. */
  lemma ProgressionAccepted(m: nat, q: nat, x: nat, v: nat, k: nat) returns (t: nat)
    requires WORDS == q * x + m && m < x && v < x && k < q
    ensures var r := (if m <= v then v else v + x) + k * x; m <= r < WORDS && r == t * x + v
  {
    t := if m <= v then k else k + 1;
    Distribute(k, 1, x);
    Monotone(k + 1, q, x);
    Monotone(0, k, x);
  }

  lemma InPreimage(x: nat, v: nat, k: nat)
    requires 2 <= x < WORDS && v < x && k < WORDS / x
    ensures First(x, v) + k * x in Preimage(x, v)
  {
    DivMod(WORDS, x);
    var t := ProgressionAccepted(WORDS % x, WORDS / x, x, v, k);
    ModOnce(First(x, v) + k * x, x, t);
  }

  /** An accepted word t*x + v is First + k*x for some k below the quotient. */
  lemma AcceptedInProgression(m: nat, q: nat, x: nat, v: nat, t: nat) returns (k: nat)
    requires WORDS == q * x + m && m < x && v < x && m <= t * x + v < WORDS
    ensures k < q && t * x + v == (if m <= v then v else v + x) + k * x
  {
    if t == 0 {
      assert m <= v;
    }
    k := if m <= v then t else t - 1;
    Distribute(t - 1, 1, x);
    if k >= q {
      Monotone(q, k, x);
    }
  }

  lemma PreimageMeans(x: nat, v: nat, r: nat)
    requires 2 <= x < WORDS && r in Preimage(x, v)
    ensures WORDS % x <= r < WORDS && r % x == v
  {
  }

  lemma FromPreimage(x: nat, v: nat, r: nat)
    requires 2 <= x < WORDS && v < x && r in Preimage(x, v)
    ensures InProgression(First(x, v), x, WORDS / x, r)
  {
    hide Preimage, InProgression;
    PreimageMeans(x, v, r);
    var t := Quotient(r, x);
    DivMod(WORDS, x);
    Within(WORDS % x, WORDS / x, x, v, r, t);
  }

  /** One of the first n terms. */
  ghost predicate InProgression(start: nat, x: nat, n: nat, r: nat) {
    exists k :: 0 <= k < n && r == start + k * x
  }

  lemma Within(m: nat, q: nat, x: nat, v: nat, r: nat, t: nat)
    requires WORDS == q * x + m && m < x && v < x && m <= r < WORDS && r == t * x + v
    ensures InProgression(if m <= v then v else v + x, x, q, r)
  {
    var k := AcceptedInProgression(m, q, x, v, t);
  }

  /** Every residue below the bound has the same number of accepted words: no modulo bias. */
  lemma EveryResidueEqually(x: nat, v: nat)
    requires 2 <= x < WORDS && v < x
    ensures |Preimage(x, v)| == WORDS / x
  {
    var f, q := First(x, v), WORDS / x;
    forall r: nat ensures r in Preimage(x, v) <==> r in Progression(f, x, q) {
      if r in Preimage(x, v) {
        FromPreimage(x, v, r);
        var k :| 0 <= k < q && r == f + k * x;
        ProgressionHas(f, x, q, k);
      }
      if r in Progression(f, x, q) {
        ProgressionIs(f, x, q, r);
        var k :| 0 <= k < q && r == f + k * x;
        InPreimage(x, v, k);
      }
    }
    assert Preimage(x, v) == Progression(f, x, q);
    ProgressionSize(f, x, q);
  }
}
