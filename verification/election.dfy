/** How many weight vectors elect each position of the character set. */
module Election {
  import opened Wrappers
  import opened RandPass

  type Vector = seq<int>

  function Fill(n: nat, x: int): (s: Vector)
    ensures |s| == n && forall k :: 0 <= k < n ==> s[k] == x
  {
    seq(n, _ => x)
  }

  // ---- vectors between two bounds, and how many there are ----

  function Prepend(w: int, vs: set<Vector>): set<Vector> {
    set v | v in vs :: [w] + v
  }

  /** One of the weights lo, ..., hi in front of one of the vectors. */
  function Layers(vs: set<Vector>, lo: int, hi: int): set<Vector>
    decreases hi - lo
  {
    if hi < lo then {} else Layers(vs, lo, hi - 1) + Prepend(hi, vs)
  }

  /** All vectors between the bounds, position by position. */
  function Box(lo: Vector, hi: Vector): set<Vector>
    requires |lo| == |hi|
  {
    if lo == [] then {[]} else Layers(Box(lo[1..], hi[1..]), lo[0], hi[0])
  }

  ghost predicate Between(v: Vector, lo: Vector, hi: Vector)
    requires |lo| == |hi|
  {
    |v| == |lo| && forall k :: 0 <= k < |v| ==> lo[k] <= v[k] <= hi[k]
  }

  function Width(lo: int, hi: int): nat {
    if hi < lo then 0 else hi - lo + 1
  }

  function Volume(lo: Vector, hi: Vector): nat
    requires |lo| == |hi|
  {
    if lo == [] then 1 else Width(lo[0], hi[0]) * Volume(lo[1..], hi[1..])
  }

  lemma {:induction false} PrependSize(w: int, vs: set<Vector>)
    ensures |Prepend(w, vs)| == |vs|
  {
    if vs != {} {
      var v :| v in vs;
      PrependSize(w, vs - {v});
      assert Prepend(w, vs) == Prepend(w, vs - {v}) + {[w] + v};
      assert forall u: Vector :: ([w] + u)[1..] == u;
      assert [w] + v !in Prepend(w, vs - {v});
    }
  }

  lemma {:induction false} LayersHave(vs: set<Vector>, lo: int, hi: int, v: Vector)
    ensures v in Layers(vs, lo, hi) <==> v != [] && lo <= v[0] <= hi && v[1..] in vs
    decreases hi - lo
  {
    if lo <= hi {
      LayersHave(vs, lo, hi - 1, v);
      if v in Prepend(hi, vs) {
        var u :| u in vs && v == [hi] + u;
        assert v[1..] == u;
      }
      if v != [] && v[0] == hi && v[1..] in vs {
        assert v == [hi] + v[1..];
      }
    }
  }

  lemma UnionSize<T>(a: set<T>, b: set<T>)
    requires a !! b
    ensures |a + b| == |a| + |b|
  {
  }

  lemma OneMore(a: nat, b: nat)
    ensures (a + 1) * b == a * b + b
  {
  }

  lemma {:induction false} LayersSize(vs: set<Vector>, lo: int, hi: int)
    ensures |Layers(vs, lo, hi)| == Width(lo, hi) * |vs|
    decreases hi - lo
  {
    if lo <= hi {
      LayersSize(vs, lo, hi - 1);
      PrependSize(hi, vs);
      forall v | v in Layers(vs, lo, hi - 1) ensures v !in Prepend(hi, vs) {
        LayersHave(vs, lo, hi - 1, v);
      }
      UnionSize(Layers(vs, lo, hi - 1), Prepend(hi, vs));
      OneMore(Width(lo, hi - 1), |vs|);
    }
  }

  lemma {:induction false} BoxHas(lo: Vector, hi: Vector, v: Vector)
    requires |lo| == |hi|
    ensures v in Box(lo, hi) <==> Between(v, lo, hi)
  {
    if lo != [] {
      LayersHave(Box(lo[1..], hi[1..]), lo[0], hi[0], v);
      if v != [] {
        BoxHas(lo[1..], hi[1..], v[1..]);
        assert v == [v[0]] + v[1..];
      }
    }
  }

  lemma {:induction false} BoxSize(lo: Vector, hi: Vector)
    requires |lo| == |hi|
    ensures |Box(lo, hi)| == Volume(lo, hi)
  {
    if lo != [] {
      BoxSize(lo[1..], hi[1..]);
      LayersSize(Box(lo[1..], hi[1..]), lo[0], hi[0]);
    }
  }

  // ---- the vectors that elect position j ----

  /** All weight vectors of n weights in 1..top. */
  function Vectors(n: nat, top: nat): set<Vector> {
    Box(Fill(n, 1), Fill(n, top))
  }

  function Low(n: nat, j: nat, w: int): Vector
    requires j < n
  {
    Fill(j, 1) + [w] + Fill(n - 1 - j, 1)
  }

  function High(n: nat, j: nat, w: int): Vector
    requires j < n
  {
    Fill(j, w - 1) + [w] + Fill(n - 1 - j, w)
  }

  /** Those whose first maximum is at j with weight at most top. */
  function Electing(n: nat, j: nat, top: nat): set<Vector>
    requires j < n
  {
    if top == 0 then {} else Electing(n, j, top - 1) + Box(Low(n, j, top), High(n, j, top))
  }

  /** The sum over w = 1..top of (w-1)^j * w^(n-1-j). */
  function Count(n: nat, j: nat, top: nat): nat
    requires j < n
  {
    if top == 0 then 0 else Count(n, j, top - 1) + Power(top - 1, j) * Power(top, n - 1 - j)
  }

  lemma PeakIff(n: nat, j: nat, w: nat, v: Vector)
    requires j < n && w > 0
    ensures Between(v, Low(n, j, w), High(n, j, w))
            <==> |v| == n && v[j] == w && FirstMaximum(v, j) && forall k :: 0 <= k < n ==> v[k] >= 1
  {
    var lo, hi := Low(n, j, w), High(n, j, w);
    assert forall k :: 0 <= k < n ==> lo[k] == (if k == j then w else 1);
    assert forall k :: 0 <= k < n ==> hi[k] == (if k < j then w - 1 else w);
    if |v| == n && v[j] == w && FirstMaximum(v, j) && (forall k :: 0 <= k < n ==> v[k] >= 1) {
      assert forall k :: 0 <= k < n ==> lo[k] <= v[k] <= hi[k];
    }
    if Between(v, lo, hi) {
      assert lo[j] <= v[j] <= hi[j];
      assert forall k :: 0 <= k < n ==> lo[k] <= v[k] <= hi[k];
    }
  }

  /** Membership: a vector of weights in 1..top whose first maximum is at j. */
  lemma {:induction false} ElectingHas(n: nat, j: nat, top: nat, v: Vector)
    requires j < n
    ensures v in Electing(n, j, top)
            <==> |v| == n && FirstMaximum(v, j) && v[j] <= top && forall k :: 0 <= k < n ==> v[k] >= 1
  {
    if top > 0 {
      ElectingHas(n, j, top - 1, v);
      BoxHas(Low(n, j, top), High(n, j, top), v);
      PeakIff(n, j, top, v);
    }
  }

  lemma {:induction false} FlatVolume(n: nat, w: nat)
    ensures Volume(Fill(n, 1), Fill(n, w)) == Power(w, n)
  {
    if n > 0 {
      FlatVolume(n - 1, w);
      assert Fill(n, 1)[1..] == Fill(n - 1, 1) && Fill(n, w)[1..] == Fill(n - 1, w);
    }
  }

  lemma {:induction false} PeakVolume(n: nat, j: nat, w: nat)
    requires j < n && w > 0
    ensures Volume(Low(n, j, w), High(n, j, w)) == Power(w - 1, j) * Power(w, n - 1 - j)
    decreases j
  {
    var lo, hi := Low(n, j, w), High(n, j, w);
    if j == 0 {
      assert lo[1..] == Fill(n - 1, 1) && hi[1..] == Fill(n - 1, w);
      FlatVolume(n - 1, w);
    } else {
      assert lo[1..] == Low(n - 1, j - 1, w) && hi[1..] == High(n - 1, j - 1, w);
      PeakVolume(n - 1, j - 1, w);
      Associate(w - 1, Power(w - 1, j - 1), Power(w, n - 1 - j));
    }
  }

  lemma Associate(a: nat, b: nat, c: nat)
    ensures a * (b * c) == a * b * c
  {
  }

  /** Exactly Count vectors elect position j. */
  lemma {:induction false} ElectingSize(n: nat, j: nat, top: nat)
    requires j < n
    ensures |Electing(n, j, top)| == Count(n, j, top)
  {
    if top > 0 {
      var box := Box(Low(n, j, top), High(n, j, top));
      ElectingSize(n, j, top - 1);
      BoxSize(Low(n, j, top), High(n, j, top));
      PeakVolume(n, j, top);
      forall v | v in Electing(n, j, top - 1) ensures v !in box {
        ElectingHas(n, j, top - 1, v);
        BoxHas(Low(n, j, top), High(n, j, top), v);
        PeakIff(n, j, top, v);
      }
      UnionSize(Electing(n, j, top - 1), box);
    }
  }

  // ---- together they are all vectors ----

  lemma {:induction false} SomeFirstMaximum(v: Vector) returns (k: nat)
    requires v != []
    ensures FirstMaximum(v, k)
  {
    if |v| == 1 {
      k := 0;
    } else {
      var n := |v| - 1;
      k := SomeFirstMaximum(v[..n]);
      assert forall m :: 0 <= m < n ==> v[..n][m] == v[m];
      if v[n] > v[k] {
        k := n;
      }
    }
  }

  /** The vectors electing one of the first j positions. */
  function ElectingBelow(n: nat, j: nat, top: nat): set<Vector>
    requires j <= n
  {
    if j == 0 then {} else ElectingBelow(n, j - 1, top) + Electing(n, j - 1, top)
  }

  function CountBelow(n: nat, j: nat, top: nat): nat
    requires j <= n
  {
    if j == 0 then 0 else CountBelow(n, j - 1, top) + Count(n, j - 1, top)
  }

  ghost predicate ElectsBelow(v: Vector, j: nat, top: nat) {
    exists i: nat :: i < j && FirstMaximum(v, i) && v[i] <= top
  }

  lemma {:induction false} ElectingBelowHas(n: nat, j: nat, top: nat, v: Vector)
    requires j <= n
    ensures v in ElectingBelow(n, j, top)
            <==> |v| == n && ElectsBelow(v, j, top) && forall k :: 0 <= k < n ==> v[k] >= 1
  {
    if j > 0 {
      var i: nat := j - 1;
      ElectingBelowHas(n, i, top, v);
      ElectingHas(n, i, top, v);
      assert ElectsBelow(v, j, top) <==> ElectsBelow(v, i, top) || (FirstMaximum(v, i) && v[i] <= top);
    }
  }

  lemma {:induction false} ElectingBelowSize(n: nat, j: nat, top: nat)
    requires j <= n
    ensures |ElectingBelow(n, j, top)| == CountBelow(n, j, top)
  {
    if j > 0 {
      var i: nat := j - 1;
      var a, b := ElectingBelow(n, i, top), Electing(n, i, top);
      ElectingBelowSize(n, i, top);
      ElectingSize(n, i, top);
      forall v | v in a ensures v !in b {
        NoTwoElections(n, i, top, v);
      }
      UnionSize(a, b);
    }
  }

  lemma NoTwoElections(n: nat, j: nat, top: nat, v: Vector)
    requires j < n && v in ElectingBelow(n, j, top)
    ensures v !in Electing(n, j, top)
  {
    ElectingBelowHas(n, j, top, v);
    ElectingHas(n, j, top, v);
    var i: nat :| i < j && FirstMaximum(v, i) && v[i] <= top;
    if FirstMaximum(v, j) {
      FirstMaximumUnique(v, i, j);
    }
  }

  lemma VectorsElect(n: nat, top: nat)
    requires n > 0
    ensures ElectingBelow(n, n, top) == Vectors(n, top)
  {
    forall v ensures v in ElectingBelow(n, n, top) <==> v in Vectors(n, top) {
      ElectingBelowHas(n, n, top, v);
      BoxHas(Fill(n, 1), Fill(n, top), v);
      if |v| == n {
        var k := SomeFirstMaximum(v);
        assert v[k] <= top ==> ElectsBelow(v, n, top);
      }
    }
  }

  /** The counts of all positions add up to all vectors. */
  lemma CountsSum(n: nat, top: nat)
    requires n > 0
    ensures CountBelow(n, n, top) == Power(top, n) == |Vectors(n, top)|
  {
    VectorsElect(n, top);
    ElectingBelowSize(n, n, top);
    BoxSize(Fill(n, 1), Fill(n, top));
    FlatVolume(n, top);
  }

  lemma OneLess(w: int, p: int, q: int)
    ensures p * (w * q) == (w - 1) * p * q + p * q
  {
    assert p * (w * q) == w * (p * q);
    assert (w - 1) * p * q == (w - 1) * (p * q);
  }

  lemma Term(n: nat, j: nat, w: nat)
    requires j + 1 < n && w > 0
    ensures Power(w - 1, j) * Power(w, n - 1 - j)
            == Power(w - 1, j + 1) * Power(w, n - 2 - j) + Power(w - 1, j) * Power(w, n - 2 - j)
  {
    OneLess(w, Power(w - 1, j), Power(w, n - 2 - j));
  }

  /** What position j has over the next one is what it would have in a set with one symbol less. */
  lemma {:induction false} CountsDiffer(n: nat, j: nat, top: nat)
    requires j + 1 < n
    ensures Count(n, j, top) == Count(n, j + 1, top) + Count(n - 1, j, top)
  {
    if top > 0 {
      CountsDiffer(n, j, top - 1);
      Term(n, j, top);
    }
  }

  /** A position is elected at all if there are two weights, or one and it is the first. */
  lemma {:induction false} CountPositive(n: nat, j: nat, top: nat)
    requires j < n
    ensures Count(n, j, top) > 0 <==> top > 1 || (top == 1 && j == 0)
  {
    if top > 0 {
      CountPositive(n, j, top - 1);
      Positive(Power(top - 1, j), Power(top, n - 1 - j));
    }
  }

  lemma Positive(a: nat, b: nat)
    ensures a * b > 0 <==> a > 0 && b > 0
  {
  }

  /** Ties favour the front of the set: with two weights or more, every position is elected more often than the next. */
  lemma CountsDecrease(n: nat, j: nat, top: nat)
    requires j + 1 < n
    ensures Count(n, j + 1, top) <= Count(n, j, top)
    ensures Count(n, j + 1, top) < Count(n, j, top) <==> top > 1 || (top == 1 && j == 0)
  {
    CountsDiffer(n, j, top);
    CountPositive(n - 1, j, top);
  }

  /** The weights drawn for one symbol are such a vector, and elect j exactly if they are among those counted for j. */
  lemma DrawnElects(draws: nat -> Draw, n: nat, i: nat, j: nat)
    requires j < n
    ensures Weights(draws, n, i) in Vectors(n, 20000)
    ensures FirstMaximum(Weights(draws, n, i), j) <==> Weights(draws, n, i) in Electing(n, j, 20000)
  {
    hide Vectors, Box, Electing, FirstMaximum;
    var w := Weights(draws, n, i);
    ElectingHas(n, j, 20000, w);
    DrawnInBox(draws, n, i);
  }

  lemma DrawnInBox(draws: nat -> Draw, n: nat, i: nat)
    ensures Weights(draws, n, i) in Vectors(n, 20000)
  {
    hide Box;
    var w := Weights(draws, n, i);
    assert forall k :: 0 <= k < n ==> w[k] == 1 + draws(i * n + k);
    BoxHas(Fill(n, 1), Fill(n, 20000), w);
  }
}
