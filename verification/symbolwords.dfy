/** How many tuples of generator words elect each position of the character set. */
module SymbolWords {
  import opened Wrappers
  import opened RandPass
  import opened Election
  import U = Uniform

  /** The accepted words that give each residue below 20000. */
  const SHARE: nat := U.WORDS / WEIGHTS

  ghost predicate IsWeight(w: int) {
    1 <= w <= WEIGHTS
  }

  ghost predicate AreWeights(v: Vector) {
    forall k :: 0 <= k < |v| ==> IsWeight(v[k])
  }

  /** A word that arc4random_uniform(20000) accepts. */
  ghost predicate IsAccepted(r: int) {
    U.WORDS % WEIGHTS <= r < U.WORDS
  }

  /** The weights that come of n accepted words. */
  function Weigh(words: Vector): (v: Vector)
    ensures |v| == |words|
  {
    seq(|words|, k requires 0 <= k < |words| => 1 + words[k] % WEIGHTS)
  }

  // ---- tuples, one set for each place ----

  /** One of the heads in front of one of the tails. */
  function Heads(hs: set<nat>, ts: set<Vector>): set<Vector> {
    set h, t | h in hs && t in ts :: Cons(h, t)
  }

  function Cons(h: int, t: Vector): Vector {
    [h] + t
  }

  lemma HeadsHave(hs: set<nat>, ts: set<Vector>, v: Vector)
    ensures v in Heads(hs, ts) <==> v != [] && v[0] in hs && v[1..] in ts
  {
    if v in Heads(hs, ts) {
      var h, t :| h in hs && t in ts && v == Cons(h, t);
      assert v[1..] == t;
    }
    if v != [] && v[0] in hs && v[1..] in ts {
      assert v == Cons(v[0], v[1..]);
    }
  }

  /** One head apart from the others. */
  lemma HeadsSplit(hs: set<nat>, h: nat, ts: set<Vector>)
    requires h in hs
    ensures Heads(hs, ts) == Heads(hs - {h}, ts) + Prepend(h, ts)
    ensures forall v :: v in Heads(hs - {h}, ts) ==> v !in Prepend(h, ts)
  {
    hide Heads, Prepend;
    forall v ensures v in Heads(hs, ts) <==> v in Heads(hs - {h}, ts) + Prepend(h, ts) {
      HeadsHave(hs, ts, v);
      HeadsHave(hs - {h}, ts, v);
      PrependHas(h, ts, v);
    }
    forall v | v in Heads(hs - {h}, ts) ensures v !in Prepend(h, ts) {
      HeadsHave(hs - {h}, ts, v);
      PrependHas(h, ts, v);
    }
  }

  lemma {:induction false} HeadsSize(hs: set<nat>, ts: set<Vector>)
    ensures |Heads(hs, ts)| == |hs| * |ts|
  {
    hide Prepend;
    if hs == {} {
      assert Heads(hs, ts) == {};
    } else {
      var h: nat :| h in hs;
      var rest := hs - {h};
      HeadsSize(rest, ts);
      HeadsSplit(hs, h, ts);
      PrependSize(h, ts);
      UnionSize(Heads(rest, ts), Prepend(h, ts));
      OneMore(|rest|, |ts|);
    }
  }

  lemma PrependHas(w: int, vs: set<Vector>, v: Vector)
    ensures v in Prepend(w, vs) <==> v != [] && v[0] == w && v[1..] in vs
  {
    if v in Prepend(w, vs) {
      var u :| u in vs && v == [w] + u;
      assert v[1..] == u;
    }
    if v != [] && v[0] == w && v[1..] in vs {
      assert v == [w] + v[1..];
    }
  }

  /** The tuples of accepted words that come to these weights. */
  ghost function WordsFor(v: Vector): set<Vector>
    requires AreWeights(v)
  {
    if v == [] then {[]}
    else
      assert IsWeight(v[0]) && forall k :: 1 <= k < |v| ==> IsWeight(v[k]);
      Heads(U.Preimage(WEIGHTS, v[0] - 1), WordsFor(v[1..]))
  }

  lemma {:induction false} WordsForHave(v: Vector, words: Vector)
    requires AreWeights(v)
    ensures words in WordsFor(v) <==> (forall k :: 0 <= k < |words| ==> IsAccepted(words[k])) && Weigh(words) == v
  {
    if v != [] {
      assert IsWeight(v[0]);
      assert forall k :: 1 <= k < |v| ==> IsWeight(v[k]);
      HeadsHave(U.Preimage(WEIGHTS, v[0] - 1), WordsFor(v[1..]), words);
      if words != [] {
        WordsForHave(v[1..], words[1..]);
        WeighFirst(words, v);
        assert forall k :: 1 <= k < |words| ==> words[1..][k - 1] == words[k];
      }
    }
  }

  lemma WeighFirst(words: Vector, v: Vector)
    requires words != [] && v != []
    ensures Weigh(words) == v <==> 1 + words[0] % WEIGHTS == v[0] && Weigh(words[1..]) == v[1..]
  {
    assert Weigh(words)[1..] == Weigh(words[1..]);
    assert v == [v[0]] + v[1..];
    assert Weigh(words) == [Weigh(words)[0]] + Weigh(words)[1..];
  }

  lemma {:induction false} WordsForSize(v: Vector)
    requires AreWeights(v)
    ensures |WordsFor(v)| == Power(SHARE, |v|)
  {
    if v != [] {
      assert IsWeight(v[0]);
      assert forall k :: 1 <= k < |v| ==> IsWeight(v[k]);
      WordsForSize(v[1..]);
      HeadsSize(U.Preimage(WEIGHTS, v[0] - 1), WordsFor(v[1..]));
      U.EveryResidueEqually(WEIGHTS, v[0] - 1);
    }
  }

  // ---- all vectors of a set ----

  ghost predicate AllWeights(vs: set<Vector>, n: nat) {
    forall v :: v in vs ==> |v| == n && AreWeights(v)
  }

  ghost function WordsOf(vs: set<Vector>, n: nat): set<Vector>
    requires AllWeights(vs, n)
  {
    set v, words | v in vs && words in WordsFor(v) :: words
  }

  lemma WordsOfHave(vs: set<Vector>, n: nat, words: Vector)
    requires AllWeights(vs, n)
    ensures words in WordsOf(vs, n) <==> (forall k :: 0 <= k < |words| ==> IsAccepted(words[k])) && Weigh(words) in vs
  {
    hide Weigh, AreWeights, IsAccepted;
    if words in WordsOf(vs, n) {
      var v :| v in vs && words in WordsFor(v);
      WordsForHave(v, words);
    }
    if Weigh(words) in vs {
      WordsForHave(Weigh(words), words);
    }
  }

  lemma {:induction false} WordsOfSize(vs: set<Vector>, n: nat)
    requires AllWeights(vs, n)
    ensures |WordsOf(vs, n)| == |vs| * Power(SHARE, n)
  {
    hide Weigh, AreWeights, IsAccepted, WordsFor, Power;
    if vs == {} {
      assert WordsOf(vs, n) == {};
    } else {
      var v :| v in vs;
      var rest := vs - {v};
      WordsOfSize(rest, n);
      WordsForSize(v);
      forall words ensures words in WordsOf(vs, n) <==> words in WordsOf(rest, n) + WordsFor(v) {
        WordsOfHave(vs, n, words);
        WordsOfHave(rest, n, words);
        WordsForHave(v, words);
      }
      forall words | words in WordsOf(rest, n) ensures words !in WordsFor(v) {
        WordsOfHave(rest, n, words);
        WordsForHave(v, words);
      }
      UnionSize(WordsOf(rest, n), WordsFor(v));
      assert WordsOf(vs, n) == WordsOf(rest, n) + WordsFor(v);
      OneMore(|rest|, Power(SHARE, n));
    }
  }

  lemma ElectingAreWeights(n: nat, j: nat)
    requires j < n
    ensures AllWeights(Electing(n, j, WEIGHTS), n)
  {
    hide Electing;
    forall v | v in Electing(n, j, WEIGHTS) ensures |v| == n && AreWeights(v) {
      ElectingHas(n, j, WEIGHTS, v);
    }
  }

  /** The tuples of n accepted words whose weights elect position j. */
  ghost function ElectingWords(n: nat, j: nat): set<Vector>
    requires j < n
  {
    ElectingAreWeights(n, j);
    WordsOf(Electing(n, j, WEIGHTS), n)
  }

  lemma ElectingWordsHave(n: nat, j: nat, words: Vector)
    requires j < n
    ensures words in ElectingWords(n, j)
            <==> && |words| == n
                 && (forall k :: 0 <= k < n ==> 0x1_0000_0000 % 20000 <= words[k] < 0x1_0000_0000)
                 && FirstMaximum(seq(|words|, k requires 0 <= k < |words| => 1 + words[k] % 20000), j)
  {
    hide Electing, WordsOf, FirstMaximum;
    ElectingAreWeights(n, j);
    WordsOfHave(Electing(n, j, WEIGHTS), n, words);
    ElectingHas(n, j, WEIGHTS, Weigh(words));
    WeighBounds(words);
    assert Weigh(words) == seq(|words|, k requires 0 <= k < |words| => 1 + words[k] % 20000);
  }

  lemma WeighBounds(words: Vector)
    ensures forall k :: 0 <= k < |words| ==> 1 <= Weigh(words)[k] <= WEIGHTS
  {
  }

  /**
   * The distribution of a password symbol: with every word equally likely, position j has its count
   * of weight vectors, and each weight vector the same number of word tuples.
   */
  lemma ElectingWordsSize(n: nat, j: nat)
    requires j < n
    ensures |ElectingWords(n, j)| == Count(n, j, 20000) * Power(0x1_0000_0000 / 20000, n)
  {
    hide Electing, WordsOf, Count, Power;
    ElectingAreWeights(n, j);
    WordsOfSize(Electing(n, j, WEIGHTS), n);
    ElectingSize(n, j, WEIGHTS);
  }
}
