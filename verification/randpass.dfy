/** Picking a password symbol by symbol: the symbol with the first greatest random weight (randpass.c). */
module RandPass {
  import A = Arc4
  import U = Uniform

  const MAX_PASSWORD_LENGTH: int := 256

  /** arc4random_uniform(20000). */
  type Draw = x: int | 0 <= x < 20000

  datatype Code = Returned(code: int) | ZeroSize

  /** The first position with the greatest weight. */
  ghost predicate FirstMaximum(w: seq<int>, k: nat) {
    && k < |w|
    && (forall m :: 0 <= m < |w| ==> w[m] <= w[k])
    && (forall m :: 0 <= m < k ==> w[m] < w[k])
  }

  lemma FirstMaximumUnique(w: seq<int>, j: nat, k: nat)
    requires FirstMaximum(w, j) && FirstMaximum(w, k)
    ensures j == k
  {
    assert w[j] <= w[k] && w[k] <= w[j];
  }

  /** The weights of the i-th symbol: draws number i*n, ..., i*n + n - 1, each plus one. */
  function Weights(draws: nat -> Draw, n: nat, i: nat): (w: seq<int>)
    ensures |w| == n && forall j :: 0 <= j < n ==> w[j] == 1 + draws(i * n + j)
  {
    seq(n, j requires 0 <= j < n => 1 + draws(i * n + j))
  }

  /** The symbol elected by the weights. */
  ghost predicate Elected<T>(symbol: T, charset: seq<T>, w: seq<int>) {
    exists k: nat :: FirstMaximum(w, k) && k < |charset| && symbol == charset[k]
  }

  /** Scan for the greatest weight, starting from weight 0 at position 0. */
  method Elect(w: array<int>) returns (k: nat)
    requires w.Length > 0 && forall j :: 0 <= j < w.Length ==> w[j] >= 1
    ensures FirstMaximum(w[..], k)
  {
    var maxWeight := 0;
    k := 0;
    for j := 0 to w.Length
      invariant j > 0 ==> k < j && maxWeight == w[k]
      invariant j == 0 ==> k == 0 && maxWeight == 0
      invariant forall m :: 0 <= m < j ==> w[m] <= maxWeight
      invariant forall m :: 0 <= m < k ==> w[m] < maxWeight
    {
      if w[j] > maxWeight {
        maxWeight, k := w[j], j;
      }
    }
  }

  /** The numbers below 20000 that a generator yields: draw k is the residue of the k-th word it accepts. */
  function DrawsOf(m: A.Machine, entropy: nat -> A.Key, at: nat -> nat): nat -> Draw {
    (k: nat) => A.WordOf(m, entropy, at(k)) % WEIGHTS
  }

  const WEIGHTS: nat := 20000

  /** The generator has handed out k numbers since machine m. */
  ghost predicate Drawn(gen: A.Generator, m: A.Machine, at: nat -> nat, k: nat)
    reads gen, gen.s
  {
    gen.Valid() && gen.View() == A.Draws(m, gen.entropy, A.Position(at, k))
  }

  lemma NextAt(at: nat -> nat, n: nat, m: A.Machine, entropy: nat -> A.Key, k: nat)
    requires A.Enumerates(at, n, m, entropy, U.WORDS % WEIGHTS) && k < n
    ensures A.AcceptedFrom(m, entropy, U.WORDS % WEIGHTS, A.Position(at, k), at(k))
    ensures A.Position(at, k) <= at(k) && A.Position(at, k + 1) == at(k) + 1
  {
    hide A.Accepted;
  }

  /** arc4random_uniform(20000), draw number k. */
  method NextDraw(gen: A.Generator, wide: bool, ghost m: A.Machine, ghost at: nat -> nat, ghost n: nat, ghost k: nat)
    returns (x: Draw)
    requires Drawn(gen, m, at, k) && k < n
    requires A.Enumerates(at, n, m, gen.entropy, U.WORDS % WEIGHTS)
    modifies gen, gen.s
    ensures Drawn(gen, m, at, k + 1) && x == DrawsOf(m, gen.entropy, at)(k)
    ensures x == A.WordOf(m, gen.entropy, at(k)) % 20000
  {
    hide A.Draws, A.WordOf, A.AcceptedFrom, A.SomeAccepted, A.FirstAccepted, A.Enumerates, A.Position;
    ghost var p, q := A.Position(at, k), at(k);
    NextAt(at, n, m, gen.entropy, k);
    A.NextAccepted(m, gen.entropy, U.WORDS % WEIGHTS, p, q);
    var r, tries := gen.RandomUniform(WEIGHTS, wide, q - p + 1);
    A.NextPosition(m, gen.entropy, U.WORDS % WEIGHTS, p, q, tries);
    x := r;
  }

  /** Assign the weights of the i-th symbol. */
  method FillWeights(
    w: array<int>, gen: A.Generator, wide: bool, ghost m: A.Machine, ghost at: nat -> nat, ghost n: nat, ghost i: nat
  )
    requires i * w.Length + w.Length <= n && Drawn(gen, m, at, i * w.Length)
    requires (w as object) != (gen.s as object) && (w as object) != (gen as object)
    requires A.Enumerates(at, n, m, gen.entropy, U.WORDS % WEIGHTS)
    modifies w, gen, gen.s
    ensures w[..] == Weights(DrawsOf(m, gen.entropy, at), w.Length, i)
    ensures Drawn(gen, m, at, i * w.Length + w.Length)
  {
    hide A.Enumerates, A.WordOf, A.Draws, Drawn, DrawsOf;
    ghost var draws, start := DrawsOf(m, gen.entropy, at), i * w.Length;
    for j := 0 to w.Length
      invariant Drawn(gen, m, at, start + j)
      invariant forall k :: 0 <= k < j ==> w[k] == 1 + draws(start + k)
    {
      var x: int := NextDraw(gen, wide, m, at, n, start + j);
      w[j] := 1 + x;
    }
  }

  /** Row i of length rows of n draws each. */
  lemma RowFits(i: nat, length: nat, n: nat)
    requires i < length
    ensures i * n + n == (i + 1) * n <= length * n
  {
    var rest := length - (i + 1);
    assert length * n == (i + 1) * n + rest * n;
  }

  /**
   * generate_password_from_set; nul is the terminator. The buffer must have room for the
   * password and its terminator; an empty set makes xcalloc exit. That the generator accepts
   * enough words, those at the positions at(0), at(1), ..., is the assumption of arc4random_uniform.
   */
  method GeneratePasswordFromSet<T>(
    password: array<T>, length: int, charset: seq<T>, nul: T, gen: A.Generator, wide: bool, ghost at: nat -> nat
  )
    returns (code: Code)
    requires 1 <= length <= MAX_PASSWORD_LENGTH ==> length < password.Length
    requires gen.Valid() && (password as object) != (gen.s as object)
    requires 1 <= length <= MAX_PASSWORD_LENGTH ==>
               A.Enumerates(at, length * |charset|, gen.View(), gen.entropy, U.WORDS % WEIGHTS)
    modifies password, gen, gen.s
    ensures length < 1 || length > 256 <==> code == Returned(-1)
    ensures 1 <= length <= MAX_PASSWORD_LENGTH ==> code == if charset == [] then ZeroSize else Returned(0)
    ensures code != Returned(0) ==> password[..] == old(password[..]) && gen.View() == old(gen.View())
    ensures code == Returned(0) ==>
              && (forall i :: 0 <= i < length ==>
                                Elected(password[i], charset,
                                        Weights(DrawsOf(old(gen.View()), gen.entropy, at), |charset|, i)))
              && password[length] == nul
              && (forall i :: length < i < password.Length ==> password[i] == old(password[i]))
              && Drawn(gen, old(gen.View()), at, length * |charset|)
  {
    hide A.Enumerates, A.Draws, A.WordOf, DrawsOf, Drawn, FirstMaximum;
    if length > MAX_PASSWORD_LENGTH || length < 1 {
      return Returned(-1);
    }
    if |charset| == 0 {
      return ZeroSize;
    }
    ghost var m, n := gen.View(), |charset|;
    ghost var draws := DrawsOf(m, gen.entropy, at);
    NothingDrawn(gen, at);
    var randomWeight := new int[|charset|](_ => 0);
    for i := 0 to length
      invariant forall k :: 0 <= k < i ==> Elected(password[k], charset, Weights(draws, n, k))
      invariant forall k :: i <= k < password.Length ==> password[k] == old(password[k])
      invariant Drawn(gen, m, at, i * n)
    {
      RowFits(i, length, n);
      FillWeights(randomWeight, gen, wide, m, at, length * n, i);
      assert forall j :: 0 <= j < |charset| ==> randomWeight[j] == randomWeight[..][j];
      var k := Elect(randomWeight);
      assert Elected(charset[k], charset, Weights(draws, n, i));
      password[i] := charset[k];
      forall j | 0 <= j < |charset| {
        randomWeight[j] := 0;
      }
    }
    password[length] := nul;
    return Returned(0);
  }

  lemma NothingDrawn(gen: A.Generator, at: nat -> nat)
    requires gen.Valid()
    ensures Drawn(gen, gen.View(), at, 0)
  {
  }
}
