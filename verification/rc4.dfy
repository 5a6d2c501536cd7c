/** The stream cipher state of arc4random.c as values, and what its two transitions keep. */
module Rc4 {

  type Byte = x: int | 0 <= x < 256

  type Sbox = s: seq<Byte> | |s| == 256 witness seq(256, _ => 0)

  /** struct arc4_stream. */
  datatype State = State(i: Byte, j: Byte, s: Sbox)

  /** u_int8_t addition and subtraction, with wrap-around. */
  function Add(a: Byte, b: Byte): (c: Byte)
    ensures c == (a + b) % 256
  {
    if a + b < 256 then a + b else a + b - 256
  }

  function Sub(a: Byte, b: Byte): (c: Byte)
    ensures c == (a - b) % 256
  {
    if a < b then a - b + 256 else a - b
  }

  function Swap(s: Sbox, i: Byte, j: Byte): (t: Sbox)
    ensures t[i] == s[j] && t[j] == s[i]
    ensures forall k :: 0 <= k < 256 && k != i && k != j ==> t[k] == s[k]
  {
    s[i := s[j]][j := s[i]]
  }

  /** arc4_getbyte: the transition. */
  function Next(g: State): State {
    var i := Add(g.i, 1);
    var j := Add(g.j, g.s[i]);
    State(i, j, Swap(g.s, i, j))
  }

  /** arc4_getbyte: the byte returned, read off the state after the transition. */
  function Output(g: State): Byte {
    g.s[Add(g.s[g.i], g.s[g.j])]
  }

  /** One turn of the loop of arc4_addrandom on key byte b. */
  function MixStep(g: State, b: Byte): State {
    var i := Add(g.i, 1);
    var j := Add(Add(g.j, g.s[i]), b);
    State(i, j, Swap(g.s, i, j))
  }

  /** The key, repeated as often as needed. */
  function KeyByte(key: seq<Byte>, n: nat): Byte
    requires key != []
  {
    key[n % |key|]
  }

  /** The first n turns of that loop. */
  function MixSteps(g: State, key: seq<Byte>, n: nat): State
    requires key != []
  {
    if n == 0 then g else MixStep(MixSteps(g, key, n - 1), KeyByte(key, n - 1))
  }

  /** arc4_addrandom. */
  function Mix(g: State, key: seq<Byte>): State
    requires key != []
  {
    var h := MixSteps(g.(i := Sub(g.i, 1)), key, 256);
    h.(j := h.i)
  }

  function Steps(g: State, n: nat): State {
    if n == 0 then g else Next(Steps(g, n - 1))
  }

  function Identity(): (s: Sbox)
    ensures forall k :: 0 <= k < 256 ==> s[k] == k
  {
    seq(256, k requires 0 <= k < 256 => k)
  }

  /** arc4_init. */
  function Init(): State {
    State(0, 0, Identity())
  }

  // ---- the box stays a permutation of 0..255 ----

  ghost predicate IsPermutation(s: Sbox) {
    multiset(s) == multiset(Identity())
  }

  lemma SwapPermutes(s: Sbox, i: Byte, j: Byte)
    ensures multiset(Swap(s, i, j)) == multiset(s)
  {
  }

  lemma MixStepPermutes(g: State, b: Byte)
    requires IsPermutation(g.s)
    ensures IsPermutation(MixStep(g, b).s)
  {
    var i := Add(g.i, 1);
    SwapPermutes(g.s, i, Add(Add(g.j, g.s[i]), b));
  }

  lemma {:induction false} MixPermutes(g: State, key: seq<Byte>, n: nat)
    requires key != [] && IsPermutation(g.s)
    ensures IsPermutation(MixSteps(g, key, n).s)
  {
    hide MixStep, IsPermutation, KeyByte;
    if n > 0 {
      MixPermutes(g, key, n - 1);
      MixStepPermutes(MixSteps(g, key, n - 1), KeyByte(key, n - 1));
    }
  }

  lemma NextPermutes(g: State)
    requires IsPermutation(g.s)
    ensures IsPermutation(Next(g).s)
  {
    var i := Add(g.i, 1);
    SwapPermutes(g.s, i, Add(g.j, g.s[i]));
  }

  /** Every byte value sits at exactly one index. */
  lemma PermutationMeans(s: Sbox, v: Byte)
    requires IsPermutation(s)
    ensures exists k :: 0 <= k < 256 && s[k] == v && forall m :: 0 <= m < 256 && s[m] == v ==> m == k
  {
    assert v in multiset(Identity()) by {
      assert Identity()[v] == v;
    }
    assert v in multiset(s);
    var k :| 0 <= k < 256 && s[k] == v;
    forall m | 0 <= m < 256 && s[m] == v ensures m == k {
      if m != k {
        TwiceAt(s, k, m);
        OnceIn(v);
      }
    }
  }

  lemma TwiceAt(s: seq<Byte>, k: nat, m: nat)
    requires k < |s| && m < |s| && k != m && s[k] == s[m]
    ensures multiset(s)[s[k]] >= 2
  {
    var lo, hi := if k < m then k else m, if k < m then m else k;
    assert s == s[..lo] + [s[lo]] + s[lo + 1..hi] + [s[hi]] + s[hi + 1..];
  }

  lemma OnceIn(v: Byte)
    ensures multiset(Identity())[v] == 1
  {
    var s := Identity();
    assert s == s[..v] + [v] + s[v + 1..];
    assert v !in s[..v] && v !in s[v + 1..];
  }

  // ---- Finney states ----

  /** The states of the short cycle: j just ahead of i, on a 1. */
  predicate Finney(g: State) {
    g.j == Add(g.i, 1) && g.s[g.j] == 1
  }

  /** They are closed under the output transition and under its inverse. */
  lemma FinneyClosed(g: State)
    ensures Finney(Next(g)) <==> Finney(g)
  {
  }

  lemma {:induction false} FinneyClosedSteps(g: State, n: nat)
    ensures Finney(Steps(g, n)) <==> Finney(g)
  {
    if n > 0 {
      FinneyClosedSteps(g, n - 1);
      FinneyClosed(Steps(g, n - 1));
    }
  }

  /** Key mixing never ends in one. */
  lemma MixIsNotFinney(g: State, key: seq<Byte>)
    requires key != []
    ensures !Finney(Mix(g, key))
  {
  }

  // ---- the transition is a bijection ----

  function Previous(g: State): State {
    var s := Swap(g.s, g.i, g.j);
    State(Sub(g.i, 1), Sub(g.j, s[g.i]), s)
  }

  lemma AddBack(a: Byte, b: Byte)
    ensures Sub(Add(a, b), b) == a == Add(Sub(a, b), b)
  {
  }

  lemma PreviousUndoesNext(g: State)
    ensures Previous(Next(g)) == g
  {
    var h := Next(g);
    SwapBack(g.s, h.i, h.j);
    AddBack(g.i, 1);
    AddBack(g.j, g.s[h.i]);
  }

  lemma NextUndoesPrevious(g: State)
    ensures Next(Previous(g)) == g
  {
    var h := Previous(g);
    SwapBack(g.s, g.i, g.j);
    AddBack(g.i, 1);
    AddBack(g.j, h.s[g.i]);
  }

  lemma SwapBack(s: Sbox, i: Byte, j: Byte)
    ensures Swap(Swap(s, i, j), i, j) == s
  {
  }

  lemma {:induction false} NeverMerge(g: State, h: State, n: nat)
    requires Steps(g, n) == Steps(h, n)
    ensures g == h
  {
    if n > 0 {
      var a, b := Steps(g, n - 1), Steps(h, n - 1);
      assert Next(a) == Next(b);
      PreviousUndoesNext(a);
      PreviousUndoesNext(b);
      NeverMerge(g, h, n - 1);
    }
  }

  // ---- the textbook key schedule ----

  datatype Schedule = Schedule(s: Sbox, j: Byte)

  /** The RC4 key schedule after its first n swaps: S is swapped at n-1 and j := j + S[n-1] + K[(n-1) mod |K|]. */
  function KeySchedule(key: seq<Byte>, n: nat): Schedule
    requires key != [] && n <= 256
  {
    if n == 0 then Schedule(Identity(), 0)
    else
      var p := KeySchedule(key, n - 1);
      var j := Add(Add(p.j, p.s[n - 1]), key[(n - 1) % |key|]);
      Schedule(Swap(p.s, n - 1, j), j)
  }

  /** The index in front of n, as the byte the loop holds between turns. */
  function Before(n: nat): Byte
    requires n <= 256
  {
    if n == 0 then 255 else n - 1
  }

  lemma ScheduleStep(g: State, p: Schedule, b: Byte, n: nat)
    requires 0 < n <= 256 && g == State(Before(n - 1), p.j, p.s)
    ensures var j := Add(Add(p.j, p.s[n - 1]), b);
            MixStep(g, b) == State(n - 1, j, Swap(p.s, n - 1, j))
  {
    assert Add(g.i, 1) == n - 1;
  }

  lemma {:induction false} ScheduleSteps(g: State, key: seq<Byte>, n: nat)
    requires key != [] && n <= 256 && g == State(255, 0, Identity())
    ensures MixSteps(g, key, n) == State(Before(n), KeySchedule(key, n).j, KeySchedule(key, n).s)
  {
    if n > 0 {
      var p := KeySchedule(key, n - 1);
      ScheduleSteps(g, key, n - 1);
      ScheduleStep(MixSteps(g, key, n - 1), p, KeyByte(key, n - 1), n);
    }
  }

  /** The first mixing of a fresh generator is that key schedule. */
  lemma FirstMixIsKeySchedule(key: seq<Byte>)
    requires key != []
    ensures Mix(Init(), key) == State(255, 255, KeySchedule(key, 256).s)
  {
    ScheduleSteps(State(255, 0, Identity()), key, 256);
  }

  // ---- the two transitions, spelled out ----

  /** The step and the byte it hands out, from the state in front of it. */
  lemma StepAndByte(g: State)
    ensures var i := (g.i + 1) % 256;
            var si: int := g.s[i];
            var j := (g.j + si) % 256;
            var sj: int := g.s[j];
            var box := g.s[i := sj][j := si];
            Next(g) == State(i, j, box) && Output(Next(g)) == box[(si + sj) % 256]
  {
  }

  /** In a permuted box that byte stands at that index and nowhere else. */
  lemma ByteStandsAt(g: State, v: Byte)
    requires IsPermutation(g.s)
    ensures var i := (g.i + 1) % 256;
            var si: int := g.s[i];
            var j := (g.j + si) % 256;
            var sj: int := g.s[j];
            var box := g.s[i := sj][j := si];
            Output(Next(g)) == v <==> forall k :: 0 <= k < 256 ==> (box[k] == v <==> k == (si + sj) % 256)
  {
    StepAndByte(g);
    NextPermutes(g);
    PermutationMeans(Next(g).s, v);
  }

  /** The first byte of a generator that was only initialised. */
  lemma FirstByteIsTwo()
    ensures Output(Next(Init())) == 2
  {
    StepAndByte(Init());
  }

  /** One turn of the mixing loop. */
  lemma MixTurn(g: State, key: seq<Byte>, n: nat)
    requires key != []
    ensures var h := MixSteps(g, key, n);
            var i := (h.i + 1) % 256;
            var j := (h.j + h.s[i] + key[n % |key|]) % 256;
            MixSteps(g, key, n + 1) == State(i, j, h.s[i := h.s[j]][j := h.s[i]])
  {
    var h := MixSteps(g, key, n);
    AddThree(h.j, h.s[(h.i + 1) % 256], key[n % |key|]);
  }

  lemma AddThree(a: Byte, b: Byte, c: Byte)
    ensures Add(Add(a, b), c) == (a + b + c) % 256
  {
  }

  lemma TurnIndex(g: State, key: seq<Byte>, n: nat)
    requires key != []
    ensures MixSteps(g, key, n + 1).i == (MixSteps(g, key, n).i + 1) % 256
  {
  }

  lemma NextIndex(i: nat, n: nat)
    ensures ((i + n) % 256 + 1) % 256 == (i + n + 1) % 256
  {
  }

  lemma {:induction false} MixIndex(g: State, key: seq<Byte>, n: nat)
    requires key != []
    ensures MixSteps(g, key, n).i == (g.i + n) % 256
  {
    hide MixSteps;
    if n == 0 {
      NoTurn(g, key);
    } else {
      MixIndex(g, key, n - 1);
      TurnIndex(g, key, n - 1);
      NextIndex(g.i, n - 1);
    }
  }

  lemma NoTurn(g: State, key: seq<Byte>)
    requires key != []
    ensures MixSteps(g, key, 0) == g
  {
  }

  /** From wherever it starts, turn n of the mixing, from 0, swaps at n places beyond i. */
  lemma MixVisits(g: State, key: seq<Byte>, n: nat)
    requires key != []
    ensures MixSteps(g.(i := (g.i + 255) % 256), key, n + 1).i == (g.i + n) % 256
  {
    hide MixSteps;
    MixIndex(g.(i := (g.i + 255) % 256), key, n + 1);
    Around(g.i, n);
  }

  lemma Around(i: nat, n: nat)
    ensures ((i + 255) % 256 + (n + 1)) % 256 == (i + n) % 256
  {
  }

  /** After 256 turns i is one back from where it was, and j is put there too. */
  lemma MixEnds(g: State, key: seq<Byte>)
    requires key != []
    ensures var back := (g.i + 255) % 256;
            Mix(g, key) == State(back, back, MixSteps(g.(i := back), key, 256).s)
  {
    hide MixSteps;
    MixVisits(g, key, 255);
  }

  /** The Finney states in plain arithmetic. */
  lemma FinneyIs(g: State)
    ensures Finney(g) <==> g.j == (g.i + 1) % 256 && g.s[(g.i + 1) % 256] == 1
  {
  }
}
