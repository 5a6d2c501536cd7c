/** The generator around the stream cipher: initialisation, stirring and the four public calls (arc4random.c). */
module Arc4 {
  import opened Rc4
  import U = Uniform

  /** KEYSIZE bytes from /dev/urandom, or whatever stood in the buffer if that failed. */
  type Key = k: seq<Byte> | |k| == 128 witness seq(128, _ => 0)

  const BUDGET: int := 1600000

  /** The globals rs, rs_initialized, rs_stired and arc4_count; with them what they are to be measured by. */
  datatype Machine = Machine(
    rs: State,
    initialized: bool,
    stired: bool,
    count: int,
    stirs: nat,      // how often entropy was read
    delivered: nat   // bytes handed out since the last stir
  )

  function InitMachine(m: Machine): Machine {
    if m.initialized then m else m.(rs := Init(), initialized := true)
  }

  /** arc4_stir and the assignment to rs_stired that follows each of its calls. */
  function StirMachine(m: Machine, entropy: nat -> Key): Machine {
    m.(rs := Steps(Mix(m.rs, entropy(m.stirs)), 1024), stired := true,
       count := BUDGET, stirs := m.stirs + 1, delivered := 0)
  }

  function StirIfDue(m: Machine, entropy: nat -> Key): Machine {
    if !m.stired || m.count <= 0 then StirMachine(m, entropy) else m
  }

  /** n bytes handed out. */
  function Deliver(m: Machine, n: nat): Machine {
    m.(rs := Steps(m.rs, n), count := m.count - n, delivered := m.delivered + n)
  }

  /** The k-th byte, from 1, after state g. */
  function ByteAt(g: State, k: nat): Byte {
    Output(Steps(g, k))
  }

  function RandomMachine(m: Machine, entropy: nat -> Key): Machine {
    Deliver(StirIfDue(InitMachine(m), entropy), 4)
  }

  /** arc4_getword after n bytes: the next four bytes, the first one highest. */
  function WordAt(g: State, n: nat): nat {
    Compose(ByteAt(g, n + 1), ByteAt(g, n + 2), ByteAt(g, n + 3), ByteAt(g, n + 4))
  }

  function Compose(b1: Byte, b2: Byte, b3: Byte, b4: Byte): nat {
    0x1000000 * b1 + 0x10000 * b2 + 0x100 * b3 + b4
  }

  function RandomWord(m: Machine, entropy: nat -> Key): nat {
    WordAt(StirIfDue(InitMachine(m), entropy).rs, 0)
  }

  /** The loop of arc4random_buf: each byte checks the budget. */
  function Bytes(m: Machine, entropy: nat -> Key, n: nat): Machine {
    if n == 0 then m else Deliver(StirIfDue(Bytes(m, entropy, n - 1), entropy), 1)
  }

  /** The k-th byte of that loop, from 1. */
  function BytesAt(m: Machine, entropy: nat -> Key, k: nat): Byte {
    Output(Bytes(m, entropy, k).rs)
  }

  function Buf(m: Machine, entropy: nat -> Key, n: nat): Machine {
    Bytes(InitMachine(m), entropy, n)
  }

  function AddRandom(m: Machine, entropy: nat -> Key, dat: seq<Byte>): Machine
    requires dat != []
  {
    var c := StirIfDue(InitMachine(m), entropy);
    c.(rs := Mix(c.rs, dat))
  }

  function StirNow(m: Machine, entropy: nat -> Key): Machine {
    StirMachine(InitMachine(m), entropy)
  }

  // ---- every run of public calls ----

  datatype Call = CallRandom | CallBuf(n: nat) | CallAddRandom(dat: seq<Byte>) | CallStir

  function Do(m: Machine, c: Call, entropy: nat -> Key): Machine
    requires c.CallAddRandom? ==> c.dat != []
  {
    match c
    case CallRandom => RandomMachine(m, entropy)
    case CallBuf(n) => Buf(m, entropy, n)
    case CallAddRandom(dat) => AddRandom(m, entropy, dat)
    case CallStir => StirNow(m, entropy)
  }

  function Run(m: Machine, calls: seq<Call>, entropy: nat -> Key): Machine
    requires forall c :: c in calls && c.CallAddRandom? ==> c.dat != []
  {
    if calls == [] then m else Do(Run(m, calls[..|calls| - 1], entropy), calls[|calls| - 1], entropy)
  }

  /** Static storage is zero. */
  function Start(): Machine {
    Machine(State(0, 0, seq(256, _ => 0)), false, false, 0, 0, 0)
  }

  /** What holds between any two calls. */
  ghost predicate Sound(m: Machine) {
    && (m.initialized ==> IsPermutation(m.rs.s))
    && !Finney(m.rs)
    && (m.stired ==> m.initialized && m.delivered + m.count == BUDGET && m.count >= -3)
    && (!m.stired ==> m.delivered == 0)
  }

  lemma {:induction false} StepsPermute(g: State, n: nat)
    requires IsPermutation(g.s)
    ensures IsPermutation(Steps(g, n).s)
  {
    hide Next, IsPermutation;
    if n > 0 {
      StepsPermute(g, n - 1);
      NextPermutes(Steps(g, n - 1));
    }
  }

  lemma InitIsSound(m: Machine)
    requires Sound(m)
    ensures Sound(InitMachine(m)) && InitMachine(m).initialized
  {
    assert !Finney(Init());
  }

  lemma StirIsSound(m: Machine, entropy: nat -> Key)
    requires Sound(m) && m.initialized
    ensures Sound(StirMachine(m, entropy))
  {
    var key := entropy(m.stirs);
    var g := Mix(m.rs, key);
    MixPermutes(m.rs.(i := Sub(m.rs.i, 1)), key, 256);
    MixIsNotFinney(m.rs, key);
    StepsPermute(g, 1024);
    FinneyClosedSteps(g, 1024);
  }

  lemma CheckStirIsSound(m: Machine, entropy: nat -> Key)
    requires Sound(m) && m.initialized
    ensures var c := StirIfDue(m, entropy); Sound(c) && c.initialized && c.stired && c.count > 0
  {
    StirIsSound(m, entropy);
  }

  lemma DeliverIsSound(m: Machine, n: nat)
    requires Sound(m) && m.stired && m.count >= n - 3
    ensures Sound(Deliver(m, n))
  {
    StepsPermute(m.rs, n);
    FinneyClosedSteps(m.rs, n);
  }

  lemma {:induction false} BytesAreSound(m: Machine, entropy: nat -> Key, n: nat)
    requires Sound(m) && m.initialized
    ensures Sound(Bytes(m, entropy, n)) && Bytes(m, entropy, n).initialized
  {
    hide Sound, Steps, Mix;
    if n > 0 {
      var b := Bytes(m, entropy, n - 1);
      BytesAreSound(m, entropy, n - 1);
      CheckStirIsSound(b, entropy);
      DeliverIsSound(StirIfDue(b, entropy), 1);
    }
  }

  lemma CallIsSound(m: Machine, c: Call, entropy: nat -> Key)
    requires Sound(m) && (c.CallAddRandom? ==> c.dat != [])
    ensures Sound(Do(m, c, entropy))
  {
    var i := InitMachine(m);
    InitIsSound(m);
    CheckStirIsSound(i, entropy);
    match c
    case CallRandom =>
      DeliverIsSound(StirIfDue(i, entropy), 4);
    case CallBuf(n) =>
      BytesAreSound(i, entropy, n);
    case CallAddRandom(dat) =>
      var g := StirIfDue(i, entropy).rs;
      MixPermutes(g.(i := Sub(g.i, 1)), dat, 256);
      MixIsNotFinney(g, dat);
    case CallStir =>
      StirIsSound(i, entropy);
  }

  /** In any interleaving of public calls the box is a permutation, no state a Finney state, and the budget adds up. */
  lemma {:induction false} EveryRunSound(calls: seq<Call>, entropy: nat -> Key)
    requires forall c :: c in calls && c.CallAddRandom? ==> c.dat != []
    ensures Sound(Run(Start(), calls, entropy))
    ensures var m := Run(Start(), calls, entropy);
            && (m.initialized ==> IsPermutation(m.rs.s))
            && !(m.rs.j == (m.rs.i + 1) % 256 && m.rs.s[m.rs.j] == 1)
            && (m.stired ==> m.delivered + m.count == 1600000 && m.count >= -3)
  {
    if calls != [] {
      EveryRunSound(calls[..|calls| - 1], entropy);
      CallIsSound(Run(Start(), calls[..|calls| - 1], entropy), calls[|calls| - 1], entropy);
    }
  }

  /** So at most 1600003 bytes come out between two stirs. */
  lemma BytesBetweenStirs(calls: seq<Call>, entropy: nat -> Key)
    requires forall c :: c in calls && c.CallAddRandom? ==> c.dat != []
    ensures Run(Start(), calls, entropy).delivered <= 1600003
  {
    EveryRunSound(calls, entropy);
  }

  /** A first call for many bytes stirs once and then goes on until the budget is spent. */
  lemma {:induction false} BytesFromStart(m: Machine, entropy: nat -> Key, n: nat)
    requires !m.stired && 1 <= n <= BUDGET
    ensures var b := Bytes(m, entropy, n); b.stired && b.delivered == n && b.count == BUDGET - n
  {
    if n == 1 {
      assert Bytes(m, entropy, 0) == m;
    } else {
      BytesFromStart(m, entropy, n - 1);
    }
  }

  /** And that many do come out: the last word starts with one byte of budget left. */
  lemma BytesBetweenStirsReached(entropy: nat -> Key)
    ensures Run(Start(), [CallBuf(1599999), CallRandom], entropy).delivered == 1600003
  {
    hide Bytes, Steps, Mix;
    var calls := [CallBuf(1599999), CallRandom];
    assert calls[..1] == [CallBuf(1599999)] && calls[..1][..0] == [];
    assert Run(Start(), [], entropy) == Start();
    assert Run(Start(), calls[..1], entropy) == Buf(Start(), entropy, 1599999);
    BytesFromStart(InitMachine(Start()), entropy, 1599999);
    StaysInitialized(InitMachine(Start()), entropy, 1599999);
  }

  lemma {:induction false} StaysInitialized(m: Machine, entropy: nat -> Key, n: nat)
    requires m.initialized
    ensures Bytes(m, entropy, n).initialized
  {
    if n > 0 {
      StaysInitialized(m, entropy, n - 1);
    }
  }

  // ---- the program ----

  class Generator {
    var i: Byte
    var j: Byte
    const s: array<Byte>
    var initialized: bool
    var stired: bool
    var count: int
    var stirs: nat
    ghost var delivered: nat
    const entropy: nat -> Key

    ghost predicate Valid()
      reads this
    {
      s.Length == 256
    }

    ghost function Stream(): State
      reads this, s
      requires Valid()
    {
      State(i, j, s[..])
    }

    ghost function View(): Machine
      reads this, s
      requires Valid()
    {
      Machine(Stream(), initialized, stired, count, stirs, delivered)
    }

    constructor (entropy: nat -> Key)
      ensures Valid() && fresh(s) && this.entropy == entropy && View() == Start()
    {
      i, j, s := 0, 0, new Byte[256](_ => 0);
      initialized, stired, count, stirs, delivered := false, false, 0, 0, 0;
      this.entropy := entropy;
    }

    method InitStream()
      requires Valid()
      modifies this`i, this`j, s
      ensures Stream() == Init()
    {
      for n := 0 to 256
        invariant forall k :: 0 <= k < n ==> s[k] == k
      {
        s[n] := n;
      }
      i, j := 0, 0;
    }

    method AddRandomBytes(dat: seq<Byte>)
      requires Valid() && dat != []
      modifies this`i, this`j, s
      ensures Stream() == Mix(old(Stream()), dat)
    {
      ghost var g := Stream().(i := Sub(i, 1));
      i := Sub(i, 1);
      for n := 0 to 256
        invariant Stream() == MixSteps(g, dat, n)
      {
        i := Add(i, 1);
        var si := s[i];
        j := Add(Add(j, si), KeyByte(dat, n));
        s[i] := s[j];
        s[j] := si;
      }
      j := i;
    }

    method GetByte() returns (b: Byte)
      requires Valid()
      modifies this`i, this`j, s
      ensures Stream() == Next(old(Stream())) && b == Output(Stream())
      ensures var box := old(s[..]);
              var i1 := (old(i) + 1) % 256;
              var si: int := box[i1];
              var j1 := (old(j) + si) % 256;
              var sj: int := box[j1];
              i == i1 && j == j1 && s[..] == box[i1 := sj][j1 := si] && b == s[(si + sj) % 256]
    {
      i := Add(i, 1);
      var si := s[i];
      j := Add(j, si);
      var sj := s[j];
      s[i] := sj;
      s[j] := si;
      b := s[Add(si, sj)];
    }

    method Discard(size: nat)
      requires Valid()
      modifies this`i, this`j, s
      ensures Stream() == Steps(old(Stream()), size)
    {
      ghost var g := Stream();
      for n := 0 to size
        invariant Stream() == Steps(g, n)
      {
        var discarded := NextByte(g, n);
      }
    }

    method Stir()
      requires Valid()
      modifies this, s
      ensures View() == StirMachine(old(View()), entropy)
    {
      hide Mix, Steps;
      var rdat := entropy(stirs);
      AddRandomBytes(rdat);
      Discard(1024);
      count, stirs, delivered, stired := BUDGET, stirs + 1, 0, true;
    }

    method CheckInit()
      requires Valid()
      modifies this, s
      ensures View() == InitMachine(old(View()))
    {
      if !initialized {
        InitStream();
        initialized := true;
      }
    }

    method CheckStir()
      requires Valid()
      modifies this, s
      ensures View() == StirIfDue(old(View()), entropy)
    {
      if !stired || count <= 0 {
        Stir();
      }
    }

    /** GetByte, counting the bytes taken since state g. */
    method NextByte(ghost g: State, ghost n: nat) returns (b: Byte)
      requires Valid() && Stream() == Steps(g, n)
      modifies this`i, this`j, s
      ensures Stream() == Steps(g, n + 1) && b == ByteAt(g, n + 1)
    {
      b := GetByte();
    }

    method GetWord(ghost g: State, ghost n: nat) returns (val: nat)
      requires Valid() && Stream() == Steps(g, n)
      modifies this`i, this`j, s
      ensures Stream() == Steps(g, n + 4) && val == WordAt(g, n)
    {
      var b1 := NextByte(g, n);
      var b2 := NextByte(g, n + 1);
      var b3 := NextByte(g, n + 2);
      var b4 := NextByte(g, n + 3);
      val := Compose(b1, b2, b3, b4);
    }

    /** arc4random_stir */
    method RandomStir()
      requires Valid()
      modifies this, s
      ensures View() == StirNow(old(View()), entropy)
    {
      CheckInit();
      Stir();
    }

    /** arc4random_addrandom */
    method RandomAddRandom(dat: seq<Byte>)
      requires Valid() && dat != []
      modifies this, s
      ensures View() == AddRandom(old(View()), entropy, dat)
    {
      CheckInit();
      CheckStir();
      AddRandomBytes(dat);
    }

    /** Charge the budget for n bytes taken since machine c. */
    method Charge(ghost c: Machine, n: nat)
      requires Valid() && View() == c.(rs := Steps(c.rs, n))
      modifies this`count, this`delivered
      ensures View() == Deliver(c, n)
    {
      count, delivered := count - n, delivered + n;
    }

    /** arc4random */
    method Random() returns (rnd: nat)
      requires Valid()
      modifies this, s
      ensures View() == RandomMachine(old(View()), entropy)
      ensures rnd == RandomWord(old(View()), entropy)
    {
      hide Next, Output;
      CheckInit();
      CheckStir();
      ghost var c := View();
      rnd := GetWord(c.rs, 0);
      Charge(c, 4);
    }

    /** One turn of the loop of arc4random_buf: byte number k + 1. */
    method BufByte(ghost m: Machine, ghost k: nat) returns (b: Byte)
      requires Valid() && View() == Bytes(m, entropy, k)
      modifies this, s
      ensures View() == Bytes(m, entropy, k + 1) && b == BytesAt(m, entropy, k + 1)
    {
      CheckStir();
      ghost var c := View();
      b := NextByte(c.rs, 0);
      Charge(c, 1);
    }

    /** arc4random_buf: the buffer is filled from its end. */
    method RandomBuf(buf: array<Byte>, size: nat)
      requires Valid() && size <= buf.Length && buf != s
      modifies this, s, buf
      ensures View() == Buf(old(View()), entropy, size)
      ensures forall k :: 0 <= k < size ==> buf[k] == BytesAt(InitMachine(old(View())), entropy, size - k)
      ensures forall k :: size <= k < buf.Length ==> buf[k] == old(buf[k])
    {
      hide StirIfDue, Deliver, Output;
      ghost var m := InitMachine(View());
      CheckInit();
      var n := size;
      while n > 0
        invariant 0 <= n <= size && Valid()
        invariant View() == Bytes(m, entropy, size - n)
        invariant forall k :: n <= k < size ==> buf[k] == BytesAt(m, entropy, size - k)
        invariant forall k :: size <= k < buf.Length ==> buf[k] == old(buf[k])
      {
        n := n - 1;
        var b := BufByte(m, size - n - 1);
        buf[n] := b;
      }
    }

    /** The next word, counting the words since machine m. */
    method Draw(ghost m: Machine, ghost k: nat) returns (rnd: nat)
      requires Valid() && View() == Draws(m, entropy, k)
      modifies this, s
      ensures View() == Draws(m, entropy, k + 1) && rnd == WordOf(m, entropy, k)
    {
      rnd := Random();
    }

    /**
     * arc4random_uniform. The loop ends at the first acceptable word; that one comes at all,
     * among the next fuel words, is the assumption the program makes about its generator.
     */
    method RandomUniform(upperBound: nat, wide: bool, ghost fuel: nat) returns (r: nat, ghost tries: nat)
      requires Valid() && upperBound < U.WORDS
      requires upperBound >= 2 ==> SomeAccepted(View(), entropy, U.WORDS % upperBound, fuel)
      modifies this, s
      ensures upperBound < 2 ==> r == 0 && View() == old(View())
      ensures upperBound >= 2 ==>
                && tries < fuel && FirstAccepted(old(View()), entropy, U.WORDS % upperBound, tries)
                && r == WordOf(old(View()), entropy, tries) % upperBound
                && View() == Draws(old(View()), entropy, tries + 1)
    {
      hide *;
      tries := 0;
      if upperBound < 2 {
        return 0, 0;
      }
      var min := U.RejectBelow(upperBound, wide);
      r, tries := FirstWord(min, fuel);
      r := r % upperBound;
    }

    /** The retry loop: draw until a word is at least min. */
    method FirstWord(min: nat, ghost fuel: nat) returns (r: nat, ghost tries: nat)
      requires Valid() && SomeAccepted(View(), entropy, min, fuel)
      modifies this, s
      ensures tries < fuel && FirstAccepted(old(View()), entropy, min, tries)
      ensures r == WordOf(old(View()), entropy, tries) && View() == Draws(old(View()), entropy, tries + 1)
    {
      hide RandomMachine, RandomWord;
      ghost var m := View();
      tries := 0;
      while true
        invariant Valid() && View() == Draws(m, entropy, tries)
        invariant forall k :: 0 <= k < tries ==> !Accepted(m, entropy, min, k)
        invariant exists k :: tries <= k < fuel && Accepted(m, entropy, min, k)
        decreases fuel - tries
      {
        r := Draw(m, tries);
        assert Accepted(m, entropy, min, tries) <==> r >= min;
        if r >= min {
          break;
        }
        tries := tries + 1;
      }
    }
  }

  // ---- successive words ----

  function Draws(m: Machine, entropy: nat -> Key, k: nat): Machine {
    if k == 0 then m else RandomMachine(Draws(m, entropy, k - 1), entropy)
  }

  /** The k-th word from here, counting from 0. */
  function WordOf(m: Machine, entropy: nat -> Key, k: nat): nat {
    RandomWord(Draws(m, entropy, k), entropy)
  }

  predicate Accepted(m: Machine, entropy: nat -> Key, min: nat, k: nat) {
    WordOf(m, entropy, k) >= min
  }

  /** One of the next fuel words is accepted. */
  ghost predicate SomeAccepted(m: Machine, entropy: nat -> Key, min: nat, fuel: nat) {
    exists k :: 0 <= k < fuel && Accepted(m, entropy, min, k)
  }

  ghost predicate FirstAccepted(m: Machine, entropy: nat -> Key, min: nat, k: nat) {
    Accepted(m, entropy, min, k) && forall n :: 0 <= n < k ==> !Accepted(m, entropy, min, n)
  }

  // ---- words drawn one uniform number after the other ----

  lemma {:induction false} DrawsConcat(m: Machine, entropy: nat -> Key, a: nat, b: nat)
    ensures Draws(Draws(m, entropy, a), entropy, b) == Draws(m, entropy, a + b)
  {
    hide RandomMachine;
    if b > 0 {
      DrawsConcat(m, entropy, a, b - 1);
    }
  }

  /** Where the search for accepted word number k begins. */
  function Position(at: nat -> nat, k: nat): nat {
    if k == 0 then 0 else at(k - 1) + 1
  }

  /** Word q is the first one from p on that is accepted. */
  ghost predicate AcceptedFrom(m: Machine, entropy: nat -> Key, min: nat, p: nat, q: nat) {
    p <= q && Accepted(m, entropy, min, q) && forall i :: p <= i < q ==> !Accepted(m, entropy, min, i)
  }

  /** at(k) is the k-th of the words that are accepted, for each k below n. */
  ghost predicate Enumerates(at: nat -> nat, n: nat, m: Machine, entropy: nat -> Key, min: nat) {
    forall k :: 0 <= k < n ==> AcceptedFrom(m, entropy, min, Position(at, k), at(k))
  }

  lemma AcceptedLater(m: Machine, entropy: nat -> Key, min: nat, a: nat, k: nat)
    ensures Accepted(Draws(m, entropy, a), entropy, min, k) <==> Accepted(m, entropy, min, a + k)
    ensures WordOf(Draws(m, entropy, a), entropy, k) == WordOf(m, entropy, a + k)
  {
    hide RandomWord;
    DrawsConcat(m, entropy, a, k);
  }

  /** One of the words from p on is accepted. */
  lemma NextAccepted(m: Machine, entropy: nat -> Key, min: nat, p: nat, q: nat)
    requires AcceptedFrom(m, entropy, min, p, q)
    ensures SomeAccepted(Draws(m, entropy, p), entropy, min, q - p + 1)
  {
    hide Accepted, Draws, WordOf;
    AcceptedLater(m, entropy, min, p, q - p);
  }

  /** The first one accepted is q, and the search goes on behind it. */
  lemma NextPosition(m: Machine, entropy: nat -> Key, min: nat, p: nat, q: nat, tries: nat)
    requires AcceptedFrom(m, entropy, min, p, q)
    requires FirstAccepted(Draws(m, entropy, p), entropy, min, tries)
    ensures WordOf(Draws(m, entropy, p), entropy, tries) == WordOf(m, entropy, q)
    ensures Draws(Draws(m, entropy, p), entropy, tries + 1) == Draws(m, entropy, q + 1)
  {
    hide Accepted, Draws, WordOf;
    AcceptedLater(m, entropy, min, p, tries);
    AcceptedLater(m, entropy, min, p, q - p);
    DrawsConcat(m, entropy, p, tries + 1);
  }
}
