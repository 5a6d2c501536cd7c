/** Which bytes of the key stream the public calls of the generator hand out. */
module Keystream {
  import opened Rc4
  import opened Arc4
  import U = Uniform

  lemma {:induction false} StepsConcat(g: State, a: nat, b: nat)
    ensures Steps(Steps(g, a), b) == Steps(g, a + b)
  {
    hide Next;
    if b > 0 {
      StepsConcat(g, a, b - 1);
    }
  }

  /** The next call that needs bytes has to stir first. */
  ghost predicate Due(m: Machine) {
    !m.stired || m.count <= 0
  }

  /** Exactly one stir since machine a, which mixed in this key, and nothing else mixed in. */
  ghost predicate OnStream(a: Machine, m: Machine, key: Key) {
    && m.initialized && m.stired && m.stirs == a.stirs + 1
    && m.rs == Steps(Mix(a.rs, key), 1024 + m.delivered)
  }

  /** Since machine a: no stir yet and one due, one stir, or more of them. */
  ghost predicate Follows(a: Machine, m: Machine, entropy: nat -> Key) {
    (m == a && Due(a)) || OnStream(a, m, entropy(a.stirs)) || m.stirs > a.stirs + 1
  }

  lemma StirFollows(a: Machine, entropy: nat -> Key)
    requires a.initialized
    ensures OnStream(a, StirMachine(a, entropy), entropy(a.stirs))
  {
    hide Steps, Mix;
  }

  lemma CheckFollows(a: Machine, m: Machine, entropy: nat -> Key)
    requires a.initialized && Follows(a, m, entropy)
    ensures var c := StirIfDue(m, entropy); OnStream(a, c, entropy(a.stirs)) || c.stirs > a.stirs + 1
  {
    hide Steps, Mix;
    StirFollows(a, entropy);
  }

  lemma DeliverFollows(a: Machine, m: Machine, entropy: nat -> Key, n: nat)
    requires OnStream(a, m, entropy(a.stirs)) || m.stirs > a.stirs + 1
    ensures OnStream(a, Deliver(m, n), entropy(a.stirs)) || Deliver(m, n).stirs > a.stirs + 1
  {
    hide Steps, Mix;
    StepsConcat(Mix(a.rs, entropy(a.stirs)), 1024 + m.delivered, n);
  }

  lemma {:induction false} BytesFollow(a: Machine, m: Machine, entropy: nat -> Key, n: nat)
    requires a.initialized && Follows(a, m, entropy)
    ensures Follows(a, Bytes(m, entropy, n), entropy)
  {
    hide StirIfDue, Deliver, OnStream;
    if n > 0 {
      var b := Bytes(m, entropy, n - 1);
      BytesFollow(a, m, entropy, n - 1);
      CheckFollows(a, b, entropy);
      DeliverFollows(a, StirIfDue(b, entropy), entropy, 1);
    }
  }

  lemma FollowersInitialized(a: Machine, m: Machine, entropy: nat -> Key)
    requires a.initialized && (m == a || OnStream(a, m, entropy(a.stirs)))
    ensures InitMachine(m) == m
  {
  }

  lemma InitKeepsStirs(m: Machine)
    ensures InitMachine(m).stirs == m.stirs
  {
  }

  lemma CallFollows(a: Machine, m: Machine, c: Call, entropy: nat -> Key)
    requires a.initialized && Follows(a, m, entropy) && !c.CallAddRandom?
    ensures Follows(a, Do(m, c, entropy), entropy)
  {
    hide StirIfDue, StirMachine, InitMachine, Deliver, OnStream, Bytes;
    var i := InitMachine(m);
    InitKeepsStirs(m);
    if m.stirs <= a.stirs + 1 {
      FollowersInitialized(a, m, entropy);
    }
    match c
    case CallRandom =>
      CheckFollows(a, i, entropy);
      DeliverFollows(a, StirIfDue(i, entropy), entropy, 4);
    case CallBuf(n) =>
      BytesFollow(a, i, entropy, n);
    case CallStir =>
      StirFollows(a, entropy);
      OneMoreStir(a, i, entropy);
  }

  lemma OneMoreStir(a: Machine, m: Machine, entropy: nat -> Key)
    ensures StirMachine(m, entropy).stirs == m.stirs + 1
    ensures OnStream(a, m, entropy(a.stirs)) ==> m.stirs == a.stirs + 1
  {
    hide Steps, Mix;
  }

  ghost predicate NoMixing(calls: seq<Call>) {
    forall c :: c in calls ==> !c.CallAddRandom?
  }

  ghost predicate Callable(calls: seq<Call>) {
    forall c :: c in calls && c.CallAddRandom? ==> c.dat != []
  }

  lemma {:induction false} RunConcat(m: Machine, a: seq<Call>, b: seq<Call>, entropy: nat -> Key)
    requires Callable(a) && Callable(b) && Callable(a + b)
    ensures Run(m, a + b, entropy) == Run(Run(m, a, entropy), b, entropy)
    decreases |b|
  {
    hide Do;
    if b == [] {
      assert a + b == a;
    } else {
      var n := |b| - 1;
      assert (a + b)[..|a| + n] == a + b[..n];
      RunConcat(m, a, b[..n], entropy);
    }
  }

  /** The machine in front of the calls in since, initialised if it was not. */
  ghost function Before(before: seq<Call>, entropy: nat -> Key): Machine
    requires Callable(before)
  {
    InitMachine(Run(Start(), before, entropy))
  }

  ghost predicate StirsFirst(before: seq<Call>, since: seq<Call>, entropy: nat -> Key)
    requires Callable(before)
  {
    since != [] && NoMixing(since) && (since[0] == CallStir || Due(Before(before, entropy)))
  }

  lemma InitTwice(m: Machine, c: Call, entropy: nat -> Key)
    requires c.CallAddRandom? ==> c.dat != []
    ensures Do(InitMachine(m), c, entropy) == Do(m, c, entropy)
  {
    hide StirIfDue, Deliver, Bytes, Mix, StirMachine;
  }

  lemma FirstCallFollows(m: Machine, c: Call, entropy: nat -> Key)
    requires !c.CallAddRandom? && (c == CallStir || Due(InitMachine(m)))
    ensures Follows(InitMachine(m), Do(m, c, entropy), entropy)
  {
    hide Do, OnStream;
    var a := InitMachine(m);
    InitTwice(m, c, entropy);
    if Due(a) {
      CallFollows(a, a, c, entropy);
    } else {
      StirCall(a, entropy);
    }
  }

  lemma StirCall(a: Machine, entropy: nat -> Key)
    requires a.initialized
    ensures OnStream(a, Do(a, CallStir, entropy), entropy(a.stirs))
  {
    StirFollows(a, entropy);
  }

  lemma {:induction false} RunFollows(m: Machine, calls: seq<Call>, entropy: nat -> Key)
    requires calls != [] && NoMixing(calls) && (calls[0] == CallStir || Due(InitMachine(m)))
    ensures Follows(InitMachine(m), Run(m, calls, entropy), entropy)
  {
    hide Do, Follows, Due, InitMachine;
    var n := |calls| - 1;
    if n == 0 {
      assert calls[..0] == [] && Run(m, calls[..0], entropy) == m;
      FirstCallFollows(m, calls[0], entropy);
    } else {
      RunFollows(m, calls[..n], entropy);
      Initializes(m);
      CallFollows(InitMachine(m), Run(m, calls[..n], entropy), calls[n], entropy);
    }
  }

  lemma Initializes(m: Machine)
    ensures InitMachine(m).initialized
  {
  }

  /**
   * The machine after any calls, and then calls that stir once, at their beginning or when it first is
   * due, and mix nothing in: it stands 1024 bytes and those delivered behind the mixing of that key.
   */
  lemma StandsBehindStir(before: seq<Call>, since: seq<Call>, entropy: nat -> Key)
    requires Callable(before) && Callable(before + since) && StirsFirst(before, since, entropy)
    requires Run(Start(), before + since, entropy).stirs == Before(before, entropy).stirs + 1
    ensures var a := Before(before, entropy);
            var m := Run(Start(), before + since, entropy);
            m.rs == Steps(Mix(a.rs, entropy(a.stirs)), 1024 + m.delivered)
  {
    hide Do, Steps, Mix, InitMachine;
    var m0 := Run(Start(), before, entropy);
    RunConcat(Start(), before, since, entropy);
    RunFollows(m0, since, entropy);
  }

  /** So every further byte is the next one of that stream, until a stir is due. */
  lemma BytesOfStream(a: Machine, m: Machine, key: Key, entropy: nat -> Key, k: nat)
    requires m.initialized && m.stired && m.rs == Steps(Mix(a.rs, key), 1024 + m.delivered)
    requires 1 <= k <= m.count
    ensures BytesAt(InitMachine(m), entropy, k) == Output(Steps(Mix(a.rs, key), 1024 + m.delivered + k))
  {
    hide Steps, Mix, Output, Bytes;
    BytesUndisturbed(m, entropy, k);
    StepsConcat(Mix(a.rs, key), 1024 + m.delivered, k);
  }

  /** Byte number k of a buffer, from its end: read off the box as the step leaves it. */
  lemma BufByteIs(m: Machine, entropy: nat -> Key, k: nat)
    requires k > 0
    ensures var g := StirIfDue(Bytes(m, entropy, k - 1), entropy).rs;
            var i := (g.i + 1) % 256;
            var si: int := g.s[i];
            var j := (g.j + si) % 256;
            var sj: int := g.s[j];
            BytesAt(m, entropy, k) == g.s[i := sj][j := si][(si + sj) % 256]
  {
    hide StirIfDue, Output, Next;
    var g := StirIfDue(Bytes(m, entropy, k - 1), entropy).rs;
    OneStep(g);
    StepAndByte(g);
  }

  lemma OneStep(g: State)
    ensures Steps(g, 1) == Next(g)
  {
    assert Steps(g, 0) == g;
  }

  lemma {:induction false} BytesUndisturbed(m: Machine, entropy: nat -> Key, k: nat)
    requires m.stired && k <= m.count
    ensures Bytes(m, entropy, k) == Deliver(m, k)
  {
    hide Steps;
    if k == 0 {
      StepsNone(m.rs);
    } else {
      BytesUndisturbed(m, entropy, k - 1);
      StepsConcat(m.rs, k - 1, 1);
    }
  }

  lemma StepsNone(g: State)
    ensures Steps(g, 0) == g
  {
  }

  /** And so is every word, byte by byte. */
  lemma WordOfStream(a: Machine, m: Machine, key: Key, entropy: nat -> Key)
    requires m.initialized && m.stired && m.rs == Steps(Mix(a.rs, key), 1024 + m.delivered) && m.count > 0
    ensures var g := Mix(a.rs, key);
            var n := 1024 + m.delivered;
            RandomWord(m, entropy) == 0x1000000 * Output(Steps(g, n + 1)) + 0x10000 * Output(Steps(g, n + 2))
                                      + 0x100 * Output(Steps(g, n + 3)) + Output(Steps(g, n + 4))
  {
    hide Steps, Mix, Output;
    var g, n := Mix(a.rs, key), 1024 + m.delivered;
    StepsConcat(g, n, 1);
    StepsConcat(g, n, 2);
    StepsConcat(g, n, 3);
    StepsConcat(g, n, 4);
  }

  /** The first word of all: bytes 1025 to 1028 behind the key schedule of the first entropy. */
  lemma FirstWord(entropy: nat -> Key)
    ensures var g := State(255, 255, KeySchedule(entropy(0), 256).s);
            RandomWord(Start(), entropy) == 0x1000000 * Output(Steps(g, 1025)) + 0x10000 * Output(Steps(g, 1026))
                                            + 0x100 * Output(Steps(g, 1027)) + Output(Steps(g, 1028))
  {
    hide Steps, Mix, Output, KeySchedule, Init;
    var g := Mix(Init(), entropy(0));
    FirstMixIsKeySchedule(entropy(0));
    StepsConcat(g, 1024, 1);
    StepsConcat(g, 1024, 2);
    StepsConcat(g, 1024, 3);
    StepsConcat(g, 1024, 4);
  }

  /** A buffer filled in two calls is what one call would have filled. */
  lemma {:induction false} BufSplits(m: Machine, entropy: nat -> Key, a: nat, b: nat)
    ensures Buf(Buf(m, entropy, a), entropy, b) == Buf(m, entropy, a + b)
  {
    StaysInitialized(InitMachine(m), entropy, a);
    BytesConcat(InitMachine(m), entropy, a, b);
  }

  lemma {:induction false} BytesConcat(m: Machine, entropy: nat -> Key, a: nat, b: nat)
    ensures Bytes(Bytes(m, entropy, a), entropy, b) == Bytes(m, entropy, a + b)
  {
    hide StirIfDue, Deliver;
    if b > 0 {
      BytesConcat(m, entropy, a, b - 1);
    }
  }

  /** Data is mixed into a stirred generator only; a stir that is due comes first, and the budget is not charged. */
  lemma MixedAfterStir(m: Machine, entropy: nat -> Key, dat: seq<Byte>)
    requires dat != [] && m.initialized
    ensures var r := AddRandom(m, entropy, dat);
            if Due(m)
            then r.rs == Mix(Steps(Mix(m.rs, entropy(m.stirs)), 1024), dat) && r.stirs == m.stirs + 1
                 && r.stired && r.count == 1600000 && r.delivered == 0
            else r == m.(rs := Mix(m.rs, dat))
  {
    hide Mix, Steps;
  }

  // ---- words and bytes ----

  /** A word is four bytes, the first one highest. */
  lemma WordHasBytes(g: State, n: nat)
    ensures var w := WordAt(g, n);
            && w < 0x1_0000_0000
            && w / 0x1000000 == Output(Steps(g, n + 1))
            && w / 0x10000 % 256 == Output(Steps(g, n + 2))
            && w / 0x100 % 256 == Output(Steps(g, n + 3))
            && w % 256 == Output(Steps(g, n + 4))
  {
    hide Steps, Output;
    Digits(ByteAt(g, n + 1), ByteAt(g, n + 2), ByteAt(g, n + 3), ByteAt(g, n + 4));
  }

  lemma Digits(a: Byte, b: Byte, c: Byte, d: Byte)
    ensures var w := Compose(a, b, c, d);
            w < 0x1_0000_0000 && w / 0x1000000 == a && w / 0x10000 % 256 == b && w / 0x100 % 256 == c && w % 256 == d
  {
    hide *;
    var w := Composed(a, b, c, d);
    Quotient(w, 0x1000000, a, 0x10000 * b + 0x100 * c + d);
    Quotient(w, 0x10000, 0x100 * a + b, 0x100 * c + d);
    Quotient(w, 0x100, 0x10000 * a + 0x100 * b + c, d);
    Quotient(0x100 * a + b, 256, a, b);
    Quotient(0x10000 * a + 0x100 * b + c, 256, 0x100 * a + b, c);
  }

  lemma Composed(a: Byte, b: Byte, c: Byte, d: Byte) returns (w: nat)
    ensures w == Compose(a, b, c, d) == 0x1000000 * a + 0x10000 * b + 0x100 * c + d
  {
    w := Compose(a, b, c, d);
  }

  lemma Quotient(w: nat, m: nat, q: nat, r: nat)
    requires r < m && w == q * m + r
    ensures w / m == q && w % m == r
  {
    U.ModOnce(w, m, q);
  }

  /** The words a bounded draw accepts are those counted for the residues, and no others. */
  lemma AcceptedIff(m: Machine, entropy: nat -> Key, x: nat, k: nat)
    requires 2 <= x < 0x1_0000_0000
    ensures var w := WordOf(m, entropy, k);
            && (Accepted(m, entropy, 0x1_0000_0000 % x, k) <==> w in U.Preimage(x, w % x))
            && forall v: nat :: w in U.Preimage(x, v) ==> v == w % x
  {
    hide Steps;
    WordHasBytes(StirIfDue(InitMachine(Draws(m, entropy, k)), entropy).rs, 0);
  }
}
