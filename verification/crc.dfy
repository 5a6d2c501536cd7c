/** The conversion of len & 0xff. */
module LowBytes {

  function LowByte(n: nat): bv8 {
    (n % 256) as bv8
  }

  lemma ByteValue(x: nat)
    requires x < 256
    ensures (x as bv8) as int == x
  {
    // the solver converts within sixteen at a time
    if x < 16 {} else if x < 32 {} else if x < 48 {} else if x < 64 {}
    else if x < 80 {} else if x < 96 {} else if x < 112 {} else if x < 128 {}
    else if x < 144 {} else if x < 160 {} else if x < 176 {} else if x < 192 {}
    else if x < 208 {} else if x < 224 {} else if x < 240 {} else {}
  }

  lemma ByteRange(b: bv8)
    ensures 0 <= b as int < 256
  {
  }

  lemma ByteThere(b: bv8)
    ensures (b as int) as bv8 == b
  {
  }

  lemma LowByteValue(n: nat)
    ensures LowByte(n) as int == n % 256
  {
    ByteValue(n % 256);
  }
}

/** The checksum context of crc.c and the polynomial division it stands for. */
module Crc {
  import opened Gf2
  import opened Words
  import opened LowBytes
  import T = CrcTable

  type Bytes = seq<bv8>

  /** The powers of the generator polynomial, as the comment above the table lists them. */
  const POWERS: set<int> := {32, 26, 23, 22, 16, 12, 11, 10, 8, 7, 5, 4, 2, 1, 0}

  const G: Bits := GeneratorBits()

  function GeneratorBits(): (g: Bits)
    ensures |g| == 33 && forall i :: 0 <= i < 33 ==> g[i] == ((32 - i) in POWERS)
  {
    seq(33, i requires 0 <= i < 33 => (32 - i) in POWERS)
  }

  /** The message as one polynomial, first byte and highest bit first. */
  function ToBits(msg: Bytes): (s: Bits)
    ensures |s| == 8 * |msg|
  {
    if msg == [] then [] else ToBits(msg[..|msg| - 1]) + ByteBits(msg[|msg| - 1])
  }

  /** The length in little-endian order without leading zeros: nothing for length zero. */
  function LengthBytes(n: nat): Bytes {
    if n == 0 then [] else [LowByte(n)] + LengthBytes(n / 256)
  }

  /** The register after a message. */
  function Register(msg: Bytes): (r: Bits)
    ensures |r| == 32
  {
    Feed(Zeros(32), ToBits(msg), G)
  }

  function Cksum(msg: Bytes): (c: Bits)
    ensures |c| == 32
  {
    Not(Register(msg + LengthBytes(|msg|)))
  }

  // ---- the table step is eight division steps ----

  lemma PolyBits()
    ensures WordBits(T.POLY) == G[1..]
  {
    var s := WordBits(T.POLY);
    Masks0();
    Masks1();
    Masks2();
    Masks3();
    assert forall i :: 0 <= i < 8 ==> s[i] == ((31 - i) in POWERS);
    assert forall i :: 8 <= i < 16 ==> s[i] == ((31 - i) in POWERS);
    assert forall i :: 16 <= i < 24 ==> s[i] == ((31 - i) in POWERS);
    assert forall i :: 24 <= i < 32 ==> s[i] == ((31 - i) in POWERS);
  }

  lemma ReducedShift(r: bv32, p: bv32, top: bool)
    requires WordBits(r)[0] == top && WordBits(p) == Scale(top, G[1..])
    ensures WordBits((r << 1) ^ p) == Step(WordBits(r), false, G)
  {
    WordLeft(r);
    WordXor(r << 1, p);
  }

  lemma ShiftIsStep(r: bv32)
    ensures WordBits(T.Shift(r)) == Step(WordBits(r), false, G)
  {
    TopBit(r);
    if r & 0x80000000 != 0 {
      PolyBits();
      ReducedShift(r, T.POLY, true);
    } else {
      ZeroWord();
      ReducedShift(r, 0, false);
    }
  }

  function Shifts(r: bv32, n: nat): bv32 {
    if n == 0 then r else T.Shift(Shifts(r, n - 1))
  }

  lemma {:induction false} ShiftsAreFeed(r: bv32, n: nat)
    ensures WordBits(Shifts(r, n)) == Feed(WordBits(r), Zeros(n), G)
  {
    if n > 0 {
      ShiftsAreFeed(r, n - 1);
      ShiftIsStep(Shifts(r, n - 1));
      assert Zeros(n)[..n - 1] == Zeros(n - 1);
    }
  }

  lemma EightShifts(r: bv32)
    ensures T.Shift8(r) == Shifts(r, 8)
  {
    assert Shifts(r, 1) == T.Shift(r);
    assert Shifts(r, 2) == T.Shift(Shifts(r, 1));
    assert Shifts(r, 3) == T.Shift(Shifts(r, 2));
    assert Shifts(r, 4) == T.Shift(Shifts(r, 3));
    assert Shifts(r, 5) == T.Shift(Shifts(r, 4));
    assert Shifts(r, 6) == T.Shift(Shifts(r, 5));
    assert Shifts(r, 7) == T.Shift(Shifts(r, 6));
  }

  lemma Shift8IsFeed(r: bv32)
    ensures WordBits(T.Shift8(r)) == Feed(WordBits(r), Zeros(8), G)
  {
    EightShifts(r);
    ShiftsAreFeed(r, 8);
  }

  lemma SplitIndex(r: bv32, b: bv8)
    ensures r ^ ((b as bv32) << 24)
            == (((((r >> 24) as bv8) ^ b) as bv32) << 24) ^ (r & 0x00ffffff)
  {
  }

  lemma LowShift(lo: bv32)
    requires lo & 0xff000000 == 0
    ensures T.Shift8(lo) == lo << 8
  {
  }

  lemma LowShiftOf(r: bv32)
    ensures T.Shift8(r & 0x00ffffff) == r << 8
  {
    LowShift(r & 0x00ffffff);
    assert (r & 0x00ffffff) << 8 == r << 8;
  }

  lemma BlockStep(r: bv32, b: bv8, top: bv32, x: bv32, high: bv32, low: bv32, e: bv32)
    requires WordBits(top) == ByteBits(b) + Zeros(24)
    requires WordBits(x) == Xor(WordBits(r), WordBits(top)) == Xor(WordBits(high), WordBits(low))
    requires WordBits(e) == Xor(WordBits(T.Shift8(low)), WordBits(T.Shift8(high)))
    ensures WordBits(e) == Feed(WordBits(r), ByteBits(b), G)
  {
    Shift8IsFeed(high);
    Shift8IsFeed(low);
    FeedBlock(WordBits(r), ByteBits(b), WordBits(high), WordBits(low), G);
  }

  function Index(r: bv32, b: bv8): bv8 {
    ((r >> 24) as bv8) ^ b
  }

  lemma SplitWord(r: bv32, b: bv8)
    ensures WordBits(r ^ ((b as bv32) << 24)) == WordBits(((Index(r, b) as bv32) << 24) ^ (r & 0x00ffffff))
  {
    SplitIndex(r, b);
  }

  lemma SplitXor(r: bv32, b: bv8, high: bv32, low: bv32)
    requires high == (Index(r, b) as bv32) << 24 && low == r & 0x00ffffff
    ensures WordBits(r ^ ((b as bv32) << 24)) == Xor(WordBits(high), WordBits(low))
  {
    SplitWord(r, b);
    WordXor(high, low);
  }

  lemma LowWord(r: bv32)
    ensures WordBits(T.Shift8(r & 0x00ffffff)) == WordBits(r << 8)
  {
    LowShiftOf(r);
  }

  lemma SumBits(r: bv32, tab: bv32)
    ensures WordBits((r << 8) ^ tab) == Xor(WordBits(T.Shift8(r & 0x00ffffff)), WordBits(tab))
  {
    LowWord(r);
    WordXor(r << 8, tab);
  }

  lemma GeneratedStep(r: bv32, b: bv8, tab: bv32)
    requires tab == T.Shift8((Index(r, b) as bv32) << 24)
    ensures WordBits((r << 8) ^ tab) == Feed(WordBits(r), ByteBits(b), G)
  {
    var top, high, low := (b as bv32) << 24, (Index(r, b) as bv32) << 24, r & 0x00ffffff;
    TopByte(b);
    WordXor(r, top);
    SplitXor(r, b, high, low);
    SumBits(r, tab);
    BlockStep(r, b, top, r ^ top, high, low, (r << 8) ^ tab);
  }

  /** One use of the UPDATE macro, through the literal table, divides by eight more bits. */
  lemma TableStep(r: bv32, b: bv8)
    ensures WordBits((r << 8) ^ T.Crc32Tab(Index(r, b))) == Feed(WordBits(r), ByteBits(b), G)
  {
    T.TableIsGenerated(Index(r, b));
    GeneratedStep(r, b, T.Crc32Tab(Index(r, b)));
  }

  // ---- the context ----

  /** off_t is a signed 64-bit count; the program adds to it without a check. */
  const OFF_MAX: int := 0x7fff_ffff_ffff_ffff

  lemma RegisterSnoc(msg: Bytes, b: bv8)
    ensures Register(msg + [b]) == Feed(Register(msg), ByteBits(b), G)
  {
    assert (msg + [b])[..|msg|] == msg;
    FeedConcat(Zeros(32), ToBits(msg), ByteBits(b), G);
  }

  lemma RegisterNext(msg: Bytes, buf: Bytes, i: nat)
    requires i < |buf|
    ensures Register(msg + buf[..i + 1]) == Feed(Register(msg + buf[..i]), ByteBits(buf[i]), G)
  {
    assert msg + buf[..i + 1] == (msg + buf[..i]) + [buf[i]];
    RegisterSnoc(msg + buf[..i], buf[i]);
  }

  method UpdateRegister(crc: bv32, b: bv8) returns (next: bv32)
    ensures WordBits(next) == Feed(WordBits(crc), ByteBits(b), G)
  {
    TableStep(crc, b);
    next := (crc << 8) ^ T.Crc32Tab(Index(crc, b));
  }

  lemma TrailerStep(msg: Bytes, n: nat)
    requires n > 0
    ensures msg + LengthBytes(n) == msg + [LowByte(n)] + LengthBytes(n / 256)
  {
  }

  class Context {
    var crc: bv32
    var len: int
    ghost var fed: Bytes

    ghost predicate Valid()
      reads this
    {
      len == |fed| <= OFF_MAX && WordBits(crc) == Register(fed)
    }

    constructor ()
      ensures Valid() && fed == []
    {
      crc, len, fed := 0, 0, [];
      new;
      ZeroWord();
    }

    method Update(buf: Bytes)
      requires Valid() && |fed| + |buf| <= OFF_MAX
      modifies this
      ensures Valid() && fed == old(fed) + buf
    {
      assert fed + buf[..0] == fed;
      for i := 0 to |buf|
        invariant fed == old(fed) && len == old(len)
        invariant WordBits(crc) == Register(fed + buf[..i])
      {
        RegisterNext(fed, buf, i);
        crc := UpdateRegister(crc, buf[i]);
      }
      assert buf[..|buf|] == buf;
      len, fed := len + |buf|, fed + buf;
    }

    method Final()
      requires Valid()
      modifies this`crc
      ensures WordBits(crc) == Cksum(fed)
    {
      hide Register, WordBits, ByteBits, LowByte;
      var n := len;
      ghost var msg := fed;
      while n != 0
        invariant 0 <= n
        invariant WordBits(crc) == Register(msg)
        invariant msg + LengthBytes(n) == fed + LengthBytes(|fed|)
      {
        var low := LowByte(n);
        TrailerStep(msg, n);
        RegisterSnoc(msg, low);
        crc := UpdateRegister(crc, low);
        msg := msg + [low];
        n := n / 256;
      }
      assert msg + [] == msg;
      WordNot(crc);
      crc := !crc;
    }
  }

  // ---- what the checksum means ----

  /** The checksum of POSIX.1-2017, cksum: the complemented remainder of message, length and 32 zeros by G(x). */
  lemma CksumIsPosix(msg: Bytes, c: Bits)
    ensures c == Cksum(msg) <==> IsRemainder(ToBits(msg + LengthBytes(|msg|)) + Zeros(32), G, Not(c))
  {
    RegisterIsRemainder(ToBits(msg + LengthBytes(|msg|)), G, Not(c));
    NotNot(c);
    NotNot(Register(msg + LengthBytes(|msg|)));
  }

  lemma {:induction false} ToBitsConcat(a: Bytes, b: Bytes)
    ensures ToBits(a + b) == ToBits(a) + ToBits(b)
  {
    if b == [] {
      assert a + b == a;
    } else {
      var n := |b| - 1;
      ToBitsConcat(a, b[..n]);
      assert (a + b)[..|a| + n] == a + b[..n];
    }
  }

  lemma {:induction false} ToBitsInjective(a: Bytes, b: Bytes)
    requires ToBits(a) == ToBits(b)
    ensures a == b
  {
    if a != [] {
      var n := |a| - 1;
      var x, y := ToBits(a[..n]), ToBits(b[..n]);
      assert ToBits(a)[..8 * n] == x && ToBits(b)[..8 * n] == y;
      assert ToBits(a)[8 * n..] == ByteBits(a[n]) && ToBits(b)[8 * n..] == ByteBits(b[n]);
      ToBitsInjective(a[..n], b[..n]);
      ByteInjective(a[n], b[n]);
    }
  }

  lemma RegisterConcat(a: Bytes, b: Bytes)
    ensures Register(a + b) == Feed(Register(a), ToBits(b), G)
  {
    ToBitsConcat(a, b);
    FeedConcat(Zeros(32), ToBits(a), ToBits(b), G);
  }

  /** The length trailer and the complement keep the difference of two registers. */
  lemma EqualLengthCollision(a: Bytes, b: Bytes)
    requires |a| == |b|
    ensures Cksum(a) == Cksum(b) <==> Register(a) == Register(b)
  {
    var t := LengthBytes(|a|);
    RegisterConcat(a, t);
    RegisterConcat(b, t);
    NotNot(Register(a + t));
    NotNot(Register(b + t));
    SuffixKeeps(Register(a), Register(b), ToBits(t), G);
  }

  /** Messages of one length that differ only within 32 consecutive bits never share a checksum. */
  lemma BurstDetected(a: Bytes, b: Bytes, k: nat)
    requires |a| == |b| && a != b
    requires AgreeOutside(ToBits(a), ToBits(b), k, 32)
    ensures Cksum(a) != Cksum(b)
  {
    if ToBits(a) == ToBits(b) {
      ToBitsInjective(a, b);
    }
    BurstChanges(Zeros(32), ToBits(a), ToBits(b), k, G);
    EqualLengthCollision(a, b);
  }

  lemma LengthOfNine()
    ensures LengthBytes(9) == [9]
  {
    assert LengthBytes(0) == [];
  }

  lemma KnownStart(s: Bytes)
    requires s == [49, 50, 51, 52, 53, 54, 55, 56, 57, 9]
    ensures Word(s[..5]) == 0xfa8a0cdb
  {
    hide Word;
    assert s[..0] == [];
    EmptyWord();
    WordNext(s, 0, 0);
    WordNext(s, 1, 0xd0f37027);
    WordNext(s, 2, 0x3f5b3a17);
    WordNext(s, 3, 0x6e368c64);
    WordNext(s, 4, 0x619119d1);
  }

  lemma KnownWord(s: Bytes)
    requires s == [49, 50, 51, 52, 53, 54, 55, 56, 57, 9]
    ensures Word(s) == 0xc8859fee
  {
    hide Word;
    KnownStart(s);
    assert s[..10] == s;
    WordNext(s, 5, 0xfa8a0cdb);
    WordNext(s, 6, 0xe28ad0fd);
    WordNext(s, 7, 0x8c8edd82);
    WordNext(s, 8, 0x20e779a2);
    WordNext(s, 9, 0x89a1897f);
  }

  /** The checksum of the nine digits "123456789", 930766865 as published for cksum. */
  lemma KnownAnswer()
    ensures Cksum([49, 50, 51, 52, 53, 54, 55, 56, 57]) == WordBits(930766865)
  {
    hide Word, Register, WordBits;
    var digits: Bytes := [49, 50, 51, 52, 53, 54, 55, 56, 57];
    LengthOfNine();
    KnownWord(digits + [9]);
    WordIsRegister(digits + [9]);
    WordNot(0xc8859fee);
  }

  /** The generator itself, 33 bits behind seven zeros. */
  const GENERATOR: Bytes := [0x01, 0x04, 0xc1, 0x1d, 0xb7]

  lemma GeneratorVanishes()
    ensures Register(GENERATOR) == Zeros(32)
  {
    hide Word, Register, WordBits;
    var s := GENERATOR;
    assert s[..0] == [] && s[..5] == s;
    WordIsRegister([]);
    WordIsRegister(s);
    EmptyWord();
    WordNext(s, 0, 0);
    WordNext(s, 1, 0x04c11db7);
    WordNext(s, 2, 0xc11db700);
    WordNext(s, 3, 0x1db70000);
    WordNext(s, 4, 0xb7000000);
    ZeroWord();
  }

  lemma EmptyWord()
    ensures Word([]) == 0
  {
  }

  lemma FeedGenerator(r: Bits)
    requires |r| == 32
    ensures Feed(r, ToBits(GENERATOR), G) == Feed(r, ToBits(ZeroBytes(5)), G)
  {
    hide Feed, ToBits;
    var z, x := Zeros(40), ToBits(GENERATOR);
    GeneratorVanishes();
    ZeroBits(5);
    FeedXor(r, Zeros(32), z, x, G);
    XorZeros(r);
    XorZeros(x);
    XorZeros(Feed(r, z, G));
  }

  lemma SevenZeros(j: nat)
    requires j < 7
    ensures !ByteBits(1)[j] && !ByteBits(0)[j]
  {
    Masks0();
    ZeroByte();
  }

  /** The bound of 32 bits is sharp: between any two texts, 33 bits can change unseen. */
  lemma BurstBound(pre: Bytes, suf: Bytes)
    ensures var a, b := pre + ZeroBytes(5) + suf, pre + GENERATOR + suf;
            && |a| == |b| && a != b && Cksum(a) == Cksum(b)
            && AgreeOutside(ToBits(a), ToBits(b), 8 * |pre| + 7, 33)
  {
    hide Register, Cksum, ToBits, ByteBits, Feed, AgreeOutside;
    var a, b := pre + ZeroBytes(5) + suf, pre + GENERATOR + suf;
    RegisterConcat(pre, ZeroBytes(5));
    RegisterConcat(pre, GENERATOR);
    RegisterConcat(pre + ZeroBytes(5), suf);
    RegisterConcat(pre + GENERATOR, suf);
    FeedGenerator(Register(pre));
    EqualLengthCollision(a, b);
    assert a[|pre|] == 0 && b[|pre|] == 1;
    BurstWindow(a, b, |pre|);
  }

  lemma BurstWindow(a: Bytes, b: Bytes, p: nat)
    requires |a| == |b| && p + 5 <= |a| && a[p] == 0 && b[p] == 1
    requires forall i :: 0 <= i < |a| && !(p <= i < p + 5) ==> a[i] == b[i]
    ensures AgreeOutside(ToBits(a), ToBits(b), 8 * p + 7, 33)
  {
    hide ToBits, ByteBits;
    BytesToBits(a, b, p, 5);
    forall i | 8 * p <= i < 8 * p + 7 ensures ToBits(a)[i] == ToBits(b)[i] {
      ToBitsAt(a, p, i - 8 * p);
      ToBitsAt(b, p, i - 8 * p);
      SevenZeros(i - 8 * p);
    }
  }

  /** Messages of one length collide exactly when G(x) divides their difference times x^32. */
  lemma CollisionIffMultiple(a: Bytes, b: Bytes)
    requires |a| == |b|
    ensures Cksum(a) == Cksum(b)
            <==> IsRemainder(Xor(ToBits(a), ToBits(b)) + Zeros(32), G, Zeros(32))
  {
    var z, d := Zeros(32), Xor(ToBits(a), ToBits(b));
    EqualLengthCollision(a, b);
    FeedXor(z, z, ToBits(a), ToBits(b), G);
    XorZero(z, z);
    XorZero(Register(a), Register(b));
    RegisterIsRemainder(d, G, z);
  }

  // ---- by the table, byte by byte ----

  /** The register as the program computes it. */
  function Word(msg: Bytes): bv32 {
    if msg == [] then 0
    else
      var r, b := Word(msg[..|msg| - 1]), msg[|msg| - 1];
      (r << 8) ^ T.Crc32Tab(Index(r, b))
  }

  lemma {:induction false} WordIsRegister(msg: Bytes)
    ensures WordBits(Word(msg)) == Register(msg)
  {
    hide Index, T.Crc32Tab, WordBits, ByteBits;
    if msg == [] {
      ZeroWord();
    } else {
      var n := |msg| - 1;
      WordIsRegister(msg[..n]);
      TableStep(Word(msg[..n]), msg[n]);
      assert msg == msg[..n] + [msg[n]];
      RegisterSnoc(msg[..n], msg[n]);
    }
  }

  /** One byte further into a message. */
  lemma WordNext(msg: Bytes, k: nat, r: bv32)
    requires k < |msg| && Word(msg[..k]) == r
    ensures Word(msg[..k + 1]) == (r << 8) ^ T.Crc32Tab(Index(r, msg[k]))
  {
    hide T.Crc32Tab, Index;
    assert msg[..k + 1][..k] == msg[..k];
  }

  function ZeroBytes(n: nat): (z: Bytes)
    ensures |z| == n && forall i :: 0 <= i < n ==> z[i] == 0
  {
    seq(n, _ => 0)
  }

  lemma {:induction false} ZeroBits(n: nat)
    ensures ToBits(ZeroBytes(n)) == Zeros(8 * n)
  {
    if n > 0 {
      ZeroBits(n - 1);
      assert ZeroBytes(n)[..n - 1] == ZeroBytes(n - 1);
      ZeroByte();
    }
  }

  lemma ZeroByte()
    ensures ByteBits(0) == Zeros(8)
  {
    ZeroWord();
  }

  /** Leading zero bytes leave the register at its starting value. */
  lemma LeadingZerosVanish(n: nat, msg: Bytes)
    ensures Register(ZeroBytes(n) + msg) == Register(msg)
  {
    ZeroBits(n);
    RegisterConcat(ZeroBytes(n), msg);
    ZerosKeep(Zeros(32), 8 * n, G);
  }

  /** What the length bytes stand for, the first one counting once, the next 256 times, and so on. */
  function LittleEndian(s: Bytes): nat {
    if s == [] then 0 else LittleEndian(s[1..]) * 256 + s[0] as int
  }

  /** The length bytes are the length, and no shorter bytes are. */
  lemma {:induction false} LengthBytesAre(n: nat)
    ensures LittleEndian(LengthBytes(n)) == n
    ensures LengthBytes(n) != [] ==> LengthBytes(n)[|LengthBytes(n)| - 1] != 0
  {
    if n > 0 {
      var rest := LengthBytes(n / 256);
      LengthBytesAre(n / 256);
      LowByteValue(n);
      assert LengthBytes(n) == [LowByte(n)] + rest && ([LowByte(n)] + rest)[1..] == rest;
    }
  }

  /** Bytes that stand for n and do not end in a zero are its length bytes. */
  lemma {:induction false} LengthBytesUnique(s: Bytes)
    requires s != [] ==> s[|s| - 1] != 0
    ensures s == LengthBytes(LittleEndian(s))
  {
    hide LowByte;
    if s != [] {
      LengthBytesUnique(s[1..]);
      var n := LittleEndian(s[1..]);
      SplitValue(n, s[0]);
      NotZero(s);
      assert s == [s[0]] + s[1..];
    }
  }

  lemma SplitValue(n: nat, b: bv8)
    ensures (n * 256 + b as int) / 256 == n && LowByte(n * 256 + b as int) == b
  {
    ByteRange(b);
    assert (n * 256 + b as int) % 256 == b as int;
    ByteThere(b);
  }

  lemma {:induction false} NotZero(s: Bytes)
    requires s != [] && s[|s| - 1] != 0
    ensures LittleEndian(s) > 0
  {
    if |s| > 1 {
      NotZero(s[1..]);
    } else {
      ByteRange(s[0]);
      ByteThere(s[0]);
      assert s[1..] == [];
    }
  }

  lemma LengthOfTen()
    ensures LengthBytes(10) == [10]
  {
    assert LengthBytes(0) == [];
  }

  lemma {:induction false} LengthBytesInjective(m: nat, n: nat)
    requires LengthBytes(m) == LengthBytes(n)
    ensures m == n
    decreases m
  {
    if m > 0 {
      var s, t := LengthBytes(m / 256), LengthBytes(n / 256);
      assert [LowByte(m)] + s == [LowByte(n)] + t;
      assert s == ([LowByte(m)] + s)[1..] == ([LowByte(n)] + t)[1..] == t;
      assert LowByte(m) == ([LowByte(m)] + s)[0] == ([LowByte(n)] + t)[0] == LowByte(n);
      LengthBytesInjective(m / 256, n / 256);
      LowByteValue(m);
      LowByteValue(n);
    }
  }

  /** The trailer alone tells apart messages that differ in their count of leading zeros. */
  lemma LengthSeparates(a: Bytes, b: Bytes, m: nat, n: nat, msg: Bytes)
    requires a == ZeroBytes(m) + msg && b == ZeroBytes(n) + msg && m != n
    requires |LengthBytes(|a|)| == |LengthBytes(|b|)| <= 4
    ensures Cksum(a) != Cksum(b)
  {
    LeadingZerosVanish(m, msg);
    LeadingZerosVanish(n, msg);
    TrailersSeparate(a, b);
  }

  lemma TrailersSeparate(a: Bytes, b: Bytes)
    requires Register(a) == Register(b) && |a| != |b|
    requires |LengthBytes(|a|)| == |LengthBytes(|b|)| <= 4
    ensures Cksum(a) != Cksum(b)
  {
    var s, t := LengthBytes(|a|), LengthBytes(|b|);
    RegisterConcat(a, s);
    RegisterConcat(b, t);
    if ToBits(s) == ToBits(t) {
      ToBitsInjective(s, t);
      LengthBytesInjective(|a|, |b|);
    }
    BlocksDiffer(Register(a), ToBits(s), ToBits(t), G);
    NotNot(Register(a + s));
    NotNot(Register(b + t));
  }

  lemma {:induction false} ToBitsAt(msg: Bytes, i: nat, j: nat)
    requires i < |msg| && j < 8
    ensures ToBits(msg)[8 * i + j] == ByteBits(msg[i])[j]
  {
    var n := |msg| - 1;
    if i < n {
      ToBitsAt(msg[..n], i, j);
    }
  }

  /** Agreement outside n bytes is agreement outside their bits. */
  lemma BytesToBits(a: Bytes, b: Bytes, p: nat, n: nat)
    requires |a| == |b|
    requires forall i :: 0 <= i < |a| && !(p <= i < p + n) ==> a[i] == b[i]
    ensures AgreeOutside(ToBits(a), ToBits(b), 8 * p, 8 * n)
  {
    hide ToBits;
    forall k: nat | k < 8 * |a| && !(8 * p <= k < 8 * p + 8 * n)
      ensures ToBits(a)[k] == ToBits(b)[k]
    {
      SameBit(a, b, k / 8, k % 8);
    }
  }

  lemma SameBit(a: Bytes, b: Bytes, i: nat, j: nat)
    requires i < |a| == |b| && a[i] == b[i] && j < 8
    ensures ToBits(a)[8 * i + j] == ToBits(b)[8 * i + j]
  {
    hide ToBits, ByteBits;
    ToBitsAt(a, i, j);
    ToBitsAt(b, i, j);
  }
}
