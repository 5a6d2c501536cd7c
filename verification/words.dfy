/** Machine words as bit sequences. */
module Words {
  import opened Gf2

  /** The i-th bit from the top, as a mask. */
  function Mask(i: nat): (m: bv32)
    requires i < 32
    ensures m & (m - 1) == 0
  {
    if i == 0 then 0x80000000 else Mask(i - 1) >> 1
  }

  function Bit(r: bv32, i: nat): bool
    requires i < 32
  {
    r & Mask(i) != 0
  }

  function WordBits(r: bv32): (s: Bits)
    ensures |s| == 32 && forall i :: 0 <= i < 32 ==> s[i] == Bit(r, i)
  {
    seq(32, i requires 0 <= i < 32 => Bit(r, i))
  }

  lemma Masks0()
    ensures Mask(0) == 0x80000000 && Mask(1) == 0x40000000 && Mask(2) == 0x20000000 && Mask(3) == 0x10000000
    ensures Mask(4) == 0x08000000 && Mask(5) == 0x04000000 && Mask(6) == 0x02000000 && Mask(7) == 0x01000000
  {
    assert Mask(3) == 0x10000000;
  }

  lemma Masks1()
    ensures Mask(8) == 0x00800000 && Mask(9) == 0x00400000 && Mask(10) == 0x00200000 && Mask(11) == 0x00100000
    ensures Mask(12) == 0x00080000 && Mask(13) == 0x00040000 && Mask(14) == 0x00020000 && Mask(15) == 0x00010000
  {
    Masks0();
    assert Mask(11) == 0x00100000;
  }

  lemma Masks2()
    ensures Mask(16) == 0x00008000 && Mask(17) == 0x00004000 && Mask(18) == 0x00002000 && Mask(19) == 0x00001000
    ensures Mask(20) == 0x00000800 && Mask(21) == 0x00000400 && Mask(22) == 0x00000200 && Mask(23) == 0x00000100
  {
    Masks1();
    assert Mask(19) == 0x00001000;
  }

  lemma Masks3()
    ensures Mask(24) == 0x00000080 && Mask(25) == 0x00000040 && Mask(26) == 0x00000020 && Mask(27) == 0x00000010
    ensures Mask(28) == 0x00000008 && Mask(29) == 0x00000004 && Mask(30) == 0x00000002 && Mask(31) == 0x00000001
  {
    Masks2();
    assert Mask(27) == 0x00000010;
  }

  lemma XorMask(a: bv32, b: bv32, m: bv32)
    requires m & (m - 1) == 0
    ensures ((a ^ b) & m != 0) == ((a & m != 0) != (b & m != 0))
  {
  }

  lemma WordXor(a: bv32, b: bv32)
    ensures WordBits(a ^ b) == Xor(WordBits(a), WordBits(b))
  {
    forall i | 0 <= i < 32 ensures Bit(a ^ b, i) == (Bit(a, i) != Bit(b, i)) {
      XorMask(a, b, Mask(i));
    }
  }

  lemma LastMask()
    ensures Mask(31) == 1
  {
    Masks3();
  }

  lemma {:induction false} MaskAlive(i: nat)
    requires i < 32
    ensures Mask(i) != 0
    decreases 32 - i
  {
    if i < 31 {
      MaskAlive(i + 1);
    } else {
      LastMask();
    }
  }

  lemma LeftMask(a: bv32, m: bv32, n: bv32)
    requires m & (m - 1) == 0 && n == m >> 1 && n != 0
    ensures ((a << 1) & m != 0) == (a & n != 0)
  {
  }

  lemma LeftAt(a: bv32, i: nat)
    requires i < 31
    ensures Bit(a << 1, i) == Bit(a, i + 1)
  {
    MaskAlive(i + 1);
    LeftMask(a, Mask(i), Mask(i + 1));
  }

  lemma LeftLast(a: bv32)
    ensures !Bit(a << 1, 31)
  {
    LastMask();
  }

  lemma WordLeft(a: bv32)
    ensures WordBits(a << 1) == WordBits(a)[1..] + [false]
  {
    forall i | 0 <= i < 32 ensures WordBits(a << 1)[i] == (WordBits(a)[1..] + [false])[i] {
      if i < 31 {
        LeftAt(a, i);
      } else {
        LeftLast(a);
      }
    }
  }

  lemma ZeroAt(i: nat)
    requires i < 32
    ensures !Bit(0, i)
  {
  }

  lemma ZeroWord()
    ensures WordBits(0) == Zeros(32)
  {
    forall i | 0 <= i < 32 ensures !Bit(0, i) {
      ZeroAt(i);
    }
  }

  lemma TopBit(r: bv32)
    ensures WordBits(r)[0] == (r & 0x80000000 != 0)
  {
    assert Mask(0) == 0x80000000;
  }

  /** The masks from position i downwards, together. */
  function Cover(i: nat): bv32
    requires i <= 32
    decreases 32 - i
  {
    if i == 32 then 0 else Mask(i) | Cover(i + 1)
  }

  lemma FullCover()
    ensures Cover(0) == 0xffffffff
  {
    Masks0();
    Masks1();
    Masks2();
    Masks3();
    assert Cover(28) == 0x0000000f;
    assert Cover(24) == 0x000000ff;
    assert Cover(20) == 0x00000fff;
    assert Cover(16) == 0x0000ffff;
    assert Cover(12) == 0x000fffff;
    assert Cover(8) == 0x00ffffff;
    assert Cover(4) == 0x0fffffff;
  }

  lemma OrMask(d: bv32, m: bv32, n: bv32)
    requires d & m == 0 && d & n == 0
    ensures d & (m | n) == 0
  {
  }

  lemma {:induction false} Covered(d: bv32, i: nat)
    requires i <= 32
    requires forall k :: i <= k < 32 ==> !Bit(d, k)
    ensures d & Cover(i) == 0
    decreases 32 - i
  {
    if i < 32 {
      Covered(d, i + 1);
      assert !Bit(d, i);
      OrMask(d, Mask(i), Cover(i + 1));
    }
  }

  lemma AllClear(d: bv32)
    requires d & Cover(0) == 0
    ensures d == 0
  {
    FullCover();
  }

  lemma WordInjective(a: bv32, b: bv32)
    requires WordBits(a) == WordBits(b)
    ensures a == b
  {
    WordXor(a, b);
    var d := a ^ b;
    forall k | 0 <= k < 32 ensures !Bit(d, k) {
      assert WordBits(d)[k] == (WordBits(a)[k] != WordBits(b)[k]);
    }
    Covered(d, 0);
    AllClear(d);
    SelfInverse(a, b);
  }

  lemma SelfInverse(a: bv32, b: bv32)
    requires a ^ b == 0
    ensures a == b
  {
  }

  // ---- bytes ----

  function ByteBits(b: bv8): (s: Bits)
    ensures |s| == 8
  {
    WordBits((b as bv32) << 24)[..8]
  }

  lemma {:induction false} NarrowMask(i: nat)
    requires 8 <= i < 32
    ensures Mask(i) & 0xff000000 == 0
  {
    if i == 8 {
      Masks1();
    } else {
      NarrowMask(i - 1);
      NarrowShift(Mask(i - 1));
    }
  }

  lemma NarrowShift(m: bv32)
    requires m & 0xff000000 == 0
    ensures (m >> 1) & 0xff000000 == 0
  {
  }

  /** A byte in the top eight bits leaves the other twenty-four at zero. */
  lemma TopByte(b: bv8)
    ensures WordBits((b as bv32) << 24) == ByteBits(b) + Zeros(24)
  {
    var r := (b as bv32) << 24;
    forall i | 8 <= i < 32 ensures !Bit(r, i) {
      NarrowMask(i);
      TopOnly(b, Mask(i));
    }
  }

  lemma TopOnly(b: bv8, m: bv32)
    requires m & 0xff000000 == 0
    ensures ((b as bv32) << 24) & m == 0
  {
  }

  lemma ByteInjective(a: bv8, b: bv8)
    requires ByteBits(a) == ByteBits(b)
    ensures a == b
  {
    TopByte(a);
    TopByte(b);
    WordInjective((a as bv32) << 24, (b as bv32) << 24);
    ByteBack(a, b);
  }

  lemma ByteBack(a: bv8, b: bv8)
    requires (a as bv32) << 24 == (b as bv32) << 24
    ensures a == b
  {
  }

  lemma NotAt(a: bv32, i: nat)
    requires i < 32
    ensures Bit(!a, i) == !Bit(a, i)
  {
    MaskAlive(i);
    NotMask(a, Mask(i));
  }

  lemma WordNot(a: bv32)
    ensures WordBits(!a) == Not(WordBits(a))
  {
    forall i | 0 <= i < 32 ensures WordBits(!a)[i] == !WordBits(a)[i] {
      NotAt(a, i);
    }
  }

  lemma NotMask(a: bv32, m: bv32)
    requires m & (m - 1) == 0 && m != 0
    ensures (!a & m != 0) == (a & m == 0)
  {
  }
}
