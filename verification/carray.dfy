/** The growable array of array.h, its space counted in bytes. */
module CArray {
  import opened Wrappers

  const UINT_MAX: int := 0xffff_ffff
  const SIZE_MAX: int := 0xffff_ffff_ffff_ffff

  /** ARRAY_INITIALSPACE, in items. */
  const INITIAL: nat := 10

  /** Twice the capacity until it is more than what is needed. */
  function Grown(capacity: nat, need: nat): (c: nat)
    requires capacity > 0
    ensures c > need && c >= capacity
    decreases need + 1 - capacity
  {
    if capacity > need then capacity else Grown(2 * capacity, need)
  }

  /** The capacity ARRAY_ENSURE aims at. */
  function Target(capacity: nat, need: nat): (c: nat)
    ensures c > need && c >= capacity
  {
    Grown(if capacity == 0 then INITIAL else capacity, need)
  }

  /** Zero or ten times a power of two. */
  ghost predicate IsCapacity(c: nat) {
    c == 0 || exists k: nat :: c == INITIAL * Power(2, k)
  }

  lemma {:induction false} GrownIsCapacity(capacity: nat, need: nat)
    requires capacity > 0 && IsCapacity(capacity)
    ensures IsCapacity(Grown(capacity, need))
    decreases need + 1 - capacity
  {
    if capacity <= need {
      var k: nat :| capacity == INITIAL * Power(2, k);
      assert 2 * capacity == INITIAL * Power(2, k + 1);
      GrownIsCapacity(2 * capacity, need);
    }
  }

  lemma TargetIsCapacity(capacity: nat, need: nat)
    requires IsCapacity(capacity)
    ensures IsCapacity(Target(capacity, need))
  {
    assert INITIAL == INITIAL * Power(2, 0);
    GrownIsCapacity(if capacity == 0 then INITIAL else capacity, need);
  }

  class Array<T(0)> {
    /** sizeof *(a)->list */
    const itemSize: nat
    var list: array?<T>
    var num: nat
    var space: nat
    /** Items copied by all reallocations so far. */
    ghost var moved: nat

    ghost predicate Valid()
      reads this, list
    {
      && 0 < itemSize
      && (list == null <==> space == 0)
      && (list == null ==> num == 0)
      && (list != null ==> num < list.Length && space == list.Length * itemSize && IsCapacity(list.Length))
      && num <= UINT_MAX && space <= SIZE_MAX
    }

    ghost function Capacity(): nat
      reads this
    {
      if list == null then 0 else list.Length
    }

    ghost function Contents(): (s: seq<T>)
      reads this, list
      requires Valid()
      ensures |s| == num
    {
      if list == null then [] else list[..num]
    }

    constructor (itemSize: nat)
      requires 0 < itemSize && INITIAL * itemSize <= SIZE_MAX
      ensures Valid() && this.itemSize == itemSize && Contents() == [] && Capacity() == 0 && moved == 0
    {
      this.itemSize, list, num, space, moved := itemSize, null, 0, 0, 0;
    }

    /** The block is there and its size is known; it need not have a free cell. */
    ghost predicate Held()
      reads this, list
    {
      list != null && 0 < itemSize && num <= list.Length && space == list.Length * itemSize <= SIZE_MAX
    }

    /** One turn of the doubling loop; false is the exit in xrealloc. */
    method DoubleSpace() returns (ok: bool)
      requires Held() && list.Length > 0
      modifies this`list, this`space, this`moved
      ensures ok <==> 2 * (old(list.Length) * itemSize) <= SIZE_MAX
      ensures ok ==> Held() && fresh(list) && list.Length == 2 * old(list.Length) && list[..num] == old(list[..num])
      ensures ok ==> moved == old(moved) + old(list.Length)
    {
      var newsize := 2 * space % (SIZE_MAX + 1);
      if newsize == 0 || SIZE_MAX / 2 < space {
        return false;
      }
      moved := moved + list.Length;
      list := Double(list, num);
      space := space * 2;
      return true;
    }

    /** The doubling loop. */
    method GrowBeyond(need: nat) returns (ok: bool)
      requires Held() && list.Length > 0
      modifies this`list, this`space, this`moved
      ensures ok <==> Grown(old(list.Length), need) * itemSize <= SIZE_MAX
      ensures ok ==> Held() && list[..num] == old(list[..num]) && (fresh(list) || list == old(list))
      ensures ok ==> list.Length == Grown(old(list.Length), need)
      ensures ok ==> moved == old(moved) + list.Length - old(list.Length)
    {
      ghost var start := list.Length;
      Compare(list.Length, need, itemSize);
      while space <= need * itemSize
        invariant Held() && list[..num] == old(list[..num]) && (fresh(list) || list == old(list))
        invariant 0 < start <= list.Length && Grown(start, need) == Grown(list.Length, need)
        invariant space <= need * itemSize <==> list.Length <= need
        invariant moved == old(moved) + list.Length - start
        decreases need + 1 - list.Length
      {
        ghost var c := list.Length;
        ok := DoubleSpace();
        if !ok {
          TooBig(c, need, itemSize);
          return;
        }
        Compare(list.Length, need, itemSize);
      }
      return true;
    }

    /** The guard against an overflow of the bytes needed. */
    method TooManyBytes(need: nat) returns (big: bool)
      requires need > 0 && itemSize > 0
      ensures big <==> need * itemSize > SIZE_MAX
    {
      Guard(need, itemSize);
      big := SIZE_MAX / need < itemSize;
    }

    /** ARRAY_ENSURE; false is an exit. The guard divides by num + n. */
    method Ensure(n: nat) returns (ok: bool)
      requires Valid() && num + n > 0 && n <= UINT_MAX && INITIAL * itemSize <= SIZE_MAX
      modifies this`list, this`space, this`moved
      ensures ok <==> Fits(old(Capacity()), num, n, itemSize)
      ensures ok ==> Valid() && Contents() == old(Contents())
      ensures ok ==> list != null && Capacity() == Target(old(Capacity()), num + n)
      ensures ok ==> moved == old(moved) + Cost(old(Capacity()), num + n)
      ensures ok ==> fresh(list) || list == old(list)
    {
      hide IsCapacity, Grown;
      if UINT_MAX - n < num {
        return false;
      }
      var big := TooManyBytes(num + n);
      if big {
        return false;
      }
      TargetIsCapacity(Capacity(), num + n);
      if space == 0 {
        space := INITIAL * itemSize;
        list := new T[INITIAL];
      }
      ok := GrowBeyond(num + n);
    }

    /** ARRAY_ADD */
    method Add(x: T) returns (ok: bool)
      requires Valid() && INITIAL * itemSize <= SIZE_MAX
      modifies this, list
      ensures ok <==> Fits(old(Capacity()), old(num), 1, itemSize)
      ensures ok ==> Valid() && Contents() == old(Contents()) + [x]
      ensures ok ==> Capacity() == Target(old(Capacity()), num) && (fresh(list) || list == old(list))
      ensures ok ==> moved == old(moved) + Cost(old(Capacity()), num)
    {
      ok := Ensure(1);
      if ok {
        list[num] := x;
        num := num + 1;
      }
    }

    /** memmove of the items from position i on, one up. */
    method ShiftUp(i: nat)
      requires list != null && i <= num < list.Length
      modifies list
      ensures list[..i] == old(list[..i]) && list[i + 1..num + 1] == old(list[i..num])
    {
      var k := num;
      while k > i
        invariant i <= k <= num
        invariant forall m :: 0 <= m < k ==> list[m] == old(list[m])
        invariant forall m :: k < m <= num ==> list[m] == old(list[m - 1])
      {
        list[k] := list[k - 1];
        k := k - 1;
      }
    }

    /** memmove of the items behind position i, one down. */
    method ShiftDown(i: nat)
      requires list != null && i < num <= list.Length
      modifies list
      ensures list[..i] == old(list[..i]) && list[i..num - 1] == old(list[i + 1..num])
    {
      var k := i;
      while k + 1 < num
        invariant i <= k < num
        invariant forall m :: i <= m < k ==> list[m] == old(list[m + 1])
        invariant forall m :: 0 <= m < i || k <= m < num ==> list[m] == old(list[m])
      {
        list[k] := list[k + 1];
        k := k + 1;
      }
    }

    /** ARRAY_INSERT */
    method Insert(i: nat, x: T) returns (ok: bool)
      requires Valid() && i <= num && INITIAL * itemSize <= SIZE_MAX
      modifies this, list
      ensures ok <==> Fits(old(Capacity()), old(num), 1, itemSize)
      ensures ok ==> Valid() && Contents() == old(Contents())[..i] + [x] + old(Contents())[i..]
      ensures ok ==> fresh(list) || list == old(list)
    {
      hide Target, Cost, IsCapacity;
      ok := Ensure(1);
      if ok {
        PutAt(i, x);
      }
    }

    /** The rest of ARRAY_INSERT, with room for one more item. */
    method PutAt(i: nat, x: T)
      requires Valid() && list != null && i <= num && num + 1 < list.Length && num < UINT_MAX
      modifies this`num, list
      ensures Valid() && Contents() == old(Contents())[..i] + [x] + old(Contents())[i..]
    {
      hide IsCapacity;
      ghost var was := Contents();
      assert list[..i] == was[..i] && list[i..num] == was[i..];
      if i < num {
        ShiftUp(i);
      }
      list[i] := x;
      num := num + 1;
      assert list[..num] == list[..i] + [list[i]] + list[i + 1..num];
    }

    /** ARRAY_FREE */
    method Free()
      requires Valid()
      modifies this`list, this`num, this`space
      ensures Valid() && Contents() == [] && Capacity() == 0
    {
      list, num, space := null, 0, 0;
    }

    /** ARRAY_REMOVE; an array that becomes empty is freed. */
    method Remove(i: nat)
      requires Valid() && i < num
      modifies this, list
      ensures Valid() && Contents() == old(Contents())[..i] + old(Contents())[i + 1..]
      ensures Capacity() == if num == 0 then 0 else old(Capacity())
    {
      ghost var was := Contents();
      assert was[i + 1..] == list[i + 1..num] && was[..i] == list[..i];
      if i < num - 1 {
        ShiftDown(i);
      }
      assert list[..num - 1] == list[..i] + list[i..num - 1];
      num := num - 1;
      if num == 0 {
        Free();
      }
    }

    /** ARRAY_EXPAND; the new items hold whatever was there. */
    method Expand(n: nat) returns (ok: bool)
      requires Valid() && num + n > 0 && n <= UINT_MAX && INITIAL * itemSize <= SIZE_MAX
      modifies this
      ensures ok <==> Fits(old(Capacity()), old(num), n, itemSize)
      ensures ok ==> Valid() && num == old(num) + n && Contents()[..old(num)] == old(Contents())
    {
      ok := Ensure(n);
      if ok {
        num := num + n;
      }
    }

    /** ARRAY_TRUNC */
    method Trunc(n: nat)
      requires Valid()
      modifies this`list, this`num, this`space
      ensures Valid() && Contents() == if n < old(num) then old(Contents())[..old(num) - n] else []
      ensures Capacity() == if n < old(num) then old(Capacity()) else 0
    {
      if num > n {
        num := num - n;
      } else {
        Free();
      }
    }

    /** ARRAY_CONCAT; appending nothing to nothing would divide by zero. */
    method Append(b: Array<T>) returns (ok: bool)
      requires Valid() && b.Valid() && b != this && (b.list != null ==> b.list != list)
      requires num + b.num > 0 && INITIAL * itemSize <= SIZE_MAX
      modifies this, list
      ensures ok <==> Fits(old(Capacity()), old(num), b.num, itemSize)
      ensures ok ==> Valid() && Contents() == old(Contents()) + old(b.Contents())
    {
      hide Target, Cost, IsCapacity;
      ok := Ensure(b.num);
      if ok {
        forall k | 0 <= k < b.num {
          list[num + k] := b.list[k];
        }
        num := num + b.num;
      }
    }

    /** N adds in a row to an array without space. */
    method AddEach(xs: seq<T>) returns (ok: bool)
      requires Valid() && Capacity() == 0 && INITIAL * itemSize <= SIZE_MAX
      modifies this
      ensures ok ==> Valid() && Contents() == xs && Capacity() == CapacityAfter(|xs|)
      ensures ok ==> moved == old(moved) + MovedAfter(|xs|)
      ensures ok <==> forall k :: 0 <= k < |xs| ==> Fits(CapacityAfter(k), k, 1, itemSize)
    {
      for k := 0 to |xs|
        invariant Valid() && Contents() == xs[..k] && Capacity() == CapacityAfter(k)
        invariant list == null || fresh(list)
        invariant moved == old(moved) + MovedAfter(k)
        invariant forall m :: 0 <= m < k ==> Fits(CapacityAfter(m), m, 1, itemSize)
      {
        ok := Add(xs[k]);
        if !ok {
          return;
        }
      }
      return true;
    }
  }

  // ---- the cost of N adds ----

  function CapacityAfter(n: nat): nat {
    if n == 0 then 0 else Target(CapacityAfter(n - 1), n)
  }

  function MovedAfter(n: nat): nat {
    if n == 0 then 0 else MovedAfter(n - 1) + Cost(CapacityAfter(n - 1), n)
  }

  /** One more item doubles at most once. */
  lemma GrownOnce(capacity: nat, need: nat)
    requires capacity > 0 && capacity > need - 1
    ensures Grown(capacity, need) == if capacity > need then capacity else 2 * capacity
  {
    if capacity == need {
      assert Grown(2 * capacity, need) == 2 * capacity;
    }
  }

  /** The capacity stays within twice the number of items once it has left its initial value. */
  lemma {:induction false} CapacityBound(n: nat)
    ensures n > 0 ==> n < CapacityAfter(n)
    ensures CapacityAfter(n) <= INITIAL || CapacityAfter(n) <= 2 * n
    ensures n > 0 ==> MovedAfter(n) == CapacityAfter(n) - INITIAL
  {
    hide Grown;
    if n > 0 {
      CapacityBound(n - 1);
      var c := CapacityAfter(n - 1);
      GrownOnce(if c == 0 then INITIAL else c, n);
    }
  }

  /** All the copying that n adds to an empty array cause is less than 2n items. */
  lemma AddsAreCheap(n: nat)
    requires n > 0
    ensures MovedAfter(n) < 2 * n
  {
    CapacityBound(n);
  }

  lemma {:induction false} FirstTen(n: nat)
    requires 0 < n < 10
    ensures CapacityAfter(n) == 10
  {
    if n > 1 {
      FirstTen(n - 1);
    } else {
      assert CapacityAfter(0) == 0;
    }
  }

  lemma {:induction false} BeyondTen(n: nat)
    requires n >= 10
    ensures CapacityAfter(n) >= 20
  {
    if n == 10 {
      FirstTen(9);
      GrownOnce(10, 10);
    } else {
      BeyondTen(n - 1);
    }
  }

  /** In plain numbers: ten items to begin with, then more than are held but no more than twice as many. */
  lemma CapacityIs(n: nat)
    ensures 0 < n < 10 ==> CapacityAfter(n) == 10
    ensures n >= 10 ==> n < CapacityAfter(n) <= 2 * n
  {
    CapacityBound(n);
    if 0 < n < 10 {
      FirstTen(n);
    } else if n >= 10 {
      BeyondTen(n);
    }
  }

  /** The target is what there is, or the first doubling beyond the need. */
  lemma {:induction false} GrownLeast(capacity: nat, need: nat)
    requires capacity > 0
    ensures Grown(capacity, need) == capacity || Grown(capacity, need) <= 2 * need
    decreases need + 1 - capacity
  {
    if capacity <= need {
      GrownLeast(2 * capacity, need);
    }
  }

  /** The three overflows, of 32 bits for the count and 64 bits for the bytes. */
  lemma FitsIff(capacity: nat, num: nat, n: nat, itemSize: nat)
    ensures Fits(capacity, num, n, itemSize)
            <==> num + n < 0x1_0000_0000 && (num + n) * itemSize < 0x1_0000_0000_0000_0000
                 && Target(capacity, num + n) * itemSize < 0x1_0000_0000_0000_0000
  {
  }

  /** What the doublings of one ARRAY_ENSURE copy: each the capacity before it. */
  function Cost(capacity: nat, need: nat): nat {
    Target(capacity, need) - (if capacity == 0 then INITIAL else capacity)
  }

  /** Neither the count, nor the bytes needed, nor the bytes aimed at overflow. */
  ghost predicate Fits(capacity: nat, num: nat, n: nat, itemSize: nat) {
    && num + n <= UINT_MAX
    && (num + n) * itemSize <= SIZE_MAX
    && Target(capacity, num + n) * itemSize <= SIZE_MAX
  }

  lemma Guard(n: nat, size: nat)
    requires n > 0 && size > 0
    ensures SIZE_MAX / n < size <==> n * size > SIZE_MAX
  {
    var q := SIZE_MAX / n;
    assert SIZE_MAX == n * q + SIZE_MAX % n;
    if q < size {
      assert n * (q + 1) <= n * size;
      assert n * (q + 1) == n * q + n;
    } else {
      assert n * size <= n * q;
    }
  }

  lemma Compare(a: nat, b: nat, size: nat)
    requires size > 0
    ensures a * size <= b * size <==> a <= b
  {
    if a > b {
      assert a * size >= (b + 1) * size == b * size + size;
    }
  }

  lemma TooBig(capacity: nat, need: nat, size: nat)
    requires 0 < capacity <= need && size > 0 && 2 * (capacity * size) > SIZE_MAX
    ensures Grown(capacity, need) * size > SIZE_MAX
  {
    var g := Grown(2 * capacity, need);
    assert g * size >= 2 * capacity * size;
    assert 2 * capacity * size == 2 * (capacity * size);
  }

  /** xrealloc to twice the size: the items in front are kept. */
  method Double<T(0)>(list: array<T>, num: nat) returns (r: array<T>)
    requires num <= list.Length
    ensures fresh(r) && r.Length == 2 * list.Length && r[..num] == list[..num]
  {
    r := new T[2 * list.Length];
    forall i | 0 <= i < list.Length {
      r[i] := list[i];
    }
  }
}
