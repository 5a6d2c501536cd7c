/** Bounded concatenation and the joining of tokens (strlcat.c, join_list in str.c). */
module Join {
  import opened Wrappers
  import opened CString

  /** What one call of strlcat leaves in the first siz cells: as much of src as fits in front of a terminator. */
  function Appended<T>(text: seq<T>, src: seq<T>, siz: nat): (r: seq<T>)
    requires |text| <= siz
    ensures |r| <= siz
  {
    if |text| == siz then text else text + src[..Min(|src|, siz - |text| - 1)]
  }

  /** That is the joined text cut at the last cell but one, unless there was no room for a terminator before. */
  lemma AppendedIs<T>(text: seq<T>, src: seq<T>, siz: nat)
    requires |text| <= siz
    ensures Appended(text, src, siz)
            == if |text| == siz then text
               else if |text| + |src| < siz then text + src else (text + src)[..siz - 1]
  {
  }

  /** strlcat: the result tells the length it tried to create. */
  method Strlcat<T(==)>(dst: array<T>, src: seq<T>, siz: nat, nul: T) returns (n: nat)
    requires siz <= dst.Length && nul !in src
    modifies dst
    ensures n == |src| + |Text(old(dst[..siz]), nul)|
    ensures Text(dst[..siz], nul) == Appended(Text(old(dst[..siz]), nul), src, siz)
    ensures nul in old(dst[..siz]) ==> nul in dst[..siz]
    ensures forall k :: siz <= k < dst.Length ==> dst[k] == old(dst[k])
  {
    hide Text;
    ghost var text := Text(dst[..siz], nul);
    var d := 0;
    while d < siz && dst[d] != nul
      invariant d <= siz && nul !in dst[..d]
    {
      d := d + 1;
    }
    TextIs(dst[..siz], nul, dst[..d]);
    var dlen := d;
    if dlen == siz {
      return dlen + |src|;
    }
    var left, s := siz - dlen, 0;
    while s < |src|
      invariant s <= |src|
      invariant d == dlen + Min(s, siz - dlen - 1) && left == siz - d
      invariant dst[..d] == text + src[..d - dlen]
      invariant forall k :: siz <= k < dst.Length ==> dst[k] == old(dst[k])
    {
      if left != 1 {
        dst[d] := src[s];
        d, left := d + 1, left - 1;
      }
      s := s + 1;
    }
    dst[d] := nul;
    TextIs(dst[..siz], nul, text + src[..d - dlen]);
    return dlen + s;
  }

  /** The C string of the two-character array made of the separator and a terminator. */
  function Separator<T(==)>(sep: T, nul: T): seq<T> {
    if sep == nul then [] else [sep]
  }

  /** The tokens with the separator between any two. */
  function Joined<T(==)>(tokens: seq<seq<T>>, sep: T, nul: T): seq<T> {
    if tokens == [] then []
    else if |tokens| == 1 then tokens[0]
    else Joined(tokens[..|tokens| - 1], sep, nul) + Separator(sep, nul) + tokens[|tokens| - 1]
  }

  function TotalLength<T>(tokens: seq<seq<T>>): nat {
    if tokens == [] then 0 else TotalLength(tokens[..|tokens| - 1]) + |tokens[|tokens| - 1]|
  }

  lemma {:induction false} JoinedLength<T>(tokens: seq<seq<T>>, sep: T, nul: T)
    ensures tokens != [] ==> |Joined(tokens, sep, nul)| < TotalLength(tokens) + |tokens|
  {
    if |tokens| == 1 {
      assert tokens[..0] == [];
    } else if |tokens| > 1 {
      JoinedLength(tokens[..|tokens| - 1], sep, nul);
    }
  }

  /** xrealloc: a larger block with the old contents in front. */
  method Grow<T(0)>(o: array<T>, size: nat) returns (r: array<T>)
    requires o.Length <= size
    ensures fresh(r) && r.Length == size && r[..o.Length] == o[..]
  {
    r := new T[size];
    forall i | 0 <= i < o.Length {
      r[i] := o[i];
    }
  }

  /** One strlcat into a block with room to spare. */
  method AppendAll<T(==)>(o: array<T>, src: seq<T>, nul: T, ghost text: seq<T>)
    requires nul in o[..] && Text(o[..], nul) == text && nul !in src
    requires |text| + |src| < o.Length
    modifies o
    ensures nul in o[..] && Text(o[..], nul) == text + src
  {
    assert o[..o.Length] == o[..];
    var n := Strlcat(o, src, o.Length, nul);
    assert n < o.Length;
    assert o[..o.Length] == o[..];
  }

  lemma TextOfPrefix<T>(a: seq<T>, b: seq<T>, nul: T)
    requires nul in a && a <= b
    ensures nul in b && Text(b, nul) == Text(a, nul)
  {
    var t := Text(a, nul);
    assert |t| < |a|;
    TextIs(b, nul, t);
  }

  /** The turn of the loop for a token that is not the first. */
  method Extend<T(==,0)>(o: array<T>, size: nat, csep: seq<T>, c: seq<T>, nul: T, ghost text: seq<T>)
    returns (r: array<T>)
    requires nul in o[..] && Text(o[..], nul) == text && nul !in csep && nul !in c
    requires o.Length <= size && |text| + |csep| + |c| < size
    ensures fresh(r) && r.Length == size && nul in r[..] && Text(r[..], nul) == text + csep + c
  {
    r := Grow(o, size);
    assert o[..] <= r[..];
    TextOfPrefix(o[..], r[..], nul);
    AppendAll(r, csep, nul, text);
    AppendAll(r, c, nul, text + csep);
  }

  /** join_list: the tokens joined, in a block that is always larger than what it holds. */
  method JoinList<T(==,0)>(sep: T, tokens: seq<seq<T>>, nul: T) returns (o: array?<T>)
    requires forall t :: t in tokens ==> nul !in t
    ensures o == null <==> tokens == []
    ensures o != null ==> nul in o[..] && Text(o[..], nul) == Joined(tokens, sep, nul)
  {
    o := null;
    var csep := Separator(sep, nul);
    var len := |tokens|;
    for i := 0 to |tokens|
      invariant i == 0 ==> o == null && len == |tokens|
      invariant i > 0 ==> o != null && fresh(o) && o.Length == len && nul in o[..]
      invariant i > 0 ==> len == |tokens| + TotalLength(tokens[..i]) + i - 1
      invariant i > 0 ==> Text(o[..], nul) == Joined(tokens[..i], sep, nul)
    {
      var c := tokens[i];
      ghost var before := tokens[..i];
      assert tokens[..i + 1][..i] == before && tokens[..i + 1][i] == c;
      JoinedLength(before, sep, nul);
      len := len + |c|;
      if i == 0 {
        o := new T[len];
        o[0] := nul;
        TextIs(o[..], nul, []);
        AppendAll(o, c, nul, []);
      } else {
        len := len + 1;
        o := Extend(o, len, csep, c, nul, Joined(before, sep, nul));
      }
    }
    assert tokens[..|tokens|] == tokens;
  }

  // ---- joining loses nothing ----

  /** Cut at every separator; there is always at least one piece. */
  function Split<T(==)>(s: seq<T>, sep: T): (r: seq<seq<T>>)
    ensures r != []
  {
    if s == [] then [[]]
    else
      var r := Split(s[1..], sep);
      if s[0] == sep then [[]] + r else [[s[0]] + r[0]] + r[1..]
  }

  lemma {:induction false} SplitPlain<T>(t: seq<T>, sep: T)
    requires sep !in t
    ensures Split(t, sep) == [t]
  {
    if t != [] {
      SplitPlain(t[1..], sep);
      assert [t[0]] + t[1..] == t;
    }
  }

  lemma {:induction false} SplitAtLast<T>(a: seq<T>, t: seq<T>, sep: T)
    requires sep !in t
    ensures Split(a + [sep] + t, sep) == Split(a, sep) + [t]
  {
    var s := a + [sep] + t;
    if a == [] {
      assert s[1..] == t;
      SplitPlain(t, sep);
    } else {
      assert s[1..] == a[1..] + [sep] + t;
      SplitAtLast(a[1..], t, sep);
    }
  }

  /** Cutting the joined string at the separator gives the tokens back. */
  lemma {:induction false} SplitUndoesJoin<T>(tokens: seq<seq<T>>, sep: T, nul: T)
    requires tokens != [] && sep != nul
    requires forall t :: t in tokens ==> sep !in t
    ensures Split(Joined(tokens, sep, nul), sep) == tokens
  {
    var n := |tokens| - 1;
    if n == 0 {
      SplitPlain(tokens[0], sep);
    } else {
      SplitUndoesJoin(tokens[..n], sep, nul);
      SplitAtLast(Joined(tokens[..n], sep, nul), tokens[n], sep);
      assert tokens == tokens[..n] + [tokens[n]];
    }
  }

  /** A NUL for a separator is no separator: the tokens follow each other. */
  lemma {:induction false} JoinedByNul<T>(tokens: seq<seq<T>>, nul: T)
    ensures Joined(tokens, nul, nul) == Concatenated(tokens)
  {
    var n := |tokens| - 1;
    if n == 0 {
      assert tokens[..0] == [];
      assert Concatenated(tokens) == Concatenated([]) + tokens[0];
    } else if n > 0 {
      JoinedByNul(tokens[..n], nul);
    }
  }

  function Concatenated<T>(tokens: seq<seq<T>>): seq<T> {
    if tokens == [] then [] else Concatenated(tokens[..|tokens| - 1]) + tokens[|tokens| - 1]
  }
}
