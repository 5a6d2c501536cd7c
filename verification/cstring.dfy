/** NUL-terminated text in a buffer, for narrow and wide characters alike. */
module CString {

  /** The text in front of the first terminator, or the whole buffer if there is none. */
  function Text<T(==)>(b: seq<T>, nul: T): (s: seq<T>)
    ensures s <= b && nul !in s
    ensures |s| < |b| ==> b[|s|] == nul
  {
    if b == [] || b[0] == nul then []
    else
      assert b == [b[0]] + b[1..];
      [b[0]] + Text(b[1..], nul)
  }

  /** The first terminator decides the text. */
  lemma TextIs<T>(b: seq<T>, nul: T, s: seq<T>)
    requires s <= b && nul !in s
    requires |s| < |b| ==> b[|s|] == nul
    ensures Text(b, nul) == s
  {
    var t := Text(b, nul);
    assert forall i :: 0 <= i < |t| ==> b[i] == t[i] != nul;
    assert forall i :: 0 <= i < |s| ==> b[i] == s[i] != nul;
    assert t == b[..|t|] && s == b[..|s|];
  }

  lemma TextShorter<T>(b: seq<T>, nul: T)
    requires nul in b
    ensures |Text(b, nul)| < |b|
  {
    hide Text;
    var t := Text(b, nul);
    assert t == b[..|t|];
  }

  /** The text without its trailing spaces. */
  function Stripped<T>(s: seq<T>, isSpace: T -> bool): (r: seq<T>)
    ensures r <= s
    ensures r != [] ==> !isSpace(r[|r| - 1])
    ensures forall i :: |r| <= i < |s| ==> isSpace(s[i])
  {
    if s == [] || !isSpace(s[|s| - 1]) then s else Stripped(s[..|s| - 1], isSpace)
  }

  /** Nothing but the stripped text has these three properties. */
  lemma StrippedUnique<T>(s: seq<T>, isSpace: T -> bool, r: seq<T>)
    requires r <= s
    requires r != [] ==> !isSpace(r[|r| - 1])
    requires forall i :: |r| <= i < |s| ==> isSpace(s[i])
    ensures r == Stripped(s, isSpace)
  {
    var t := Stripped(s, isSpace);
    assert forall i :: 0 <= i < |t| ==> s[i] == t[i];
    assert forall i :: 0 <= i < |r| ==> s[i] == r[i];
    assert r == s[..|r|] && t == s[..|t|];
  }

  /** strip_trailing_whitespaces and its wide twin: blank the trailing spaces in place. */
  method StripTrailing<T(==)>(s: array<T>, nul: T, isSpace: T -> bool)
    requires nul in s[..]
    modifies s
    ensures Text(s[..], nul) == Stripped(Text(old(s[..]), nul), isSpace)
    ensures forall i :: |Text(old(s[..]), nul)| <= i < s.Length ==> s[i] == old(s[i])
  {
    hide Text, Stripped;
    ghost var was := s[..];
    var size := StrLen(s, nul);
    var len := size as int - 1;
    while len >= 0
      invariant -1 <= len < size < s.Length
      invariant forall i :: 0 <= i <= len || size <= i < s.Length ==> s[i] == was[i]
      invariant forall i :: len < i < size ==> s[i] == nul && isSpace(was[i])
    {
      if !isSpace(s[len]) {
        break;
      }
      s[len] := nul;
      len := len - 1;
    }
    StripDone(was, s[..], nul, isSpace, len + 1);
  }

  /** Blanking the spaces from k on strips the text, if nothing before k has to go. */
  lemma StripDone<T>(was: seq<T>, now: seq<T>, nul: T, isSpace: T -> bool, k: nat)
    requires var text := Text(was, nul);
             && k <= |text| < |was| == |now|
             && (forall i :: 0 <= i < k ==> now[i] == text[i])
             && (forall i :: k <= i <= |text| ==> now[i] == nul)
             && (forall i :: k <= i < |text| ==> isSpace(text[i]))
             && (k > 0 ==> !isSpace(text[k - 1]))
    ensures Text(now, nul) == Stripped(Text(was, nul), isSpace)
  {
    var text := Text(was, nul);
    TextIs(now, nul, text[..k]);
    StrippedUnique(text, isSpace, text[..k]);
  }

  method StrLen<T(==)>(s: array<T>, nul: T) returns (n: nat)
    requires nul in s[..]
    ensures n == |Text(s[..], nul)| < s.Length
  {
    n := 0;
    while s[n] != nul
      invariant n < s.Length
      invariant nul !in s[..n]
      decreases s.Length - n
    {
      assert nul in s[n + 1..] by {
        var k :| 0 <= k < s.Length && s[k] == nul;
        assert k > n;
      }
      n := n + 1;
    }
    TextIs(s[..], nul, s[..n]);
  }
}
