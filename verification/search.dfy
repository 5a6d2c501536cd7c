/** Case-insensitive comparison and search of wide strings (wcsncasecmp.c, wcscasestr in str.c). */
module Search {
  import opened Wrappers

  /** Wide strings as C sees them: the text, then the terminator. */
  function At<T>(s: seq<T>, i: nat, nul: T): T
    requires i <= |s|
  {
    if i < |s| then s[i] else nul
  }

  /** The first n characters of a, at most, equal those of b up to case. */
  ghost predicate SamePrefix<T>(a: seq<T>, b: seq<T>, n: nat, lower: T -> T) {
    Min(|a|, n) == Min(|b|, n) && forall k :: 0 <= k < Min(|a|, n) ==> lower(a[k]) == lower(b[k])
  }

  /** Lower-casing keeps terminators apart from characters. */
  ghost predicate KeepsNul<T(!new)>(nul: T, lower: T -> T) {
    forall c :: lower(c) == nul <==> c == nul
  }

  ghost predicate Codes<T(!new)>(nul: T, code: T -> int) {
    code(nul) == 0 && forall x, y :: code(x) == code(y) ==> x == y
  }

  method Wcsncasecmp<T(==,!new)>(s1: seq<T>, s2: seq<T>, n: nat, nul: T, lower: T -> T, code: T -> int)
    returns (r: int)
    requires nul !in s1 && nul !in s2 && Codes(nul, code)
    requires n <= |s2| || KeepsNul(nul, lower)
    ensures r == 0 <==> SamePrefix(s1, s2, n, lower)
    ensures r != 0 ==> exists k :: 0 <= k < n && k <= |s1| && k <= |s2| && SamePrefix(s1, s2, k, lower)
                                  && r == if k == |s1| then -code(At(s2, k, nul))
                                          else code(lower(s1[k])) - code(lower(At(s2, k, nul)))
  {
    if n == 0 {
      return 0;
    }
    var i, left := 0, n;
    while i < |s1|
      invariant i <= |s1| && i <= |s2| && i + left == n && left > 0
      invariant forall k :: 0 <= k < i ==> lower(s1[k]) == lower(s2[k])
    {
      var c1, c2 := lower(s1[i]), lower(At(s2, i, nul));
      if c1 != c2 {
        assert i < |s2| || c2 == nul;
        assert SamePrefix(s1, s2, i, lower);
        return code(c1) - code(c2);
      }
      assert i < |s2|;
      left := left - 1;
      if left == 0 {
        return 0;
      }
      i := i + 1;
    }
    assert SamePrefix(s1, s2, i, lower);
    assert code(At(s2, i, nul)) == 0 <==> At(s2, i, nul) == nul;
    return -code(At(s2, i, nul));
  }

  /** The pattern occurs at position p, up to case. */
  ghost predicate MatchAt<T>(s: seq<T>, find: seq<T>, p: nat, lower: T -> T) {
    p + |find| <= |s| && forall k :: 0 <= k < |find| ==> lower(s[p + k]) == lower(find[k])
  }

  lemma MatchSplit<T>(s: seq<T>, find: seq<T>, p: nat, lower: T -> T)
    requires find != [] && p < |s|
    ensures MatchAt(s, find, p, lower)
            <==> lower(s[p]) == lower(find[0]) && SamePrefix(s[p + 1..], find[1..], |find| - 1, lower)
  {
    var t, u := s[p + 1..], find[1..];
    if MatchAt(s, find, p, lower) {
      assert lower(s[p + 0]) == lower(find[0]);
      forall k | 0 <= k < |u| ensures lower(t[k]) == lower(u[k]) {
        assert lower(s[p + (k + 1)]) == lower(find[k + 1]);
      }
    }
    if lower(s[p]) == lower(find[0]) && SamePrefix(t, u, |u|, lower) {
      forall k | 0 <= k < |find| ensures lower(s[p + k]) == lower(find[k]) {
        assert k > 0 ==> lower(t[k - 1]) == lower(u[k - 1]);
      }
    }
  }

  /** wcscasestr: the least position where the pattern matches. */
  method Wcscasestr<T(==,!new)>(s: seq<T>, find: seq<T>, nul: T, lower: T -> T, code: T -> int)
    returns (r: Option<nat>)
    requires nul !in s && nul !in find && Codes(nul, code)
    ensures r.Some? ==> MatchAt(s, find, r.value, lower)
                        && forall p :: 0 <= p < r.value ==> !MatchAt(s, find, p, lower)
    ensures r == None <==> forall p :: 0 <= p <= |s| ==> !MatchAt(s, find, p, lower)
  {
    if find == [] {
      assert MatchAt(s, find, 0, lower);
      return Some(0);
    }
    var c := lower(find[0]);
    var len := |find| - 1;
    var i := 0;
    while true
      invariant i <= |s|
      invariant forall p :: 0 <= p < i ==> !MatchAt(s, find, p, lower)
      decreases |s| - i
    {
      // the inner do-while: skip to the next character that could start a match
      while true
        invariant i <= |s|
        invariant forall p :: 0 <= p < i ==> !MatchAt(s, find, p, lower)
        decreases |s| - i
      {
        if i == |s| {
          return None;
        }
        if lower(s[i]) == c {
          break;
        }
        MatchSplit(s, find, i, lower);
        i := i + 1;
      }
      var rest := Wcsncasecmp(s[i + 1..], find[1..], len, nul, lower, code);
      MatchSplit(s, find, i, lower);
      if rest == 0 {
        return Some(i);
      }
      i := i + 1;
    }
  }
}
