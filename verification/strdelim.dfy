/** The tokenizer of configuration lines (strdelim.c). */
module StrDelim {
  import opened Wrappers
  import opened CString

  const NUL: char := '\0'

  /** WHITESPACE */
  predicate IsSpace(c: char) {
    c == ' ' || c == '\t' || c == '\r' || c == '\n'
  }

  predicate IsDelimiter(c: char) {
    IsSpace(c) || c == '\"' || c == '='
  }

  /** A token and what is left of the line; None is NULL. */
  datatype Cut = Cut(token: Option<string>, rest: Option<string>)

  /** strpbrk and strspn: how many characters in front are outside, or inside, the set. */
  function Span(s: string, inside: char -> bool): (n: nat)
    ensures n <= |s|
    ensures forall k :: 0 <= k < n ==> inside(s[k])
    ensures n < |s| ==> !inside(s[n])
  {
    if s == [] || !inside(s[0]) then 0 else 1 + Span(s[1..], inside)
  }

  predicate Plain(c: char) {
    !IsDelimiter(c)
  }

  predicate Unquoted(c: char) {
    c != '\"'
  }

  function SkipSpace(s: string): string {
    s[Span(s, IsSpace)..]
  }

  /** What follows the delimiter: at most one '=', with white space around it. */
  function AfterDelimiter(delimiter: char, s: string): string {
    var t := SkipSpace(s);
    if t != [] && t[0] == '=' && delimiter != '=' then SkipSpace(t[1..]) else t
  }

  /** The next token of a line. Text behind a closing quote is lost. */
  function NextToken(s: string): Cut {
    var k := Span(s, Plain);
    if k == |s| then Cut(Some(s), None)
    else if s[k] == '\"' then
      var t := s[k + 1..];
      var m := Span(t, Unquoted);
      if m == |t| then Cut(None, None) else Cut(Some(s[..k] + t[..m]), Some(""))
    else Cut(Some(s[..k]), Some(AfterDelimiter(s[k], s[k + 1..])))
  }

  // ---- in the caller's buffer ----

  /** The string that starts at p. */
  ghost predicate StringAt(buf: seq<char>, p: nat, s: string) {
    p + |s| < |buf| && (forall k :: 0 <= k < |s| ==> buf[p + k] == s[k] != NUL) && buf[p + |s|] == NUL
  }

  lemma StringFrom(buf: seq<char>, p: nat, s: string, k: nat)
    requires StringAt(buf, p, s) && k <= |s|
    ensures StringAt(buf, p + k, s[k..])
  {
    assert forall m :: 0 <= m < |s| - k ==> s[k..][m] == s[k + m] && buf[p + k + m] == buf[p + (k + m)];
  }

  lemma StringIsText(buf: seq<char>, p: nat, s: string)
    requires StringAt(buf, p, s)
    ensures Text(buf[p..], NUL) == s
  {
    assert buf[p..p + |s|] == s;
    TextIs(buf[p..], NUL, s);
  }

  lemma TextIsString(buf: seq<char>, p: nat)
    requires p <= |buf| && NUL in buf[p..]
    ensures StringAt(buf, p, Text(buf[p..], NUL))
  {
    var s := Text(buf[p..], NUL);
    assert |s| < |buf[p..]|;
    assert forall k :: 0 <= k < |s| ==> buf[p..][k] == s[k];
  }

  /** Scan from p while the characters satisfy the predicate and the string goes on. */
  method Scan(buf: array<char>, p: nat, inside: char -> bool, ghost s: string) returns (n: nat)
    requires StringAt(buf[..], p, s)
    ensures n == Span(s, inside)
  {
    n := 0;
    while buf[p + n] != NUL && inside(buf[p + n])
      invariant n <= |s| && forall k :: 0 <= k < n ==> inside(s[k])
      decreases |s| - n
    {
      assert s[n] == buf[p + n];
      n := n + 1;
    }
    assert n < |s| ==> s[n] == buf[p + n];
    SpanIs(s, inside, n);
  }

  lemma {:induction false} SpanIs(s: string, inside: char -> bool, n: nat)
    requires n <= |s| && forall k :: 0 <= k < n ==> inside(s[k])
    requires n < |s| ==> !inside(s[n])
    ensures n == Span(s, inside)
  {
    if n > 0 {
      SpanIs(s[1..], inside, n - 1);
    }
  }

  /** memmove(p, p + 1, strlen(p)): drop the character at p, terminator included in the move. */
  method DropAt(buf: array<char>, p: nat, ghost s: string)
    requires StringAt(buf[..], p, s) && s != []
    modifies buf
    ensures StringAt(buf[..], p, s[1..])
    ensures buf[..p] == old(buf[..p])
  {
    ghost var was := buf[..];
    var n := 0;
    while buf[p + n] != NUL
      invariant n <= |s| && buf[p + n] == if n < |s| then s[n] else NUL
      invariant forall m :: p <= m < p + n ==> buf[m] == was[m + 1]
      invariant forall m :: 0 <= m < p || p + n <= m < buf.Length ==> buf[m] == was[m]
      decreases |s| - n
    {
      buf[p + n] := buf[p + n + 1];
      n := n + 1;
    }
    Dropped(was, buf[..], p, s);
  }

  lemma Dropped(was: seq<char>, now: seq<char>, p: nat, s: string)
    requires StringAt(was, p, s) && s != [] && |was| == |now|
    requires forall m :: p <= m < p + |s| ==> now[m] == was[m + 1]
    ensures StringAt(now, p, s[1..])
  {
    forall m | 0 <= m < |s| - 1 ensures now[p + m] == s[1..][m] != NUL {
      assert was[p + (m + 1)] == s[m + 1];
    }
  }

  /** Put a terminator on a character: the string ends there, and what was behind starts afterwards. */
  lemma CutAt(was: seq<char>, now: seq<char>, p: nat, s: string, k: nat)
    requires StringAt(was, p, s) && k < |s| && now == was[p + k := NUL]
    ensures StringAt(now, p, s[..k]) && StringAt(now, p + k + 1, s[k + 1..])
  {
    StringFrom(was, p, s, k + 1);
  }

  method SkipSpaces(buf: array<char>, p: nat, ghost t: string) returns (q: nat)
    requires StringAt(buf[..], p, t)
    ensures q >= p && StringAt(buf[..], q, SkipSpace(t))
  {
    var n := Scan(buf, p, IsSpace, t);
    StringFrom(buf[..], p, t, n);
    q := p + n;
  }

  /** The two strspn calls behind a delimiter. */
  method SkipDelimiter(buf: array<char>, p: nat, delimiter: char, ghost t: string) returns (next: nat)
    requires StringAt(buf[..], p, t)
    ensures next >= p && StringAt(buf[..], next, AfterDelimiter(delimiter, t))
  {
    hide SkipSpace;
    next := SkipSpaces(buf, p, t);
    ghost var u := SkipSpace(t);
    assert u != [] ==> buf[next + 0] == u[0] != NUL;
    if buf[next] == '=' && delimiter != '=' {
      StringFrom(buf[..], next, u, 1);
      next := SkipSpaces(buf, next + 1, u[1..]);
    }
  }

  /** The token and the rest are where a cut says, and nothing in front of the line is touched. */
  ghost predicate CutInPlace(was: seq<char>, now: seq<char>, p: nat, cut: Cut, token: Option<nat>, next: Option<nat>) {
    && |was| == |now| && p <= |was| && was[..p] == now[..p]
    && (token.Some? <==> cut.token.Some?)
    && (next.Some? <==> cut.rest.Some?)
    && (token.Some? ==> token.value == p && StringAt(now, p, cut.token.value))
    && (next.Some? ==> next.value >= p && StringAt(now, next.value, cut.rest.value))
    && (token.Some? && next.Some? && cut.rest.value != "" ==> next.value > p + |cut.token.value|)
  }

  /** A quoted token: drop the opening quote and terminate at the closing one. */
  method CutQuoted(buf: array<char>, p: nat, k: nat, ghost s: string) returns (token: Option<nat>, next: Option<nat>)
    requires StringAt(buf[..], p, s) && k == Span(s, Plain) < |s| && s[k] == '\"'
    modifies buf
    ensures CutInPlace(old(buf[..]), buf[..], p, NextToken(s), token, next)
  {
    hide NextToken, Span;
    ghost var was, t := buf[..], s[k + 1..];
    DropQuote(buf, p, k, s);
    ghost var mid := buf[..];
    var m := Scan(buf, p + k, Unquoted, t);
    QuotedToken(s, k, m);
    if buf[p + k + m] == NUL {
      return None, None;
    }
    buf[p + k + m] := NUL;
    CutAt(mid, buf[..], p + k, t, m);
    QuotedInPlace(was, mid, buf[..], p, k, s, m);
    return Some(p), Some(p + k + m);
  }

  method DropQuote(buf: array<char>, p: nat, k: nat, ghost s: string)
    requires StringAt(buf[..], p, s) && k < |s|
    modifies buf
    ensures StringAt(buf[..], p + k, s[k + 1..])
    ensures buf[..p + k] == old(buf[..p + k]) && buf[..p] == old(buf[..p])
  {
    StringFrom(buf[..], p, s, k);
    assert s[k..][1..] == s[k + 1..];
    DropAt(buf, p + k, s[k..]);
    assert buf[..p] == buf[..p + k][..p];
  }

  lemma QuotedToken(s: string, k: nat, m: nat)
    requires k == Span(s, Plain) < |s| && s[k] == '\"' && m == Span(s[k + 1..], Unquoted)
    ensures NextToken(s) == if m == |s| - k - 1 then Cut(None, None) else Cut(Some(s[..k] + s[k + 1..][..m]), Some(""))
  {
    hide Span, AfterDelimiter;
  }

  lemma QuotedInPlace(was: seq<char>, mid: seq<char>, now: seq<char>, p: nat, k: nat, s: string, m: nat)
    requires StringAt(was, p, s) && k < |s| && |was| == |mid| && mid[..p + k] == was[..p + k]
    requires m < |s| - k - 1 && p + k + m < |mid| && now == mid[p + k + m := NUL]
    requires StringAt(now, p + k, s[k + 1..][..m])
    ensures now[..p] == was[..p]
    ensures StringAt(now, p, s[..k] + s[k + 1..][..m]) && StringAt(now, p + k + m, "")
  {
    var u := s[k + 1..][..m];
    assert forall i :: 0 <= i < p + k ==> now[i] == mid[..p + k][i] == was[..p + k][i] == was[i];
    forall i | 0 <= i < k + m ensures now[p + i] == (s[..k] + u)[i] != NUL {
      if i < k {
        assert now[p + i] == was[p + i] == s[i];
      } else {
        assert now[p + k + (i - k)] == u[i - k];
      }
    }
  }

  /** strdelim; the position is *s, None for NULL. */
  method Strdelim(buf: array<char>, pos: Option<nat>, ghost s: string) returns (token: Option<nat>, next: Option<nat>)
    requires pos.Some? ==> StringAt(buf[..], pos.value, s)
    modifies buf
    ensures pos.None? ==> token == None && next == None && buf[..] == old(buf[..])
    ensures pos.Some? ==> CutInPlace(old(buf[..]), buf[..], pos.value, NextToken(s), token, next)
    ensures pos.Some? && s == "" ==> buf[..] == old(buf[..])
  {
    hide NextToken, Span;
    if pos.None? {
      return None, None;
    }
    var p := pos.value;
    var k := Scan(buf, p, Plain, s);
    var c := buf[p + k];
    BareToken(s, k);
    if c == NUL {
      return Some(p), None;
    }
    assert c == s[k];
    if c == '\"' {
      token, next := CutQuoted(buf, p, k, s);
      return;
    }
    ghost var was := buf[..];
    buf[p + k] := NUL;
    CutAt(was, buf[..], p, s, k);
    var q := SkipDelimiter(buf, p + k + 1, c, s[k + 1..]);
    return Some(p), Some(q);
  }

  lemma BareToken(s: string, k: nat)
    requires k == Span(s, Plain)
    ensures k <= |s|
    ensures k == |s| ==> NextToken(s) == Cut(Some(s), None)
    ensures k < |s| && s[k] != '\"' ==> NextToken(s) == Cut(Some(s[..k]), Some(AfterDelimiter(s[k], s[k + 1..])))
  {
  }
}
