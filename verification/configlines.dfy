/** Lines of a configuration file, character by character. */
module ConfigLines {
  import opened Wrappers
  import opened CString
  import opened StrDelim
  import opened Config
  import opened ConfigPrint
  import opened ConfigRoundTrip
  import Stdio

  lemma SpaceIs(c: char)
    ensures IsSpace(c) <==> c in " \t\r\n"
  {
    assert forall k :: 0 <= k < 4 ==> " \t\r\n"[k] in " \t\r\n";
    assert " \t\r\n"[0] == ' ' && " \t\r\n"[1] == '\t' && " \t\r\n"[2] == '\r' && " \t\r\n"[3] == '\n';
  }

  lemma DelimiterIs(c: char)
    ensures IsDelimiter(c) <==> c in " \t\r\n\"="
  {
    var all := " \t\r\n\"=";
    assert forall k :: 0 <= k < 6 ==> all[k] in all;
    assert all[0] == ' ' && all[1] == '\t' && all[2] == '\r' && all[3] == '\n' && all[4] == '\"' && all[5] == '=';
  }

  ghost predicate Blank(ws: string) {
    forall c :: c in ws ==> c in " \t\r\n"
  }

  /** Nothing in it separates tokens; it may be empty. */
  ghost predicate Solid(w: string) {
    forall c :: c in w ==> c !in " \t\r\n\"="
  }

  lemma BlankIsSpace(ws: string)
    requires Blank(ws)
    ensures forall c :: c in ws ==> IsSpace(c)
  {
    forall c | c in ws ensures IsSpace(c) {
      SpaceIs(c);
    }
  }

  lemma SolidIsPlain(w: string)
    requires Solid(w)
    ensures forall i :: 0 <= i < |w| ==> Plain(w[i])
  {
    forall i | 0 <= i < |w| ensures Plain(w[i]) {
      DelimiterIs(w[i]);
    }
  }

  // ---- tokens ----

  lemma SpanSolid(w: string, rest: string)
    requires Solid(w) && (rest == "" || rest[0] in " \t\r\n\"=")
    ensures Span(w + rest, Plain) == |w|
  {
    hide Solid;
    var s := w + rest;
    SolidIsPlain(w);
    if rest != "" {
      DelimiterIs(rest[0]);
    }
    assert forall k :: 0 <= k < |w| ==> s[k] == w[k];
    SpanIs(s, Plain, |w|);
  }

  /** A line without delimiters is one token. */
  lemma TokenAlone(w: string)
    requires Solid(w)
    ensures NextToken(w) == Cut(Some(w), None)
  {
    hide NextToken, Span;
    SpanSolid(w, "");
    assert w + "" == w;
    BareToken(w, |w|);
  }

  lemma BehindDelimiter(w: string, d: char, rest: string)
    requires Solid(w) && d in " \t\r\n="
    ensures NextToken(w + [d] + rest) == Cut(Some(w), Some(AfterDelimiter(d, rest)))
  {
    hide NextToken, Span, AfterDelimiter;
    var s := w + [d] + rest;
    assert s == w + ([d] + rest);
    DelimiterIs(d);
    assert d in " \t\r\n\"=";
    SpanSolid(w, [d] + rest);
    BareToken(s, |w|);
    assert s[..|w|] == w && s[|w| + 1..] == rest;
  }

  lemma SkipBlank(gap: string, b: string)
    requires Blank(gap) && (b == "" || b[0] !in " \t\r\n")
    ensures SkipSpace(gap + b) == b
  {
    hide Span, SkipSpace;
    BlankIsSpace(gap);
    SkipThrough(gap, b);
    if b == "" {
      SkipOfNothing();
    } else {
      SpaceIs(b[0]);
      SkipNothing(b);
    }
  }

  lemma SkipOfNothing()
    ensures SkipSpace("") == ""
  {
  }

  /** Any blanks, tabs, carriage returns and newlines behind a token are skipped. */
  lemma TokenThen(w: string, gap: string, b: string)
    requires Solid(w) && gap != "" && Blank(gap) && (b == "" || b[0] !in " \t\r\n=")
    ensures NextToken(w + gap + b) == Cut(Some(w), Some(b))
  {
    hide NextToken, SkipSpace;
    var rest := gap[1..];
    assert w + gap + b == w + [gap[0]] + (rest + b);
    assert gap[0] in gap && gap[0] in " \t\r\n=" by { BlankOrEquals(gap[0]); }
    NotBlank(b);
    SkipBlank(rest, b);
    BehindDelimiter(w, gap[0], rest + b);
  }

  lemma BlankOrEquals(c: char)
    ensures c in " \t\r\n" ==> c in " \t\r\n=" && c != '='
    ensures c in " \t\r\n=" <==> c in " \t\r\n" || c == '='
  {
    assert " \t\r\n=" == " \t\r\n" + "=";
  }

  lemma NotBlank(b: string)
    requires b == "" || b[0] !in " \t\r\n="
    ensures b == "" || (b[0] !in " \t\r\n" && b[0] != '=')
  {
    if b != "" {
      BlankOrEquals(b[0]);
    }
  }

  /** So is one equals sign among them, but no second one. */
  lemma TokenEquals(w: string, before: string, after: string, b: string)
    requires Solid(w) && Blank(before) && Blank(after) && (b == "" || b[0] !in " \t\r\n")
    ensures NextToken(w + before + "=" + after + b) == Cut(Some(w), Some(b))
  {
    hide NextToken, SkipSpace;
    SkipBlank(after, b);
    BlankOrEquals('=');
    if before == "" {
      assert w + before + "=" + after + b == w + ['='] + (after + b);
      BehindDelimiter(w, '=', after + b);
    } else {
      var rest, tail := before[1..], "=" + after + b;
      BlankOrEquals(before[0]);
      assert before[0] in before;
      assert w + before + "=" + after + b == w + [before[0]] + (rest + tail);
      BehindDelimiter(w, before[0], rest + tail);
      EqualsIsNoBlank();
      SkipBlank(rest, tail);
      assert tail[1..] == after + b;
    }
  }

  lemma EqualsIsNoBlank()
    ensures '=' !in " \t\r\n" && '\"' !in " \t\r\n"
  {
    SpaceIs('=');
    SpaceIs('\"');
  }

  /** Quotes vanish, and what is behind the closing one is lost. */
  lemma TokenQuoted(w: string, v: string, tail: string)
    requires Solid(w) && '\"' !in v
    ensures NextToken(w + "\"" + v + "\"" + tail) == Cut(Some(w + v), Some(""))
  {
    hide NextToken, Span, Solid;
    var s := w + "\"" + v + "\"" + tail;
    var t := v + "\"" + tail;
    assert s == w + ("\"" + t);
    DelimiterIs('\"');
    SpanSolid(w, "\"" + t);
    assert s[|w| + 1..] == t;
    SpanToQuote(v, tail);
    QuotedToken(s, |w|, |v|);
    assert s[..|w|] == w && t[..|v|] == v;
  }

  lemma SpanToQuote(v: string, tail: string)
    requires '\"' !in v
    ensures Span(v + "\"" + tail, Unquoted) == |v|
  {
    hide Span;
    var t := v + "\"" + tail;
    assert forall k :: 0 <= k < |v| ==> t[k] == v[k] && v[k] in v;
    SpanIs(t, Unquoted, |v|);
  }

  /** Without a closing quote there is no token. */
  lemma TokenUnclosed(w: string, v: string)
    requires Solid(w) && '\"' !in v
    ensures NextToken(w + "\"" + v) == Cut(None, None)
  {
    hide NextToken, Span;
    var s := w + "\"" + v;
    DelimiterIs('\"');
    assert s == w + ("\"" + v);
    SpanSolid(w, "\"" + v);
    assert s[|w| + 1..] == v;
    assert forall k :: 0 <= k < |v| ==> v[k] in v;
    SpanIs(v, Unquoted, |v|);
    QuotedToken(s, |w|, |v|);
  }

  // ---- lines ----

  /** Blanks, tabs, carriage returns and newlines in front of a line change nothing. */
  lemma LeadingBlanks(ws: string, line: string)
    requires Blank(ws)
    ensures Parse(ws + line) == Parse(line)
  {
    hide Parse;
    BlankIsSpace(ws);
    LeadingSpaceIgnored(ws, line);
  }

  /** The first token of what begins with no delimiter begins like it. */
  lemma FirstCharacter(s: string)
    requires s != "" && s[0] !in " \t\r\n\"="
    ensures var t := NextToken(s).token; t.Some? ==> t.value != "" && t.value[0] == s[0]
  {
    DelimiterIs(s[0]);
    var k := Span(s, Plain);
    assert k > 0;
  }

  lemma StrippedKeepsFirst(line: string)
    requires line != "" && line[0] !in " \t\r\n"
    ensures var s := Stripped(line, IsSpace); s != "" && s[0] == line[0]
  {
    SpaceIs(line[0]);
    var s := Stripped(line, IsSpace);
    assert !IsSpace(line[0]);
    assert s <= line;
  }

  lemma HashIsSolid()
    ensures '#' !in " \t\r\n\"=" && '#' !in " \t\r\n"
  {
    DelimiterIs('#');
    SpaceIs('#');
  }

  /** A line whose first character is a hash does nothing. */
  lemma CommentLine(ws: string, s: string)
    requires Blank(ws)
    ensures Parse(ws + "#" + s) == Nothing
  {
    hide Parse, NextToken, Stripped, Arguments;
    var line := "#" + s;
    assert ws + "#" + s == ws + line;
    LeadingBlanks(ws, line);
    HashIsSolid();
    StrippedKeepsFirst(line);
    FirstCharacter(Stripped(line, IsSpace));
    ParseDispatches(line);
  }

  /** Nor does an empty one. */
  lemma BlankLine(ws: string)
    requires Blank(ws)
    ensures Parse(ws) == Nothing
  {
    hide Parse, Stripped;
    LeadingBlanks(ws, "");
    assert ws + "" == ws;
    StrippedUnique("", IsSpace, "");
    ParseDispatches("");
    TokenAlone("");
  }

  /** The first delimiter of the line is a quote, and no other quote follows. */
  ghost predicate Unclosed(s: string) {
    exists k :: 0 <= k < |s| && OpensAt(s, k)
  }

  ghost predicate OpensAt(s: string, k: nat)
    requires k < |s|
  {
    && s[k] == '\"'
    && (forall i :: 0 <= i < k ==> s[i] !in " \t\r\n\"=")
    && (forall i :: k < i < |s| ==> s[i] != '\"')
  }

  lemma UnclosedIff(s: string)
    ensures NextToken(s).token.None? <==> Unclosed(s)
  {
    hide NextToken;
    var k := Span(s, Plain);
    forall i | 0 <= i < |s| ensures IsDelimiter(s[i]) <==> s[i] in " \t\r\n\"=" {
      DelimiterIs(s[i]);
    }
    BareToken(s, k);
    if k < |s| && s[k] == '\"' {
      var t := s[k + 1..];
      var m := Span(t, Unquoted);
      QuotedToken(s, k, m);
      if m == |t| {
        assert forall i :: k < i < |s| ==> s[i] == t[i - k - 1];
        assert OpensAt(s, k);
      } else {
        assert t[m] == s[k + 1 + m] == '\"';
      }
    }
    if Unclosed(s) {
      var j :| 0 <= j < |s| && OpensAt(s, j);
      DelimiterIs('\"');
      assert j == k;
    }
  }

  lemma UnclosedStripped(line: string)
    ensures Unclosed(Stripped(line, IsSpace)) <==> Unclosed(line)
  {
    var s := Stripped(line, IsSpace);
    assert s == line[..|s|];
    if Unclosed(line) {
      var k :| 0 <= k < |line| && OpensAt(line, k);
      assert !IsSpace('\"');
      assert k < |s|;
      assert OpensAt(s, k);
    }
    if Unclosed(s) {
      var k :| 0 <= k < |s| && OpensAt(s, k);
      assert forall i :: k < i < |line| ==> line[i] != '\"';
      assert OpensAt(line, k);
    }
  }

  /**
   * Any other line does something, or is fatal, unless its first delimiter is a quote that is never
   * closed: then it is passed over like a comment.
   */
  lemma NothingIff(ws: string, t: string)
    requires Blank(ws) && t != "" && t[0] !in " \t\r\n#=\""
    ensures Parse(ws + t) == Nothing <==> Unclosed(t)
  {
    hide Parse, NextToken, Stripped, Unclosed;
    LeadingBlanks(ws, t);
    NoneOfThese(t[0]);
    StrippedKeepsFirst(t);
    var s := Stripped(t, IsSpace);
    FirstCharacter(s);
    ParseDispatches(t);
    UnclosedIff(s);
    UnclosedStripped(t);
  }

  lemma NoneOfThese(c: char)
    requires c !in " \t\r\n#=\""
    ensures c !in " \t\r\n" && c !in " \t\r\n\"=" && c != '#' && c != '\n'
  {
    var all := " \t\r\n#=\"";
    assert all[0] == ' ' && all[1] == '\t' && all[2] == '\r' && all[3] == '\n' && all[4] == '#' && all[5] == '='
           && all[6] == '\"';
    assert forall k :: 0 <= k < 7 ==> all[k] in all;
    SpaceIs(c);
    DelimiterIs(c);
  }

  /** Such a line: the quote is not the end of the file, only of the line. */
  lemma UnclosedLineIgnored()
    ensures Parse("set\"timeout 5\n") == Nothing
  {
    var t := "set\"timeout 5\n";
    SolidSet();
    assert OpensAt(t, 3) by { SetThenQuote(t); }
    assert 's' !in " \t\r\n#=\"" by { SmallS(); }
    NothingIff("", t);
    assert "" + t == t;
  }

  lemma SmallS()
    ensures 's' !in " \t\r\n#=\""
  {
  }

  lemma SolidSet()
    ensures Solid("set") && Solid("profile")
  {
    forall c | c in "set" || c in "profile" ensures c !in " \t\r\n\"=" {
      DelimiterIs(c);
    }
  }

  lemma SetThenQuote(t: string)
    requires t == "set\"timeout 5\n"
    ensures OpensAt(t, 3)
  {
    forall i | 0 <= i < 3 ensures t[i] !in " \t\r\n\"=" {
      DelimiterIs(t[i]);
    }
  }

  // ---- words at the start of a line ----

  /** The keyword of a line, with anything but a quote behind it. */
  lemma LineStartsWith(ws: string, w: string, tail: string)
    requires Blank(ws) && w != "" && Solid(w) && w[0] != '#' && (tail == "" || tail[0] in " \t\r\n=")
    ensures var s := w + Stripped(tail, IsSpace);
            Parse(ws + w + tail) == Arguments(w, NextToken(s).rest) && NextToken(s).token == Some(w)
  {
    hide Parse, NextToken, Stripped, Arguments;
    var line := w + tail;
    assert ws + w + tail == ws + line;
    LeadingBlanks(ws, line);
    SolidIsPlain(w);
    var u := Stripped(tail, IsSpace);
    QuoteHolds(w, tail);
    ParseDispatches(line);
    FirstWord(w, u);
    assert w[0] in w;
  }

  lemma FirstWord(w: string, u: string)
    requires Solid(w) && (u == "" || u[0] in " \t\r\n=")
    ensures NextToken(w + u).token == Some(w)
  {
    hide NextToken;
    if u == "" {
      assert w + u == w;
      TokenAlone(w);
    } else {
      assert w + u == w + [u[0]] + u[1..];
      BehindDelimiter(w, u[0], u[1..]);
    }
  }

  /** A first word that is no keyword is fatal. */
  lemma UnknownWord(ws: string, w: string, tail: string)
    requires Blank(ws) && w != "" && Solid(w) && w[0] != '#' && (tail == "" || tail[0] in " \t\r\n=")
    requires w != "set" && w != "profile"
    ensures Parse(ws + w + tail) == Bad
  {
    hide Parse, NextToken, Stripped;
    LineStartsWith(ws, w, tail);
  }

  /** So is a keyword with nothing behind it. */
  lemma KeywordAlone(ws: string, w: string, tail: string)
    requires Blank(ws) && (w == "set" || w == "profile") && Blank(tail)
    ensures Parse(ws + w + tail) == Bad
  {
    hide Parse, NextToken, Stripped;
    SolidSet();
    BlankIsSpace(tail);
    if tail != "" {
      assert tail[0] in tail;
      BlankOrEquals(tail[0]);
    }
    LineStartsWith(ws, w, tail);
    StrippedUnique(tail, IsSpace, "");
    assert w + "" == w;
    TokenAlone(w);
  }

  /** A set line in any spacing, with or without an equals sign, whatever else is on it. */
  lemma SetLineParses(ws: string, g1: string, a: string, g2: string, e: string, g3: string, b: string, tail: string)
    requires Blank(ws) && Blank(g1) && g1 != "" && Blank(g2) && Blank(g3)
    requires a != "" && Solid(a) && b != "" && Solid(b) && (tail == "" || tail[0] in " \t\r\n=")
    requires e == "=" || (e == "" && g2 + g3 != "")
    ensures Parse(ws + "set" + g1 + a + g2 + e + g3 + b + tail) == Set(a, Some(b))
  {
    hide Parse, NextToken, Stripped;
    hide Solid, Blank, Arguments;
    var u, gap := Stripped(tail, IsSpace), g2 + e + g3;
    assert ws + "set" + g1 + a + g2 + e + g3 + b + tail == ws + "set" + g1 + (a + gap) + b + tail;
    SolidStart(a);
    SetStarts(ws, g1, a + gap, b, tail);
    ArgumentsOf(a, g2, e, g3, b, u);
  }

  /** Past the keyword. */
  lemma SetStarts(ws: string, g1: string, head: string, b: string, tail: string)
    requires Blank(ws) && Blank(g1) && g1 != "" && head != "" && head[0] !in " \t\r\n=" && b != "" && Solid(b)
    ensures Parse(ws + "set" + g1 + head + b + tail) == Arguments("set", Some(head + b + Stripped(tail, IsSpace)))
  {
    hide Parse, NextToken, Stripped, Arguments;
    var u, rest := Stripped(tail, IsSpace), g1 + head + b + tail;
    assert ws + "set" + g1 + head + b + tail == ws + "set" + rest;
    SolidSet();
    assert g1[0] in g1;
    BlankOrEquals(g1[0]);
    LineStartsWith(ws, "set", rest);
    StripInside(g1 + head, b, tail);
    assert "set" + (g1 + head + b + u) == "set" + g1 + (head + b + u);
    TokenThen("set", g1, head + b + u);
  }

  lemma ArgumentsOf(a: string, g2: string, e: string, g3: string, b: string, u: string)
    requires Blank(g2) && Blank(g3) && (e == "=" || (e == "" && g2 + g3 != ""))
    requires a != "" && Solid(a) && b != "" && Solid(b) && (u == "" || u[0] in " \t\r\n=")
    ensures Arguments("set", Some(a + (g2 + e + g3) + b + u)) == Set(a, Some(b))
  {
    hide NextToken, Solid, Blank;
    assert a + (g2 + e + g3) + b + u == a + (g2 + e + g3) + (b + u);
    SolidStart(a);
    SolidStart(b);
    GapThen(a, g2, e, g3, b + u);
    FirstWord(b, u);
  }

  lemma SolidStart(w: string)
    requires w != "" && Solid(w)
    ensures w[0] !in " \t\r\n=" && w[0] !in " \t\r\n"
  {
    assert w[0] in w;
    DelimiterIs(w[0]);
    SpaceIs(w[0]);
    BlankOrEquals(w[0]);
  }

  lemma StripInside(head: string, b: string, tail: string)
    requires b != "" && Solid(b)
    ensures Stripped(head + b + tail, IsSpace) == head + b + Stripped(tail, IsSpace)
  {
    hide Stripped;
    SolidIsPlain(b);
    QuoteHolds(head + b, tail);
  }

  lemma GapThen(a: string, g2: string, e: string, g3: string, rest: string)
    requires Solid(a) && Blank(g2) && Blank(g3) && (e == "=" || (e == "" && g2 + g3 != ""))
    requires rest != "" && rest[0] !in " \t\r\n=" && rest[0] !in " \t\r\n"
    ensures NextToken(a + (g2 + e + g3) + rest) == Cut(Some(a), Some(rest))
  {
    hide NextToken;
    if e == "=" {
      assert a + (g2 + e + g3) + rest == a + g2 + "=" + g3 + rest;
      TokenEquals(a, g2, g3, rest);
    } else {
      assert g2 + e + g3 == g2 + g3;
      TokenThen(a, g2 + g3, rest);
    }
  }

  // ---- lines of a file ----

  ghost predicate CompleteLines(pre: string) {
    pre != "" ==> pre[|pre| - 1] == '\n'
  }

  /** A line that fits, between complete lines and the rest of the file. */
  lemma LineOfFile(pre: string, line: string, post: string)
    requires CompleteLines(pre) && '\n' !in line && |line| + 1 < LINE
    ensures Commands(pre + line + "\n" + post)
            == Commands(pre) + [Parse(Text(line + "\n", NUL))] + Commands(post)
    ensures Commands(pre + post) == Commands(pre) + Commands(post)
  {
    hide Parse, Commands, Text, CompleteLines;
    Regroup(pre, line, "\n", post);
    CommandsBehind(pre, line + "\n" + post);
    CommandsBehind(pre, post);
    FirstOfFile(line, post);
    Regroup(Commands(pre), [Parse(Text(line + "\n", NUL))], [], Commands(post));
  }

  lemma Regroup<T>(a: seq<T>, b: seq<T>, c: seq<T>, d: seq<T>)
    ensures a + b + c + d == a + (b + c + d)
    ensures c == [] ==> a + b + d == a + (b + d)
  {
  }

  lemma FirstOfFile(line: string, post: string)
    requires '\n' !in line && |line| + 1 < LINE
    ensures Commands(line + "\n" + post) == [Parse(Text(line + "\n", NUL))] + Commands(post)
  {
    hide Parse, Text, Stdio.Chunks;
    assert ['\n'] == "\n";
    Stdio.LineIsChunk(line, post, '\n', LINE);
    CommandsCons(line + "\n", Stdio.Chunks(post, '\n', LINE));
  }

  lemma CommandsBehind(pre: string, post: string)
    requires CompleteLines(pre)
    ensures Commands(pre + post) == Commands(pre) + Commands(post)
  {
    hide Parse, Text, Stdio.Chunks;
    Stdio.ChunksConcat(pre, post, '\n', LINE);
    CommandsConcat(Stdio.Chunks(pre, '\n', LINE), Stdio.Chunks(post, '\n', LINE));
  }

  lemma CommandsConcat(a: seq<string>, b: seq<string>)
    ensures CommandsOf(a + b) == CommandsOf(a) + CommandsOf(b)
  {
    hide Parse;
  }

  lemma TextBehind(head: string, s: string)
    requires NUL !in head
    ensures Text(head + s, NUL) == head + Text(s, NUL)
  {
    var t := Text(s, NUL);
    TextIs(head + s, NUL, head + t);
  }

  lemma BlankHasNoNul(ws: string)
    requires Blank(ws)
    ensures NUL !in ws
  {
    SpaceIs(NUL);
  }

  /** Taking a comment line out of a file changes nothing. */
  lemma CommentRemoved(c: Conf, pre: string, ws: string, s: string, post: string)
    requires CompleteLines(pre) && Blank(ws) && '\n' !in ws + "#" + s && |ws + "#" + s| + 1 < 16384
    ensures Run(c, Commands(pre + (ws + "#" + s) + "\n" + post)) == Run(c, Commands(pre + post))
  {
    hide Parse, Commands, Run, Text, Execute;
    var line := ws + "#" + s;
    LineOfFile(pre, line, post);
    BlankHasNoNul(ws);
    assert line + "\n" == (ws + "#") + (s + "\n");
    TextBehind(ws + "#", s + "\n");
    CommentLine(ws, Text(s + "\n", NUL));
    NothingBetween(c, Commands(pre), Commands(post));
  }

  lemma NothingBetween(c: Conf, a: seq<Command>, b: seq<Command>)
    ensures Run(c, a + [Nothing] + b) == Run(c, a + b)
  {
    hide Run;
    ConfigRoundTrip.RunConcat(c, a, [Nothing] + b);
    assert a + [Nothing] + b == a + ([Nothing] + b);
    ConfigRoundTrip.RunConcat(c, a, b);
    if Run(c, a).Ok? {
      ConfigRoundTrip.RunConcat(Run(c, a).value, [Nothing], b);
      RunOne(Run(c, a).value, Nothing);
    }
  }

  /** A line that starts with any other word ends the program. */
  lemma UnknownWordFatal(c: Conf, pre: string, ws: string, w: string, tail: string, post: string)
    requires CompleteLines(pre) && Blank(ws) && '\n' !in ws + w + tail && |ws + w + tail| + 1 < 16384
    requires w != "" && Solid(w) && w[0] != '#' && NUL !in w && (tail == "" || tail[0] in " \t\r\n=")
    requires w != "set" && w != "profile"
    ensures Run(c, Commands(pre + (ws + w + tail) + "\n" + post)).Fatal?
  {
    hide Parse, Commands, Run, Text, Execute;
    var line := ws + w + tail;
    LineOfFile(pre, line, post);
    BlankHasNoNul(ws);
    assert line + "\n" == (ws + w) + (tail + "\n");
    TextBehind(ws + w, tail + "\n");
    var t := Text(tail + "\n", NUL);
    assert t <= tail + "\n";
    FirstOfText(tail);
    UnknownWord(ws, w, t);
    BadBetween(c, Commands(pre), Commands(post));
  }

  lemma FirstOfText(tail: string)
    requires tail == "" || tail[0] in " \t\r\n="
    ensures var t := Text(tail + "\n", NUL); t == "" || t[0] in " \t\r\n="
  {
    BlankOrEquals('\n');
    SpaceIs('\n');
    var t := Text(tail + "\n", NUL);
    assert t != "" ==> t[0] == (tail + "\n")[0];
  }

  lemma BadBetween(c: Conf, a: seq<Command>, b: seq<Command>)
    ensures Run(c, a + [Bad] + b).Fatal?
  {
    hide Run;
    ConfigRoundTrip.RunConcat(c, a, [Bad] + b);
    assert a + [Bad] + b == a + ([Bad] + b);
    if Run(c, a).Ok? {
      ConfigRoundTrip.RunConcat(Run(c, a).value, [Bad], b);
      RunOne(Run(c, a).value, Bad);
    }
  }

  /** A comment that does not fit the buffer goes on as a line of its own. */
  lemma LongComment(s: string, rest: string)
    requires |s| == 16382 && '\n' !in s
    ensures Commands("#" + s + rest) == [Nothing] + Commands(rest)
  {
    hide Parse, Text, Stdio.Chunks, Stdio.ChunkSize;
    var line := "#" + s;
    var f := line + rest;
    Stdio.FullSize(line, rest, '\n', 16383);
    Stdio.ChunksCons(f, '\n', LINE, 16383);
    assert f[..16383] == line && f[16383..] == rest;
    CommandsCons(line, Stdio.Chunks(rest, '\n', LINE));
    TextBehind("#", s);
    NoBlanks();
    CommentLine("", Text(s, NUL));
    assert "" + "#" + Text(s, NUL) == "#" + Text(s, NUL);
  }

  lemma NoBlanks()
    ensures Blank("")
  {
  }
}
