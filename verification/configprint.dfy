/** Writing a configuration out and reading it back; and what white space in front of a line does. */
module ConfigPrint {
  import opened Wrappers
  import opened CString
  import opened StrDelim
  import opened Config
  import Stdio

  // ---- tokens of printed lines ----

  /** A word strdelim returns whole. */
  ghost predicate IsWord(w: string) {
    w != "" && forall c :: c in w ==> !IsDelimiter(c) && c != NUL
  }

  /** A value that can stand between quotes on one line. */
  ghost predicate IsQuotable(v: string) {
    '\"' !in v && '\n' !in v && NUL !in v
  }

  lemma WordAlone(w: string)
    requires IsWord(w)
    ensures NextToken(w) == Cut(Some(w), None)
  {
    hide NextToken, Span;
    SpanIs(w, Plain, |w|);
    BareToken(w, |w|);
  }

  lemma SkipNothing(s: string)
    requires s != "" && !IsSpace(s[0])
    ensures SkipSpace(s) == s
  {
    SpanIs(s, IsSpace, 0);
  }

  lemma WordThen(w: string, rest: string)
    requires IsWord(w) && rest != "" && !IsSpace(rest[0]) && rest[0] != '='
    ensures NextToken(w + " " + rest) == Cut(Some(w), Some(rest))
  {
    hide NextToken, Span, SkipSpace;
    var s := w + " " + rest;
    assert s[|w|] == ' ';
    assert forall k :: 0 <= k < |w| ==> s[k] == w[k] && w[k] in w;
    SpanIs(s, Plain, |w|);
    BareToken(s, |w|);
    assert s[..|w|] == w && s[|w| + 1..] == rest;
    SkipNothing(rest);
  }

  function Quoted(v: string): string {
    "\"" + v + "\""
  }

  /** A quoted value comes back up to its first inner quote. */
  lemma QuotedAlone(v: string)
    ensures NextToken(Quoted(v)) == Cut(Some(v[..Span(v, Unquoted)]), Some(""))
  {
    hide NextToken, Span;
    var s, m := Quoted(v), Span(v, Unquoted);
    SpanIs(s, Plain, 0);
    assert s[1..] == v + "\"";
    assert (v + "\"")[m] == '\"';
    SpanIs(s[1..], Unquoted, m);
    QuotedToken(s, 0, m);
    assert s[..0] + s[1..][..m] == v[..m];
  }

  // ---- commands and lines ----

  function PrintCommand(cmd: Command): string {
    match cmd
    case Set(name, Some(v)) => "set " + name + " " + Quoted(v)
    case Section(name) => "profile " + Quoted(name)
    case _ => ""
  }

  ghost predicate IsPrintable(cmd: Command) {
    && (match cmd
        case Set(name, Some(v)) => IsWord(name) && IsQuotable(v)
        case Section(name) => IsQuotable(name)
        case _ => false)
    && |PrintCommand(cmd)| + 1 < LINE
  }

  lemma LineShape(cmd: Command)
    requires IsPrintable(cmd)
    ensures var s := PrintCommand(cmd);
            s != "" && !IsSpace(s[|s| - 1]) && '\n' !in s && NUL !in s
  {
    match cmd
    case Set(name, Some(v)) =>
      assert forall c :: c in name ==> c != '\n' && c != NUL;
    case Section(name) =>
  }

  lemma NewlineStripped(s: string)
    requires s != "" && !IsSpace(s[|s| - 1])
    ensures Stripped(s + "\n", IsSpace) == s
  {
    StrippedUnique(s + "\n", IsSpace, s);
  }

  lemma ParseWords(line: string, keyword: string, rest: string)
    requires Stripped(line, IsSpace) == keyword + " " + rest && IsWord(keyword) && keyword[0] != '#'
    requires rest != "" && !IsSpace(rest[0]) && rest[0] != '='
    ensures Parse(line) == Arguments(keyword, Some(rest))
  {
    hide NextToken, Stripped, Arguments;
    WordThen(keyword, rest);
    assert keyword[0] in keyword;
  }

  /** strip, strdelim and the keyword dispatch undo the printing of one line. */
  lemma ParsePrinted(cmd: Command)
    requires IsPrintable(cmd)
    ensures Parse(PrintCommand(cmd) + "\n") == cmd
  {
    match cmd
    case Set(name, Some(v)) => ParseSet(name, v);
    case Section(name) => ParseSection(name);
  }

  /** A stripped set line whose value is opened by a quote, closed or not. */
  lemma ParseOpened(line: string, name: string, tail: string)
    requires IsWord(name) && tail != "" && tail[0] == '\"'
    requires Stripped(line, IsSpace) == "set " + name + " " + tail
    ensures Parse(line) == Set(name, NextToken(tail).token)
  {
    hide NextToken, Parse, Stripped;
    var rest := name + " " + tail;
    assert "set " + name + " " + tail == "set" + " " + rest;
    assert name[0] in name;
    ParseWords(line, "set", rest);
    WordThen(name, tail);
  }

  /** A set line, as a string, is read back exactly if its value holds no quote. */
  lemma ParseSet(name: string, v: string)
    requires IsWord(name)
    ensures Parse("set " + name + " " + Quoted(v) + "\n") == Set(name, Some(v)) <==> '\"' !in v
  {
    hide NextToken, Parse;
    NewlineStripped("set " + name + " " + Quoted(v));
    ParseOpened("set " + name + " " + Quoted(v) + "\n", name, Quoted(v));
    QuotedAlone(v);
    QuoteCuts(v);
  }

  lemma QuoteCuts(v: string)
    ensures v[..Span(v, Unquoted)] == v <==> '\"' !in v
  {
    hide Span;
    var m := Span(v, Unquoted);
    if m < |v| {
      assert v[m] in v;
      assert |v[..m]| < |v|;
    }
  }

  /** A stripped profile line whose name is opened by a quote, closed or not. */
  lemma ParseOpenedSection(line: string, tail: string)
    requires tail != "" && tail[0] == '\"' && Stripped(line, IsSpace) == "profile " + tail
    ensures Parse(line) == if NextToken(tail).token.None? then Bad else Section(NextToken(tail).token.value)
  {
    hide NextToken, Parse, Stripped;
    assert "profile " + tail == "profile" + " " + tail;
    ParseWords(line, "profile", tail);
  }

  /** A profile line with a quoted name, as a string, is read back exactly if the name holds no quote. */
  lemma ParseSection(name: string)
    ensures Parse("profile " + Quoted(name) + "\n") == Section(name) <==> '\"' !in name
  {
    hide NextToken, Parse;
    NewlineStripped("profile " + Quoted(name));
    ParseOpenedSection("profile " + Quoted(name) + "\n", Quoted(name));
    QuotedAlone(name);
    QuoteCuts(name);
  }

  /** So is any word without quotes. */
  lemma ParseBareSection(name: string)
    requires IsWord(name)
    ensures Parse("profile " + name + "\n") == Section(name)
  {
    hide NextToken, Parse;
    assert "profile " + name == "profile" + " " + name;
    assert name[0] in name && name[|name| - 1] in name;
    NewlineStripped("profile" + " " + name);
    ParseWords("profile" + " " + name + "\n", "profile", name);
    WordAlone(name);
  }

  function Print(cmds: seq<Command>): string {
    if cmds == [] then "" else PrintCommand(cmds[0]) + "\n" + Print(cmds[1..])
  }

  lemma CommandsCons(chunk: string, chunks: seq<string>)
    ensures CommandsOf([chunk] + chunks) == [Parse(Text(chunk, NUL))] + CommandsOf(chunks)
  {
  }

  /** Reading what was printed gives the commands back. */
  lemma {:induction false} PrintedCommands(cmds: seq<Command>)
    requires forall cmd :: cmd in cmds ==> IsPrintable(cmd)
    ensures Commands(Print(cmds)) == cmds
  {
    hide Parse, PrintCommand;
    if cmds != [] {
      var s, rest := PrintCommand(cmds[0]), Print(cmds[1..]);
      PrintedCommands(cmds[1..]);
      LineShape(cmds[0]);
      assert ['\n'] == "\n";
      Stdio.LineIsChunk(s, rest, '\n', LINE);
      TextIs(s + "\n", NUL, s + "\n");
      CommandsCons(s + "\n", Stdio.Chunks(rest, '\n', LINE));
      ParsePrinted(cmds[0]);
    }
  }

  // ---- which lines survive a file ----

  /** A line of a file is one command exactly if fgets hands it over in one piece. */
  lemma SoleCommand(s: string)
    ensures |Commands(s + "\n")| == 1 <==> '\n' !in s && |s| + 1 < LINE
    ensures |Commands(s + "\n")| == 1 ==> Commands(s + "\n") == [Parse(Text(s + "\n", NUL))]
  {
    hide Parse;
    var line := s + "\n";
    var chunks := Stdio.Chunks(line, '\n', LINE);
    if |chunks| == 1 {
      Stdio.ChunksCover(line, '\n', LINE);
      Stdio.ChunksAreChunks(line, '\n', LINE);
      assert chunks == [chunks[0]] && Stdio.Concat(chunks) == chunks[0];
      assert forall i :: 0 <= i < |s| ==> s[i] == line[i];
    }
    if '\n' !in s && |s| + 1 < LINE {
      assert line + "" == line && ['\n'] == "\n";
      Stdio.LineIsChunk(s, "", '\n', LINE);
    }
  }

  /** An opening quote alone, or a shorter value, is what is left of a value cut short. */
  lemma ShorterToken(w: string)
    ensures var t := NextToken("\"" + w).token; t.Some? ==> |t.value| <= |w|
  {
    SpanIs("\"" + w, Plain, 0);
  }

  /** A NUL ends the line in front of the closing quote. */
  lemma NulCuts(head: string, v: string)
    requires head != "" && !IsSpace(head[|head| - 1]) && NUL !in head && NUL in v
    ensures var w := Stripped(Text(v, NUL), IsSpace);
            |w| < |v| && Stripped(Text(head + v + "\"\n", NUL), IsSpace) == head + w
  {
    hide Text, Stripped;
    var line, u := head + v + "\"\n", Text(v, NUL);
    TextShorter(v, NUL);
    assert head + u <= line && line[|head| + |u|] == v[|u|];
    TextIs(line, NUL, head + u);
    QuoteHolds(head, u);
  }

  lemma NulLosesValue(name: string, v: string)
    requires IsWord(name) && NUL in v
    ensures Parse(Text("set " + name + " " + Quoted(v) + "\n", NUL)) != Set(name, Some(v))
  {
    hide NextToken, Parse, Text, Stripped;
    var line, head := "set " + name + " " + Quoted(v) + "\n", "set " + name + " \"";
    var w := Stripped(Text(v, NUL), IsSpace);
    assert line == head + v + "\"\n";
    NulCuts(head, v);
    assert head + w == "set " + name + " " + ("\"" + w);
    ParseOpened(Text(line, NUL), name, "\"" + w);
    ShorterToken(w);
  }

  lemma NulLosesName(name: string)
    requires NUL in name
    ensures Parse(Text("profile " + Quoted(name) + "\n", NUL)) != Section(name)
  {
    hide NextToken, Parse, Text, Stripped;
    var line, head := "profile " + Quoted(name) + "\n", "profile \"";
    var w := Stripped(Text(name, NUL), IsSpace);
    assert line == head + name + "\"\n";
    NulCuts(head, name);
    assert head + w == "profile " + ("\"" + w);
    ParseOpenedSection(Text(line, NUL), "\"" + w);
    ShorterToken(w);
  }

  lemma QuoteHolds(head: string, u: string)
    requires head != "" && !IsSpace(head[|head| - 1])
    ensures Stripped(head + u, IsSpace) == head + Stripped(u, IsSpace)
  {
    StrippedUnique(head + u, IsSpace, head + Stripped(u, IsSpace));
  }

  /** What a set line of a file brings back is what was written, exactly for the printable values. */
  lemma SetLineIff(name: string, v: string)
    requires IsWord(name)
    ensures var cmd := Set(name, Some(v));
            Commands(PrintCommand(cmd) + "\n") == [cmd]
            <==> '\"' !in v && '\n' !in v && NUL !in v && |PrintCommand(cmd)| + 1 < LINE
  {
    hide Parse, Commands;
    var cmd := Set(name, Some(v));
    var s := PrintCommand(cmd);
    SoleCommand(s);
    LineHolds(name, v);
    ParseSet(name, v);
    if NUL in v {
      NulLosesValue(name, v);
    } else {
      TextIs(s + "\n", NUL, s + "\n");
    }
  }

  /** The same for profile lines and every name. */
  lemma SectionLineIff(name: string)
    ensures var cmd := Section(name);
            Commands(PrintCommand(cmd) + "\n") == [cmd]
            <==> '\"' !in name && '\n' !in name && NUL !in name && |PrintCommand(cmd)| + 1 < LINE
  {
    hide Parse, Commands;
    var cmd := Section(name);
    var s := PrintCommand(cmd);
    SoleCommand(s);
    assert s == "profile \"" + name + "\"";
    ParseSection(name);
    if NUL in name {
      NulLosesName(name);
    } else {
      TextIs(s + "\n", NUL, s + "\n");
    }
  }

  lemma LineHolds(name: string, v: string)
    requires IsWord(name)
    ensures var s := PrintCommand(Set(name, Some(v)));
            ('\n' in s <==> '\n' in v) && (NUL in s + "\n" <==> NUL in v)
  {
    var head := "set " + name + " \"";
    assert PrintCommand(Set(name, Some(v))) == head + v + "\"";
    assert '\n' !in head && NUL !in head;
  }

  /** A token as long as what it was taken from is a word. */
  lemma WholeToken(s: string, t: string)
    requires NextToken(s).token == Some(t) && |t| >= |s|
    ensures t == s && forall c :: c in s ==> !IsDelimiter(c)
  {
    var k := Span(s, Plain);
    assert k == |s|;
  }

  lemma SkippedIsShorter(delimiter: char, s: string)
    ensures |AfterDelimiter(delimiter, s)| <= |s|
    ensures |AfterDelimiter(delimiter, s)| == |s| ==> AfterDelimiter(delimiter, s) == s
  {
  }

  /** If a profile line, cut off anywhere behind its keyword, names the profile, the name is a word. */
  lemma NamedIsWord(name: string, u: string)
    requires |u| <= |name| && NUL !in u
    requires Parse("profile " + u) == Section(name)
    ensures u == name && IsWord(name)
  {
    hide NextToken, Stripped, AfterDelimiter, Parse;
    var w := Stripped(u, IsSpace);
    if w == "" {
      NoName(u);
    } else {
      var r := AfterDelimiter(' ', w);
      SomeName(u, w);
      SkippedIsShorter(' ', w);
      WholeToken(r, name);
      assert w == u;
    }
  }

  lemma NoName(u: string)
    requires Stripped(u, IsSpace) == ""
    ensures Parse("profile " + u) == Bad
  {
    hide NextToken, Stripped;
    StrippedUnique("profile " + u, IsSpace, "profile");
    WordAlone("profile");
  }

  /** What stands behind the keyword. */
  lemma SomeName(u: string, w: string)
    requires Stripped(u, IsSpace) == w != ""
    ensures var name := NextToken(AfterDelimiter(' ', w)).token;
            Parse("profile " + u) == if name.None? then Bad else Section(name.value)
  {
    hide NextToken, Stripped, AfterDelimiter, Span;
    var s := "profile " + w;
    StrippedUnique("profile " + u, IsSpace, s);
    ProfileCut(w);
  }

  lemma ProfileCut(w: string)
    ensures NextToken("profile " + w) == Cut(Some("profile"), Some(AfterDelimiter(' ', w)))
  {
    hide NextToken, AfterDelimiter, Span;
    var s := "profile " + w;
    SpanIs(s, Plain, 7);
    BareToken(s, 7);
    assert s[..7] == "profile" && s[8..] == w;
  }

  /** Without quotes a profile line survives exactly for the names that are words. */
  lemma BareSectionIff(name: string)
    ensures Commands("profile " + name + "\n") == [Section(name)] <==> IsWord(name) && |name| + 9 < LINE
  {
    hide Parse, Commands;
    var s, t := "profile " + name, Text(name, NUL);
    SoleCommand(s);
    if IsWord(name) && |s| + 1 < LINE {
      assert forall c :: c in name ==> c != '\n' && c != NUL;
      TextIs(s + "\n", NUL, s + "\n");
      ParseBareSection(name);
    }
    if Commands(s + "\n") == [Section(name)] {
      SectionText(name);
      if NUL !in name {
        StripBehind("profile " + name);
      }
      NamedIsWord(name, t);
    }
  }

  lemma SectionText(name: string)
    ensures Text("profile " + name + "\n", NUL) ==
            if NUL in name then "profile " + Text(name, NUL) else "profile " + name + "\n"
    ensures NUL !in name ==> Text(name, NUL) == name
  {
    hide Text;
    var t, line := Text(name, NUL), "profile " + name + "\n";
    if NUL in name {
      TextShorter(name, NUL);
      assert line[8 + |t|] == name[|t|];
      TextIs(line, NUL, "profile " + t);
    } else {
      TextIs(name, NUL, name);
      TextIs(line, NUL, line);
    }
  }

  /** Parsing strips the newline itself. */
  lemma StripBehind(s: string)
    ensures Parse(s + "\n") == Parse(s)
  {
    var r := Stripped(s, IsSpace);
    StrippedUnique(s + "\n", IsSpace, r);
  }

  // ---- numbers ----

  function Digit(d: nat): char
    requires d < 10
  {
    '0' + d as char
  }

  function Decimal(n: nat): (s: string)
    ensures s != "" && forall c :: c in s ==> IsDigit(c)
  {
    if n < 10 then [Digit(n)] else Decimal(n / 10) + [Digit(n % 10)]
  }

  lemma {:induction false} DigitsSnoc(s: string, d: char, acc: nat)
    requires IsDigit(d) && forall c :: c in s ==> IsDigit(c)
    ensures DigitsValue(s + [d], acc) == 10 * DigitsValue(s, acc) + (d as int - '0' as int)
  {
    if s == "" {
      assert s + [d] == [d] && [d][1..] == "";
    } else {
      assert s[0] in s;
      assert (s + [d])[1..] == s[1..] + [d];
      DigitsSnoc(s[1..], d, 10 * acc + (s[0] as int - '0' as int));
    }
  }

  lemma {:induction false} DecimalValue(n: nat)
    ensures DigitsValue(Decimal(n), 0) == n
  {
    if n < 10 {
      assert Decimal(n)[1..] == "";
    } else {
      DecimalValue(n / 10);
      DigitsSnoc(Decimal(n / 10), Digit(n % 10), 0);
    }
  }

  lemma ParseDecimal(n: UInt)
    ensures ParseUInt(Decimal(n)) == n
  {
    var s := Decimal(n);
    assert s[0] in s;
    SpanIs(s, CSpace, 0);
    assert s[0..] == s;
    DecimalValue(n);
  }

  lemma {:induction false} DecimalSize(n: nat, d: nat)
    requires n < Power(10, d) && d > 0
    ensures |Decimal(n)| <= d
  {
    if n >= 10 {
      assert d > 1;
      DecimalSize(n / 10, d - 1);
    }
  }

  // ---- leading white space ----

  lemma {:induction false} SpanThrough(ws: string, s: string, inside: char -> bool)
    requires forall c :: c in ws ==> inside(c)
    ensures Span(ws + s, inside) == |ws| + Span(s, inside)
  {
    var n := |ws| + Span(s, inside);
    assert forall k :: 0 <= k < |ws| ==> (ws + s)[k] == ws[k] && ws[k] in ws;
    SpanIs(ws + s, inside, n);
  }

  lemma SkipThrough(ws: string, s: string)
    requires forall c :: c in ws ==> IsSpace(c)
    ensures SkipSpace(ws + s) == SkipSpace(s)
  {
    SpanThrough(ws, s, IsSpace);
  }

  lemma StripThrough(ws: string, line: string)
    requires forall c :: c in ws ==> IsSpace(c)
    ensures var s := Stripped(line, IsSpace);
            Stripped(ws + line, IsSpace) == if s == "" then "" else ws + s
  {
    var s := Stripped(line, IsSpace);
    var r := if s == "" then "" else ws + s;
    assert forall k :: 0 <= k < |ws| ==> (ws + line)[k] in ws;
    StrippedUnique(ws + line, IsSpace, r);
  }

  /** The keyword of a stripped line, and what to do with it. */
  function KeyOf(s: string): Cut {
    var first := NextToken(s);
    if first.token == Some("") then TokenOf(first.rest) else first
  }

  function Dispatch(key: Cut): Command {
    if key.token.None? || key.token.value == "" || Ignored(key.token.value[0]) then Nothing
    else Arguments(key.token.value, key.rest)
  }

  lemma ParseDispatches(line: string)
    ensures Parse(line) == Dispatch(KeyOf(Stripped(line, IsSpace)))
  {
    hide NextToken, Arguments, Stripped, TokenOf;
  }

  lemma DelimiterFirst(s: string)
    requires s != "" && IsDelimiter(s[0]) && s[0] != '\"'
    ensures NextToken(s) == Cut(Some(""), Some(AfterDelimiter(s[0], s[1..])))
  {
    hide NextToken, AfterDelimiter;
    SpanIs(s, Plain, 0);
    BareToken(s, 0);
    assert s[..0] == "";
  }

  lemma SpaceFirst(ws: string, s: string)
    requires ws != "" && forall c :: c in ws ==> IsSpace(c)
    ensures NextToken(ws + s) == Cut(Some(""), Some(AfterDelimiter(' ', s)))
  {
    hide NextToken, Span;
    var t := ws + s;
    assert t[0] == ws[0] && ws[0] in ws;
    assert t[1..] == ws[1..] + s;
    DelimiterFirst(t);
    SkipThrough(ws[1..], s);
  }

  /** A quoted token that is empty leaves nothing to act on. */
  lemma QuoteFirst(s: string)
    requires s != "" && s[0] == '\"'
    ensures NextToken(s).token == Some("") ==> NextToken(s).rest == Some("")
  {
    SpanIs(s, Plain, 0);
  }

  lemma PlainFirst(s: string)
    requires s != "" && !IsDelimiter(s[0])
    ensures NextToken(s).token != Some("")
  {
    var k := Span(s, Plain);
    assert k > 0;
  }

  lemma NothingLeft()
    ensures Dispatch(NextToken("")) == Nothing
  {
  }

  lemma KeyBehindSpace(ws: string, s: string)
    requires ws != "" && (forall c :: c in ws ==> IsSpace(c)) && s != ""
    ensures Dispatch(KeyOf(ws + s)) == Dispatch(KeyOf(s))
  {
    hide NextToken, Arguments, Span;
    SpaceFirst(ws, s);
    if IsSpace(s[0]) {
      assert s == [s[0]] + s[1..];
      SpaceFirst([s[0]], s[1..]);
      SkipThrough([s[0]], s[1..]);
    } else {
      SkipNothing(s);
      if s[0] == '=' {
        DelimiterFirst(s);
      } else if s[0] == '\"' {
        QuoteFirst(s);
        NothingLeft();
      } else {
        PlainFirst(s);
      }
    }
  }

  /** White space in front of a line changes nothing, whatever the line holds. */
  lemma LeadingSpaceIgnored(ws: string, line: string)
    requires forall c :: c in ws ==> IsSpace(c)
    ensures Parse(ws + line) == Parse(line)
  {
    hide Parse, KeyOf, Dispatch, Stripped;
    var s := Stripped(line, IsSpace);
    StripThrough(ws, line);
    ParseDispatches(line);
    ParseDispatches(ws + line);
    if ws == "" {
      assert ws + line == line;
    } else if s != "" {
      KeyBehindSpace(ws, s);
    }
  }

  /** Nor does it in a file, as long as the line with it still fits the buffer. */
  lemma LeadingSpaceInFile(ws: string, s: string, rest: string)
    requires (forall c :: c in ws ==> IsSpace(c) && c != '\n') && '\n' !in s
    requires |ws| + |s| + 1 < LINE
    ensures Commands(ws + s + "\n" + rest) == Commands(s + "\n" + rest)
  {
    hide Parse, Text;
    var t := Text(s + "\n", NUL);
    assert ['\n'] == "\n";
    Stdio.LineIsChunk(s, rest, '\n', LINE);
    Stdio.LineIsChunk(ws + s, rest, '\n', LINE);
    CommandsCons(s + "\n", Stdio.Chunks(rest, '\n', LINE));
    CommandsCons(ws + s + "\n", Stdio.Chunks(rest, '\n', LINE));
    assert ws + s + "\n" == ws + (s + "\n");
    TextIs(ws + (s + "\n"), NUL, ws + t);
    LeadingSpaceIgnored(ws, t);
  }
}
