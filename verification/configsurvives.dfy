/** Every configuration that a file can set up survives being written and read again. */
module ConfigSurvives {
  import opened Wrappers
  import opened CString
  import opened StrDelim
  import opened Config
  import opened ConfigPrint
  import opened ConfigRoundTrip
  import Stdio

  /** A text that some line of a file can bring in. */
  ghost predicate CleanText(v: string) {
    v != "" && IsQuotable(v)
  }

  ghost predicate CleanSet(v: string) {
    !IsSetName(v) && CleanText(SetText(v))
  }

  ghost predicate CleanGlobals(g: Globals) {
    && (g.characterSet.Some? ==> CleanSet(g.characterSet.value))
    && (g.editor.Some? ==> CleanText(g.editor.value))
    && (g.gpgKeyId.Some? ==> CleanText(g.gpgKeyId.value))
    && (g.gpgPath.Some? ==> CleanText(g.gpgPath.value))
    && (g.passwordFile.Some? ==> CleanText(g.passwordFile.value))
  }

  ghost predicate CleanProfile(p: Profile) {
    IsQuotable(p.name) && CleanSet(p.characterSet)
  }

  ghost predicate Clean(c: Conf) {
    CleanGlobals(c.globals) && forall p :: p in c.profiles ==> CleanProfile(p)
  }

  /** The line that would be written fits the buffer with its quotes and its newline. */
  predicate LineFits(name: string, v: Option<string>) {
    v.Some? ==> |name| + |v.value| + 8 < LINE
  }

  predicate SetLineFits(v: Option<string>) {
    v.Some? ==> LineFits("character_set", Some(SetText(v.value)))
  }

  predicate LinesFit(c: Conf) {
    && SetLineFits(c.globals.characterSet)
    && LineFits("editor", c.globals.editor)
    && LineFits("gpg_key_id", c.globals.gpgKeyId)
    && LineFits("gpg_path", c.globals.gpgPath)
    && LineFits("password_file", c.globals.passwordFile)
    && forall p :: p in c.profiles ==> |p.name| + 11 < LINE && SetLineFits(Some(p.characterSet))
  }

  lemma WritableIff(c: Conf)
    requires Clean(c)
    ensures Writable(c) <==> LinesFit(c)
  {
    hide IsQuotable, IsSetName, SetText;
  }

  // ---- what tokens can hold ----

  ghost predicate OneLine(s: string) {
    '\n' !in s && NUL !in s
  }

  lemma SuffixOneLine(s: string, k: nat)
    requires OneLine(s) && k <= |s|
    ensures OneLine(s[k..]) && OneLine(s[..k])
  {
  }

  lemma DelimiterOneLine(delimiter: char, s: string)
    requires OneLine(s)
    ensures OneLine(AfterDelimiter(delimiter, s))
  {
    hide Span, OneLine;
    var t := SkipSpace(s);
    SuffixOneLine(s, Span(s, IsSpace));
    if t != [] {
      SuffixOneLine(t, 1);
      SuffixOneLine(t[1..], Span(t[1..], IsSpace));
    }
  }

  lemma PlainIsQuotable(s: string, k: nat)
    requires OneLine(s) && k <= |s| && forall i :: 0 <= i < k ==> Plain(s[i])
    ensures IsQuotable(s[..k])
  {
  }

  lemma UnquotedIsQuotable(s: string, m: nat)
    requires OneLine(s) && m <= |s| && forall i :: 0 <= i < m ==> Unquoted(s[i])
    ensures IsQuotable(s[..m])
  {
  }

  lemma BothQuotable(a: string, b: string)
    requires IsQuotable(a) && IsQuotable(b)
    ensures IsQuotable(a + b)
  {
  }

  /** No token holds a quote, and none reaches beyond its line. */
  lemma TokenClean(s: string)
    requires OneLine(s)
    ensures var cut := NextToken(s);
            && (cut.token.Some? ==> IsQuotable(cut.token.value))
            && (cut.rest.Some? ==> OneLine(cut.rest.value))
  {
    hide OneLine, IsQuotable, AfterDelimiter, NextToken;
    var k := Span(s, Plain);
    PlainIsQuotable(s, k);
    BareToken(s, k);
    NothingOneLine();
    if k == |s| {
      assert s[..k] == s;
    } else {
      var t := s[k + 1..];
      SuffixOneLine(s, k + 1);
      DelimiterOneLine(s[k], t);
      if s[k] == '\"' {
        var m := Span(t, Unquoted);
        QuotedToken(s, k, m);
        UnquotedIsQuotable(t, m);
        BothQuotable(s[..k], t[..m]);
      }
    }
  }

  lemma NothingOneLine()
    ensures OneLine("")
  {
  }

  ghost predicate CleanCommand(cmd: Command) {
    match cmd
    case Set(_, v) => v.Some? ==> IsQuotable(v.value)
    case Section(name) => IsQuotable(name)
    case _ => true
  }

  ghost predicate CleanCut(cut: Cut) {
    (cut.token.Some? ==> IsQuotable(cut.token.value)) && (cut.rest.Some? ==> OneLine(cut.rest.value))
  }

  lemma TokenOfClean(rest: Option<string>)
    requires rest.Some? ==> OneLine(rest.value)
    ensures CleanCut(TokenOf(rest))
  {
    hide NextToken, OneLine, IsQuotable;
    if rest.Some? {
      TokenClean(rest.value);
    }
  }

  lemma ArgumentsClean(keyword: string, rest: Option<string>)
    requires rest.Some? ==> OneLine(rest.value)
    ensures CleanCommand(Arguments(keyword, rest))
  {
    hide TokenOf, OneLine, IsQuotable;
    TokenOfClean(rest);
    TokenOfClean(TokenOf(rest).rest);
  }

  lemma ParseClean(line: string)
    requires OneLine(Stripped(line, IsSpace))
    ensures CleanCommand(Parse(line))
  {
    hide NextToken, OneLine, IsQuotable, Arguments, Stripped, Parse;
    var s := Stripped(line, IsSpace);
    ParseDispatches(line);
    TokenClean(s);
    TokenOfClean(NextToken(s).rest);
    if KeyOf(s).token.Some? {
      ArgumentsClean(KeyOf(s).token.value, KeyOf(s).rest);
    }
  }

  lemma ChunkClean(chunk: string)
    requires Stdio.IsChunk(chunk, '\n', LINE)
    ensures OneLine(Stripped(Text(chunk, NUL), IsSpace))
  {
    var t := Text(chunk, NUL);
    var s := Stripped(t, IsSpace);
    assert s <= t <= chunk;
    forall i | 0 <= i < |s| ensures s[i] != '\n' {
      assert s[i] == chunk[i];
    }
    assert forall i :: 0 <= i < |s| ==> s[i] == t[i];
  }

  /** Whatever the file holds, its commands name and set texts that can be written in quotes. */
  lemma CommandsClean(f: string)
    ensures forall cmd :: cmd in Commands(f) ==> CleanCommand(cmd)
  {
    hide Parse, CleanCommand, OneLine;
    var chunks := Stdio.Chunks(f, '\n', LINE);
    Stdio.ChunksAreChunks(f, '\n', LINE);
    forall i | 0 <= i < |chunks| ensures CleanCommand(Parse(Text(chunks[i], NUL))) {
      assert chunks[i] in chunks;
      ChunkClean(chunks[i]);
      ParseClean(Text(chunks[i], NUL));
    }
  }

  // ---- predefined sets ----

  lemma RangeIsClean(w: string)
    requires w != "" && forall i :: 0 <= i < |w| ==> '0' <= w[i] <= 'z'
    ensures CleanText(w) && !IsSetName(w)
  {
    assert w[0] != '$';
  }

  /** A set of letters and digits is written as it is. */
  lemma RangeSetClean(w: string)
    requires w != "" && |w| != |PRINTABLE| && forall i :: 0 <= i < |w| ==> '0' <= w[i] <= 'z'
    ensures CleanSet(w)
  {
    hide CleanText, IsSetName;
    RangeIsClean(w);
    assert SYMBOLS[0] == '~';
  }

  lemma LettersAreClean()
    ensures CleanSet(DIGITS) && CleanSet(LOWERCASE) && CleanSet(UPPERCASE)
  {
    hide CleanSet;
    RangeSetClean(DIGITS);
    RangeSetClean(LOWERCASE);
    RangeSetClean(UPPERCASE);
  }

  lemma MixturesAreClean()
    ensures CleanSet(ALPHA) && CleanSet(ALPHANUMERIC)
  {
    hide CleanSet;
    RangeSetClean(ALPHA);
    RangeSetClean(ALPHANUMERIC);
  }

  lemma SymbolsAreClean()
    ensures CleanSet(SYMBOLS) && CleanSet(PRINTABLE)
  {
    hide CleanText, IsSetName;
    assert SYMBOLS[0] == '~' && PRINTABLE[0] == 'a';
    NotSetNames();
    NamesAreClean();
  }

  lemma NotSetNames()
    ensures !IsSetName(SYMBOLS) && !IsSetName(PRINTABLE)
  {
    assert SYMBOLS[0] != '$' && PRINTABLE[0] != '$';
  }

  lemma NamesAreClean()
    ensures CleanText("$SYMBOLS") && CleanText("$PRINTABLE")
  {
  }

  lemma ResolveClean(v: string)
    requires CleanText(v)
    ensures CleanSet(ResolveCharacterSet(v))
  {
    LettersAreClean();
    MixturesAreClean();
    SymbolsAreClean();
    if !IsSetName(v) {
      OwnSetClean(v);
    }
  }

  lemma OwnSetClean(v: string)
    requires CleanText(v) && !IsSetName(v)
    ensures CleanSet(v) && ResolveCharacterSet(v) == v
  {
    SymbolsAreClean();
  }

  // ---- every configuration reached ----

  lemma AssignClean(g: Globals, x: Variable, v: Option<string>)
    requires CleanGlobals(g) && (v.Some? ==> IsQuotable(v.value)) && (x != Backup ==> !NoValue(v))
    ensures CleanGlobals(Assign(g, x, v))
  {
    hide IsQuotable, CleanSet, ResolveCharacterSet, ParseUInt;
    if x != Backup {
      ResolveClean(v.value);
    }
  }

  lemma ProfileSetClean(p: Profile, name: string, v: Option<string>)
    requires CleanProfile(p) && (v.Some? ==> IsQuotable(v.value)) && SetProfileVariable(p, name, v).Ok?
    ensures CleanProfile(SetProfileVariable(p, name, v).value)
  {
    hide IsQuotable, CleanSet, ResolveCharacterSet, ParseUInt, VariableOf;
    ResolveClean(v.value);
  }

  lemma NewProfileClean(g: Globals, name: string)
    requires CleanGlobals(g) && IsQuotable(name)
    ensures CleanProfile(NewProfile(g, name))
  {
    hide IsQuotable, CleanSet;
    MixturesAreClean();
  }

  lemma ExecuteClean(c: Conf, cmd: Command)
    requires Clean(c) && CleanCommand(cmd) && Execute(c, cmd).Ok?
    ensures Clean(Execute(c, cmd).value)
  {
    hide IsQuotable, CleanProfile, CleanGlobals, SetProfileVariable, VariableOf, Assign, NewProfile;
    match cmd
    case Set(name, v) =>
      if c.profiles == [] {
        AssignClean(c.globals, VariableOf(name).value, v);
      } else {
        ProfileSetClean(c.profiles[|c.profiles| - 1], name, v);
      }
    case Section(name) =>
      NewProfileClean(c.globals, name);
    case _ =>
  }

  lemma {:induction false} RunClean(cmds: seq<Command>)
    requires (forall cmd :: cmd in cmds ==> CleanCommand(cmd)) && Run(INITIAL, cmds).Ok?
    ensures Clean(Run(INITIAL, cmds).value)
  {
    hide Execute, CleanCommand;
    if cmds != [] {
      var n := |cmds| - 1;
      RunClean(cmds[..n]);
      ExecuteClean(Run(INITIAL, cmds[..n]).value, cmds[n]);
    }
  }

  /** What an accepted file sets up can be written exactly if the lines, with their quotes, fit the buffer. */
  lemma AcceptedIsWritable(f: string)
    requires Run(INITIAL, Commands(f)).Ok?
    ensures var c := Run(INITIAL, Commands(f)).value;
            Writable(c) <==> LinesFit(c)
  {
    hide Commands, Writable, LinesFit, Clean, CleanCommand, Run;
    CommandsClean(f);
    RunClean(Commands(f));
    WritableIff(Run(INITIAL, Commands(f)).value);
  }

  /** And then writing and reading it gives the same configuration again. */
  lemma AcceptedSurvives(f: string)
    requires Run(INITIAL, Commands(f)).Ok? && LinesFit(Run(INITIAL, Commands(f)).value)
    ensures Run(INITIAL, Commands(Print(ConfCommands(Run(INITIAL, Commands(f)).value)))) == Run(INITIAL, Commands(f))
  {
    hide Commands, Writable, LinesFit, Run, Print, ConfCommands;
    AcceptedIsWritable(f);
    WrittenReadBack(Run(INITIAL, Commands(f)).value);
  }
}
