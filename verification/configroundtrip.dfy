/** A whole configuration written out as set and profile lines, and read back. */
module ConfigRoundTrip {
  import opened Wrappers
  import opened CString
  import opened StrDelim
  import opened Config
  import opened ConfigPrint

  /** How a character set is written; the two that hold a quote have a name. */
  function SetText(v: string): string {
    if v == SYMBOLS then "$SYMBOLS" else if v == PRINTABLE then "$PRINTABLE" else v
  }

  /** A name of a predefined set cannot be a set itself. */
  predicate IsSetName(v: string) {
    v in ["$DIGITS", "$LOWERCASE", "$UPPERCASE", "$ALPHA", "$ALPHANUMERIC", "$SYMBOLS", "$PRINTABLE"]
  }

  lemma SetTextResolves(v: string)
    requires !IsSetName(v)
    ensures ResolveCharacterSet(SetText(v)) == v
  {
  }

  // ---- commands ----

  function NameOf(x: Variable): string {
    match x
    case Backup => "backup"
    case CharacterCount => "character_count"
    case CharacterSet => "character_set"
    case Editor => "editor"
    case GpgKeyId => "gpg_key_id"
    case GpgPath => "gpg_path"
    case GpgTimeout => "gpg_timeout"
    case PasswordCount => "password_count"
    case PasswordFile => "password_file"
    case Timeout => "timeout"
  }

  lemma NameIsVariable(x: Variable)
    ensures VariableOf(NameOf(x)) == Some(x) && |NameOf(x)| <= 15
  {
  }

  lemma NameIsWord(x: Variable)
    ensures IsWord(NameOf(x))
  {
    match x
    case Backup => LettersOnly("backup");
    case CharacterCount => LettersOnly("character_count");
    case CharacterSet => LettersOnly("character_set");
    case Editor => LettersOnly("editor");
    case GpgKeyId => LettersOnly("gpg_key_id");
    case GpgPath => LettersOnly("gpg_path");
    case GpgTimeout => LettersOnly("gpg_timeout");
    case PasswordCount => LettersOnly("password_count");
    case PasswordFile => LettersOnly("password_file");
    case Timeout => LettersOnly("timeout");
  }

  lemma LettersOnly(w: string)
    requires w != "" && forall i :: 0 <= i < |w| ==> '_' <= w[i] <= 'z'
    ensures IsWord(w)
  {
  }

  /** What is written for a variable; nothing for a text that was never set. */
  function ValueText(g: Globals, x: Variable): Option<string> {
    match x
    case Backup => Some(if g.backup then "on" else "no")
    case CharacterCount => Some(Decimal(g.characterCount))
    case CharacterSet => if g.characterSet.None? then None else Some(SetText(g.characterSet.value))
    case Editor => g.editor
    case GpgKeyId => g.gpgKeyId
    case GpgPath => g.gpgPath
    case GpgTimeout => Some(Decimal(g.gpgTimeout))
    case PasswordCount => Some(Decimal(g.passwordCount))
    case PasswordFile => g.passwordFile
    case Timeout => Some(Decimal(g.timeout))
  }

  const ALL: seq<Variable> :=
    [Backup, CharacterCount, CharacterSet, Editor, GpgKeyId, GpgPath, GpgTimeout, PasswordCount, PasswordFile, Timeout]

  function GlobalCommands(g: Globals, xs: seq<Variable>): seq<Command> {
    if xs == [] then []
    else
      var x := xs[|xs| - 1];
      GlobalCommands(g, xs[..|xs| - 1]) + if ValueText(g, x).None? then [] else [Set(NameOf(x), ValueText(g, x))]
  }

  function ProfileCommands(p: Profile): seq<Command> {
    [Section(p.name),
     Set("character_count", Some(Decimal(p.characterCount))),
     Set("character_set", Some(SetText(p.characterSet))),
     Set("password_count", Some(Decimal(p.passwordCount)))]
  }

  function ProfilesCommands(ps: seq<Profile>): seq<Command> {
    if ps == [] then [] else ProfilesCommands(ps[..|ps| - 1]) + ProfileCommands(ps[|ps| - 1])
  }

  function ConfCommands(c: Conf): seq<Command> {
    GlobalCommands(c.globals, ALL) + ProfilesCommands(c.profiles)
  }

  // ---- what can be written ----

  /** A text that fits between quotes behind this name. */
  ghost predicate TextFits(name: string, v: string) {
    v != "" && IsQuotable(v) && |name| + |v| + 8 < LINE
  }

  ghost predicate SetFits(v: string) {
    !IsSetName(v) && TextFits("character_set", SetText(v))
  }

  ghost predicate GlobalsFit(g: Globals) {
    && (g.characterSet.Some? ==> SetFits(g.characterSet.value))
    && (g.editor.Some? ==> TextFits("editor", g.editor.value))
    && (g.gpgKeyId.Some? ==> TextFits("gpg_key_id", g.gpgKeyId.value))
    && (g.gpgPath.Some? ==> TextFits("gpg_path", g.gpgPath.value))
    && (g.passwordFile.Some? ==> TextFits("password_file", g.passwordFile.value))
  }

  ghost predicate ProfileFits(p: Profile) {
    IsQuotable(p.name) && |p.name| + 11 < LINE && SetFits(p.characterSet)
  }

  ghost predicate Writable(c: Conf) {
    GlobalsFit(c.globals) && forall p :: p in c.profiles ==> ProfileFits(p)
  }

  lemma PowerTen()
    ensures UINT <= Power(10, 10)
  {
    assert Power(10, 5) == 100000;
    assert Power(10, 10) == 100000 * Power(10, 5);
  }

  lemma DecimalFits(n: UInt, name: string)
    requires |name| <= 15
    ensures TextFits(name, Decimal(n))
  {
    hide Decimal, Power;
    PowerTen();
    DecimalSize(n, 10);
  }

  lemma FlagFits()
    ensures TextFits("backup", "on") && TextFits("backup", "no")
  {
  }

  lemma ValueFits(g: Globals, x: Variable)
    requires GlobalsFit(g) && ValueText(g, x).Some?
    ensures TextFits(NameOf(x), ValueText(g, x).value)
  {
    hide Decimal, SetText, IsSetName, TextFits;
    match x
    case Backup => FlagFits();
    case CharacterCount => DecimalFits(g.characterCount, NameOf(x));
    case GpgTimeout => DecimalFits(g.gpgTimeout, NameOf(x));
    case PasswordCount => DecimalFits(g.passwordCount, NameOf(x));
    case Timeout => DecimalFits(g.timeout, NameOf(x));
    case _ =>
  }

  lemma FitsIsPrintable(x: Variable, v: string)
    requires TextFits(NameOf(x), v)
    ensures IsPrintable(Set(NameOf(x), Some(v)))
  {
    hide IsQuotable, IsWord, NameOf;
    NameIsWord(x);
  }

  lemma {:induction false} GlobalsPrintable(g: Globals, xs: seq<Variable>)
    requires GlobalsFit(g)
    ensures forall cmd :: cmd in GlobalCommands(g, xs) ==> IsPrintable(cmd)
  {
    hide GlobalsFit, ValueText, IsPrintable, TextFits;
    if xs != [] {
      var x := xs[|xs| - 1];
      GlobalsPrintable(g, xs[..|xs| - 1]);
      if ValueText(g, x).Some? {
        ValueFits(g, x);
        FitsIsPrintable(x, ValueText(g, x).value);
      }
    }
  }

  lemma SectionPrintable(name: string)
    requires IsQuotable(name) && |name| + 11 < LINE
    ensures IsPrintable(Section(name))
  {
    hide IsWord;
  }

  lemma ProfilePrintable(p: Profile)
    requires ProfileFits(p)
    ensures forall cmd :: cmd in ProfileCommands(p) ==> IsPrintable(cmd)
  {
    hide IsPrintable, TextFits, IsWord, Decimal, IsSetName;
    SectionPrintable(p.name);
    DecimalFits(p.characterCount, NameOf(CharacterCount));
    DecimalFits(p.passwordCount, NameOf(PasswordCount));
    FitsIsPrintable(CharacterCount, Decimal(p.characterCount));
    FitsIsPrintable(CharacterSet, SetText(p.characterSet));
    FitsIsPrintable(PasswordCount, Decimal(p.passwordCount));
  }

  lemma {:induction false} ProfilesPrintable(ps: seq<Profile>)
    requires forall p :: p in ps ==> ProfileFits(p)
    ensures forall cmd :: cmd in ProfilesCommands(ps) ==> IsPrintable(cmd)
  {
    hide IsPrintable, ProfileFits, ProfileCommands;
    if ps != [] {
      ProfilesPrintable(ps[..|ps| - 1]);
      ProfilePrintable(ps[|ps| - 1]);
    }
  }

  // ---- reading back ----

  lemma {:induction false} RunConcat(c: Conf, a: seq<Command>, b: seq<Command>)
    ensures Run(c, a + b) == if Run(c, a).Fatal? then Fatal else Run(Run(c, a).value, b)
    decreases |b|
  {
    hide Execute;
    if b == [] {
      assert a + b == a;
    } else {
      var n := |b| - 1;
      assert (a + b)[..|a| + n] == a + b[..n];
      RunConcat(c, a, b[..n]);
    }
  }

  lemma RunOne(c: Conf, cmd: Command)
    ensures Run(c, [cmd]) == Execute(c, cmd)
  {
    hide Execute;
    assert [cmd][..0] == [];
  }

  /** The variables listed are those of g, the others those of h. */
  function Mixed(h: Globals, g: Globals, xs: seq<Variable>): Globals {
    Globals(
      if Backup in xs then g.backup else h.backup,
      if CharacterCount in xs then g.characterCount else h.characterCount,
      if CharacterSet in xs then g.characterSet else h.characterSet,
      if Editor in xs then g.editor else h.editor,
      if GpgKeyId in xs then g.gpgKeyId else h.gpgKeyId,
      if GpgPath in xs then g.gpgPath else h.gpgPath,
      if GpgTimeout in xs then g.gpgTimeout else h.gpgTimeout,
      if PasswordCount in xs then g.passwordCount else h.passwordCount,
      if PasswordFile in xs then g.passwordFile else h.passwordFile,
      if Timeout in xs then g.timeout else h.timeout)
  }

  lemma ValueAssigned(h: Globals, g: Globals, xs: seq<Variable>, x: Variable)
    requires GlobalsFit(g) && ValueText(g, x).Some?
    ensures Assign(Mixed(h, g, xs), x, ValueText(g, x)) == Mixed(h, g, xs + [x])
  {
    hide Decimal, ParseUInt, SetText, ResolveCharacterSet, IsSetName, TextFits;
    var v := ValueText(g, x).value;
    ValueFits(g, x);
    NotEmpty(NameOf(x), v);
    forall y: Variable ensures y in xs + [x] <==> y in xs || y == x {
    }
    match x
    case CharacterCount => ParseDecimal(g.characterCount);
    case GpgTimeout => ParseDecimal(g.gpgTimeout);
    case PasswordCount => ParseDecimal(g.passwordCount);
    case Timeout => ParseDecimal(g.timeout);
    case CharacterSet => SetTextResolves(g.characterSet.value);
    case _ =>
  }

  lemma NotEmpty(name: string, v: string)
    requires TextFits(name, v)
    ensures v != ""
  {
  }

  lemma SetOne(g: Globals, xs: seq<Variable>, x: Variable)
    requires GlobalsFit(g) && x !in xs && ValueText(g, x).Some?
    ensures SetVariable(Mixed(DEFAULTS, g, xs), NameOf(x), ValueText(g, x)) == Ok(Mixed(DEFAULTS, g, xs + [x]))
  {
    hide Assign, ValueText, NameOf, VariableOf, TextFits;
    NameIsVariable(x);
    ValueFits(g, x);
    NotEmpty(NameOf(x), ValueText(g, x).value);
    ValueAssigned(DEFAULTS, g, xs, x);
  }

  lemma Unwritten(g: Globals, xs: seq<Variable>, x: Variable)
    requires x !in xs && ValueText(g, x).None?
    ensures Mixed(DEFAULTS, g, xs) == Mixed(DEFAULTS, g, xs + [x])
  {
    hide Decimal, SetText;
    forall y: Variable ensures y in xs + [x] <==> y in xs || y == x {
    }
  }

  lemma {:induction false} GlobalsBack(g: Globals, xs: seq<Variable>)
    requires GlobalsFit(g) && forall i, j :: 0 <= i < j < |xs| ==> xs[i] != xs[j]
    ensures Run(INITIAL, GlobalCommands(g, xs)) == Ok(Conf(Mixed(DEFAULTS, g, xs), []))
  {
    hide ValueText, GlobalsFit, Mixed, NameOf, SetVariable;
    if xs == [] {
      assert Mixed(DEFAULTS, g, []) == DEFAULTS by { NothingMixed(g); }
    } else {
      var n := |xs| - 1;
      var before, x := xs[..n], xs[n];
      GlobalsBack(g, before);
      assert before + [x] == xs;
      if ValueText(g, x).None? {
        Unwritten(g, before, x);
        assert GlobalCommands(g, xs) == GlobalCommands(g, before);
      } else {
        SetOne(g, before, x);
        RunConcat(INITIAL, GlobalCommands(g, before), [Set(NameOf(x), ValueText(g, x))]);
        RunOne(Conf(Mixed(DEFAULTS, g, before), []), Set(NameOf(x), ValueText(g, x)));
      }
    }
  }

  lemma NothingMixed(g: Globals)
    ensures Mixed(DEFAULTS, g, []) == DEFAULTS
  {
  }

  lemma AllMixed(g: Globals)
    ensures Mixed(DEFAULTS, g, ALL) == g
  {
  }

  lemma SetProfile(p: Profile, x: Variable, v: string)
    requires v != ""
    ensures x == CharacterCount ==> SetProfileVariable(p, NameOf(x), Some(v)) == Ok(p.(characterCount := ParseUInt(v)))
    ensures x == CharacterSet ==>
              SetProfileVariable(p, NameOf(x), Some(v)) == Ok(p.(characterSet := ResolveCharacterSet(v)))
    ensures x == PasswordCount ==> SetProfileVariable(p, NameOf(x), Some(v)) == Ok(p.(passwordCount := ParseUInt(v)))
  {
    hide VariableOf, NameOf, ParseUInt, ResolveCharacterSet;
    NameIsVariable(x);
  }

  /** Setting a variable of the last profile. */
  lemma SetLast(g: Globals, ps: seq<Profile>, p: Profile, x: Variable, v: string, q: Profile)
    requires SetProfileVariable(p, NameOf(x), Some(v)) == Ok(q)
    ensures Run(Conf(g, ps + [p]), [Set(NameOf(x), Some(v))]) == Ok(Conf(g, ps + [q]))
  {
    hide SetProfileVariable, NameOf;
    RunOne(Conf(g, ps + [p]), Set(NameOf(x), Some(v)));
    assert (ps + [p])[|ps|] == p && (ps + [p])[|ps| := q] == ps + [q];
  }

  lemma ProfileBack(g: Globals, ps: seq<Profile>, p: Profile)
    requires ProfileFits(p)
    ensures Run(Conf(g, ps), ProfileCommands(p)) == Ok(Conf(g, ps + [p]))
  {
    hide Decimal, ParseUInt, ResolveCharacterSet, SetText, SetProfileVariable, IsWord, IsSetName, TextFits, Run, NameOf;
    var c := Conf(g, ps);
    var n, s, m := Decimal(p.characterCount), SetText(p.characterSet), Decimal(p.passwordCount);
    ParseDecimal(p.characterCount);
    ParseDecimal(p.passwordCount);
    SetTextResolves(p.characterSet);
    NotEmpty("character_set", s);
    var p0 := NewProfile(g, p.name);
    var p1 := p0.(characterCount := p.characterCount);
    var p2 := p1.(characterSet := p.characterSet);
    SetProfile(p0, CharacterCount, n);
    SetProfile(p1, CharacterSet, s);
    SetProfile(p2, PasswordCount, m);
    SetLast(g, ps, p0, CharacterCount, n, p1);
    SetLast(g, ps, p1, CharacterSet, s, p2);
    SetLast(g, ps, p2, PasswordCount, m, p);
    RunOne(c, Section(p.name));
    var a := [Section(p.name)];
    var b := a + [Set(NameOf(CharacterCount), Some(n))];
    var d := b + [Set(NameOf(CharacterSet), Some(s))];
    RunConcat(c, a, [Set(NameOf(CharacterCount), Some(n))]);
    RunConcat(c, b, [Set(NameOf(CharacterSet), Some(s))]);
    RunConcat(c, d, [Set(NameOf(PasswordCount), Some(m))]);
    FourCommands(p);
    assert p2.(passwordCount := p.passwordCount) == p;
  }

  lemma FourCommands(p: Profile)
    ensures ProfileCommands(p) == [Section(p.name)] + [Set(NameOf(CharacterCount), Some(Decimal(p.characterCount)))]
                                  + [Set(NameOf(CharacterSet), Some(SetText(p.characterSet)))]
                                  + [Set(NameOf(PasswordCount), Some(Decimal(p.passwordCount)))]
  {
    hide Decimal, SetText;
  }

  lemma {:induction false} ProfilesBack(g: Globals, ps: seq<Profile>)
    requires forall p :: p in ps ==> ProfileFits(p)
    ensures Run(Conf(g, []), ProfilesCommands(ps)) == Ok(Conf(g, ps))
  {
    hide ProfileFits, ProfileCommands, Execute;
    if ps != [] {
      var n := |ps| - 1;
      ProfilesBack(g, ps[..n]);
      ProfileBack(g, ps[..n], ps[n]);
      RunConcat(Conf(g, []), ProfilesCommands(ps[..n]), ProfileCommands(ps[n]));
      assert ps[..n] + [ps[n]] == ps;
    }
  }

  /** The commands that write a configuration set it up again. */
  lemma CommandsBack(c: Conf)
    requires Writable(c)
    ensures Run(INITIAL, ConfCommands(c)) == Ok(c)
  {
    hide Run, GlobalCommands, ProfilesCommands, GlobalsFit, ProfileFits, Mixed;
    GlobalsBack(c.globals, ALL);
    AllMixed(c.globals);
    ProfilesBack(c.globals, c.profiles);
    RunConcat(INITIAL, GlobalCommands(c.globals, ALL), ProfilesCommands(c.profiles));
  }

  /** Writing a configuration to a file and reading the file gives the configuration. */
  lemma WrittenReadBack(c: Conf)
    requires Writable(c)
    ensures Run(INITIAL, Commands(Print(ConfCommands(c)))) == Ok(c)
  {
    hide Run, GlobalCommands, ProfilesCommands, GlobalsFit, ProfileFits, IsPrintable, Print, Commands;
    CommandsBack(c);
    GlobalsPrintable(c.globals, ALL);
    ProfilesPrintable(c.profiles);
    PrintedCommands(ConfCommands(c));
  }

  // ---- backup, as the manual has it and as it is ----

  /** Whatever the value, missing or empty too, backup is on afterwards exactly if the value starts with an o. */
  lemma BackupAfter(c: Conf, v: Option<string>)
    requires c.profiles == []
    ensures Execute(c, Set("backup", v)) == Ok(c.(globals := c.globals.(backup := v.Some? && "o" <= v.value)))
  {
    hide ParseUInt, ResolveCharacterSet;
    if v.Some? {
      StartsWithO(v.value);
    }
  }

  lemma StartsWithO(w: string)
    ensures "o" <= w <==> w != "" && w[0] == 'o'
  {
    if w != "" {
      assert "o" <= w <==> w[..1] == ['o'];
    }
  }

  function BackupLine(v: Option<string>): string {
    if v.None? then "set backup" else "set backup " + v.value
  }

  lemma BackupCommand(v: Option<string>)
    requires v.Some? ==> IsWord(v.value)
    requires |BackupLine(v)| + 1 < LINE
    ensures Commands(BackupLine(v) + "\n") == [Set("backup", v)]
  {
    hide Commands, Parse;
    var s := BackupLine(v);
    assert v.Some? ==> v.value[|v.value| - 1] in v.value;
    assert NUL !in s && '\n' !in s && !IsSpace(s[|s| - 1]);
    SoleCommand(s);
    TextIs(s + "\n", NUL, s + "\n");
    NewlineStripped(s);
    BackupParsed(v);
  }

  lemma BackupParsed(v: Option<string>)
    requires v.Some? ==> IsWord(v.value)
    requires Stripped(BackupLine(v) + "\n", IsSpace) == BackupLine(v)
    ensures Parse(BackupLine(v) + "\n") == Set("backup", v)
  {
    hide NextToken, Parse, Stripped;
    var rest := if v.None? then "backup" else "backup" + " " + v.value;
    assert BackupLine(v) == "set" + " " + rest;
    ParseWords(BackupLine(v) + "\n", "set", rest);
    if v.None? {
      WordAlone("backup");
    } else {
      assert v.value[0] in v.value;
      WordThen("backup", v.value);
      WordAlone(v.value);
    }
  }

  /** A backup line of the file, with a word or without, in front of the first profile. */
  lemma BackupLineAfter(c: Conf, v: Option<string>)
    requires c.profiles == [] && (v.Some? ==> IsWord(v.value))
    requires |BackupLine(v)| + 1 < LINE
    ensures Run(c, Commands(BackupLine(v) + "\n"))
            == Ok(c.(globals := c.globals.(backup := v.Some? && "o" <= v.value)))
  {
    hide Commands, Execute, BackupLine, Run;
    BackupCommand(v);
    RunOne(c, Set("backup", v));
    BackupAfter(c, v);
  }

  /** The values the manual names, and what it says of them. */
  function Documented(w: string): Option<bool> {
    if w == "yes" then Some(true) else if w == "no" || w == "false" then Some(false) else None
  }

  /** Of the documented values, exactly those that switch backups off do what the manual says. */
  lemma DocumentedIff(c: Conf, w: string)
    requires c.profiles == [] && Documented(w).Some?
    ensures var r := Run(c, Commands(BackupLine(Some(w)) + "\n"));
            r.Ok? && (r.value.globals.backup == Documented(w).value <==> !Documented(w).value)
  {
    hide Commands, Run;
    StartsWithO(w);
    assert IsWord(w) && |BackupLine(Some(w))| + 1 < LINE;
    BackupLineAfter(c, Some(w));
  }
}
