/** What the values of the configuration stand for. */
module ConfigValues {
  import opened Wrappers
  import opened CString
  import opened StrDelim
  import opened Config
  import opened ConfigPrint
  import opened ConfigRoundTrip
  import L = ConfigLines

  // ---- character sets ----

  /** It holds exactly the characters of this kind, each of them once. */
  ghost predicate HoldsOnce(w: string, kind: char -> bool) {
    (forall c :: c in w <==> kind(c)) && forall i, j :: 0 <= i < j < |w| ==> w[i] != w[j]
  }

  predicate Lower(c: char) {
    'a' <= c <= 'z'
  }

  predicate Upper(c: char) {
    'A' <= c <= 'Z'
  }

  predicate Printing(c: char) {
    '!' <= c <= '~'
  }

  predicate Letter(c: char) {
    Lower(c) || Upper(c)
  }

  predicate LetterOrDigit(c: char) {
    Letter(c) || '0' <= c <= '9'
  }

  predicate Symbol(c: char) {
    Printing(c) && !LetterOrDigit(c)
  }

  predicate Numeral(c: char) {
    '0' <= c <= '9'
  }

  lemma RunOfLetters(w: string, first: char, kind: char -> bool)
    requires forall i :: 0 <= i < |w| ==> w[i] as int == first as int + i
    requires forall c: char :: kind(c) <==> first as int <= c as int < first as int + |w|
    ensures HoldsOnce(w, kind)
  {
    forall c: char ensures c in w <==> kind(c) {
      if kind(c) {
        assert w[c as int - first as int] == c;
      }
    }
  }

  lemma LowerOnce()
    ensures HoldsOnce(LOWERCASE, Lower)
  {
    RunOfLetters(LOWERCASE, 'a', Lower);
  }

  lemma UpperOnce()
    ensures HoldsOnce(UPPERCASE, Upper)
  {
    RunOfLetters(UPPERCASE, 'A', Upper);
  }

  lemma NumeralsOnce()
    ensures HoldsOnce(DIGITS, Numeral)
  {
    var w := DIGITS;
    forall c: char ensures c in w <==> Numeral(c) {
      if Numeral(c) {
        assert w[if c == '0' then 9 else c as int - '1' as int] == c;
      }
    }
  }

  /** Two sets with nothing in common, one behind the other. */
  lemma Together(a: string, b: string, ka: char -> bool, kb: char -> bool, k: char -> bool)
    requires HoldsOnce(a, ka) && HoldsOnce(b, kb)
    requires forall c :: k(c) <==> ka(c) || kb(c)
    requires forall c :: !(ka(c) && kb(c))
    ensures HoldsOnce(a + b, k)
  {
    var w := a + b;
    forall i, j | 0 <= i < j < |w| ensures w[i] != w[j] {
      if i < |a| <= j {
        assert w[i] in a && w[j] in b;
      }
    }
  }

  /** Where a symbol stands among the symbols. */
  function Place(c: char): nat {
    match c
    case '~' => 0
    case '`' => 1
    case '!' => 2
    case '@' => 3
    case '#' => 4
    case '$' => 5
    case '%' => 6
    case '^' => 7
    case '&' => 8
    case '*' => 9
    case '(' => 10
    case ')' => 11
    case '_' => 12
    case '+' => 13
    case '-' => 14
    case '=' => 15
    case '[' => 16
    case ']' => 17
    case '\\' => 18
    case '{' => 19
    case '}' => 20
    case '|' => 21
    case ';' => 22
    case '\'' => 23
    case ':' => 24
    case '\"' => 25
    case ',' => 26
    case '.' => 27
    case '/' => 28
    case '<' => 29
    case '>' => 30
    case '?' => 31
    case _ => 32
  }

  lemma PlaceOf(i: nat)
    requires i < 32
    ensures |SYMBOLS| == 32 && Place(SYMBOLS[i]) == i && Symbol(SYMBOLS[i])
  {
    // the solver goes through eight of them at a time
    if i < 8 {} else if i < 16 {} else if i < 24 {} else {}
  }

  lemma AtPlace(c: char)
    requires Symbol(c)
    ensures Place(c) < 32 && SYMBOLS[Place(c)] == c
  {
  }

  lemma SymbolsOnce()
    ensures HoldsOnce(SYMBOLS, Symbol)
  {
    hide Place, Symbol;
    var w := SYMBOLS;
    PlaceOf(0);
    forall c: char ensures c in w <==> Symbol(c) {
      if c in w {
        var i :| 0 <= i < |w| && w[i] == c;
        PlaceOf(i);
      }
      if Symbol(c) {
        AtPlace(c);
      }
    }
    forall i, j | 0 <= i < j < |w| ensures w[i] != w[j] {
      PlaceOf(i);
      PlaceOf(j);
    }
  }

  lemma LettersOnce()
    ensures HoldsOnce(ALPHA, Letter) && HoldsOnce(ALPHANUMERIC, LetterOrDigit)
  {
    hide HoldsOnce;
    LowerOnce();
    UpperOnce();
    NumeralsOnce();
    Together(LOWERCASE, UPPERCASE, Lower, Upper, Letter);
    Together(ALPHA, DIGITS, Letter, Numeral, LetterOrDigit);
  }

  lemma PrintingOnce()
    ensures HoldsOnce(PRINTABLE, Printing)
  {
    hide HoldsOnce;
    LettersOnce();
    SymbolsOnce();
    Together(ALPHANUMERIC, SYMBOLS, LetterOrDigit, Symbol, Printing);
  }

  /** The kind of characters a name stands for; None for a text that stands for itself. */
  lemma NamedSets(c: char)
    ensures c in ResolveCharacterSet("$DIGITS") <==> '0' <= c <= '9'
    ensures c in ResolveCharacterSet("$LOWERCASE") <==> 'a' <= c <= 'z'
    ensures c in ResolveCharacterSet("$UPPERCASE") <==> 'A' <= c <= 'Z'
    ensures c in ResolveCharacterSet("$ALPHA") <==> 'a' <= c <= 'z' || 'A' <= c <= 'Z'
    ensures c in ResolveCharacterSet("$ALPHANUMERIC") <==> 'a' <= c <= 'z' || 'A' <= c <= 'Z' || '0' <= c <= '9'
    ensures c in ResolveCharacterSet("$SYMBOLS")
            <==> '!' <= c <= '~' && !('a' <= c <= 'z' || 'A' <= c <= 'Z' || '0' <= c <= '9')
    ensures c in ResolveCharacterSet("$PRINTABLE") <==> '!' <= c <= '~'
  {
    NumeralsOnce();
    LowerOnce();
    UpperOnce();
    LettersOnce();
    SymbolsOnce();
    PrintingOnce();
    Resolved();
  }

  lemma Resolved()
    ensures ResolveCharacterSet("$DIGITS") == DIGITS && ResolveCharacterSet("$LOWERCASE") == LOWERCASE
    ensures ResolveCharacterSet("$UPPERCASE") == UPPERCASE && ResolveCharacterSet("$ALPHA") == ALPHA
    ensures ResolveCharacterSet("$ALPHANUMERIC") == ALPHANUMERIC && ResolveCharacterSet("$SYMBOLS") == SYMBOLS
    ensures ResolveCharacterSet("$PRINTABLE") == PRINTABLE
  {
  }

  ghost predicate NoRepeats(w: string) {
    forall i, j :: 0 <= i < j < |w| ==> w[i] != w[j]
  }

  /** No character of a named set has more than one place in it; any other value stands for itself. */
  lemma SetsHaveNoRepeats(v: string)
    ensures if v in ["$DIGITS", "$LOWERCASE", "$UPPERCASE", "$ALPHA", "$ALPHANUMERIC", "$SYMBOLS", "$PRINTABLE"]
            then NoRepeats(ResolveCharacterSet(v))
            else ResolveCharacterSet(v) == v
  {
    NumeralsOnce();
    LowerOnce();
    UpperOnce();
    LettersOnce();
    SymbolsOnce();
    PrintingOnce();
    Resolved();
  }

  // ---- numbers ----

  ghost predicate AllDigits(d: string) {
    forall i :: 0 <= i < |d| ==> '0' <= d[i] <= '9'
  }

  /** The number a row of digits writes, the last one counting once, the one before ten times, and so on. */
  ghost function NumberOf(d: string): nat
    requires AllDigits(d)
  {
    if d == "" then 0
    else
      var n := |d| - 1;
      10 * NumberOf(d[..n]) + (d[n] as int - '0' as int)
  }

  lemma {:induction false} NumberRead(d: string)
    requires AllDigits(d)
    ensures DigitsValue(d, 0) == NumberOf(d)
  {
    if d != "" {
      var n := |d| - 1;
      NumberRead(d[..n]);
      DigitsSnoc(d[..n], d[n], 0);
      assert d == d[..n] + [d[n]];
    }
  }

  lemma {:induction false} TailIgnored(d: string, tail: string, acc: nat)
    requires AllDigits(d) && (tail == "" || !('0' <= tail[0] <= '9'))
    ensures DigitsValue(d + tail, acc) == DigitsValue(d, acc)
  {
    if d == "" {
      assert d + tail == tail;
    } else {
      assert (d + tail)[1..] == d[1..] + tail;
      TailIgnored(d[1..], tail, 10 * acc + (d[0] as int - '0' as int));
    }
  }

  lemma SkipCSpace(ws: string, s: string)
    requires (forall c :: c in ws ==> c == ' ' || '\t' <= c <= '\r')
    requires s == "" || !(s[0] == ' ' || '\t' <= s[0] <= '\r')
    ensures (ws + s)[Span(ws + s, CSpace)..] == s
  {
    hide Span;
    SpanThrough(ws, s, CSpace);
    SpanIs(s, CSpace, 0);
  }

  /** What a number variable becomes, for any white space, sign, digits and tail. */
  lemma NumberValue(ws: string, sign: string, d: string, tail: string)
    requires forall c :: c in ws ==> c == ' ' || '\t' <= c <= '\r'
    requires sign == "" || sign == "+" || sign == "-"
    requires d != "" && AllDigits(d) && (tail == "" || !('0' <= tail[0] <= '9'))
    ensures var n := NumberOf(d);
            ParseUInt(ws + sign + d + tail)
            == (if n > 0xffff_ffff_ffff_ffff then 0xffff_ffff_ffff_ffff
                else if sign == "-" then (0x1_0000_0000_0000_0000 - n) % 0x1_0000_0000_0000_0000
                else n) % 0x1_0000_0000
  {
    hide Strtoull, NumberOf;
    TailIgnored(d, tail, 0);
    NumberRead(d);
    SignRead(ws, sign, d + tail);
    assert ws + sign + d + tail == ws + sign + (d + tail);
  }

  lemma SignRead(ws: string, sign: string, t: string)
    requires forall c :: c in ws ==> c == ' ' || '\t' <= c <= '\r'
    requires sign == "" || sign == "+" || sign == "-"
    requires sign == "" && t != "" ==> t[0] != '+' && t[0] != '-' && t[0] != ' ' && !('\t' <= t[0] <= '\r')
    ensures var n := DigitsValue(t, 0);
            Strtoull(ws + sign + t)
            == if n > 0xffff_ffff_ffff_ffff then 0xffff_ffff_ffff_ffff
               else if sign == "-" then (0x1_0000_0000_0000_0000 - n) % 0x1_0000_0000_0000_0000
               else n
  {
    hide Span, Signed, DigitsValue;
    var s := sign + t;
    assert ws + sign + t == ws + s;
    SkipCSpace(ws, s);
    SignedValue(sign, t);
  }

  lemma SignedValue(sign: string, t: string)
    requires sign == "" || sign == "+" || sign == "-"
    requires sign == "" && t != "" ==> t[0] != '+' && t[0] != '-'
    ensures var n := DigitsValue(t, 0);
            Signed(sign + t)
            == if n > 0xffff_ffff_ffff_ffff then 0xffff_ffff_ffff_ffff
               else if sign == "-" then (0x1_0000_0000_0000_0000 - n) % 0x1_0000_0000_0000_0000
               else n
  {
    hide DigitsValue;
    var s, n := sign + t, DigitsValue(t, 0);
    assert if sign == "" then s == t else s[1..] == t && s[0] == sign[0];
    if n <= 0xffff_ffff_ffff_ffff {
      Negated(n);
    }
  }

  lemma Negated(n: nat)
    requires n <= 0xffff_ffff_ffff_ffff
    ensures (0x1_0000_0000_0000_0000 - n) % 0x1_0000_0000_0000_0000 == if n > 0 then 0x1_0000_0000_0000_0000 - n else 0
  {
  }

  /** Without a digit in its place it becomes 0. */
  lemma NoNumber(ws: string, sign: string, tail: string)
    requires forall c :: c in ws ==> c == ' ' || '\t' <= c <= '\r'
    requires sign == "" || sign == "+" || sign == "-"
    requires tail != "" ==> !('0' <= tail[0] <= '9')
    requires sign == "" && tail != "" ==>
               tail[0] != '+' && tail[0] != '-' && tail[0] != ' ' && !('\t' <= tail[0] <= '\r')
    ensures ParseUInt(ws + sign + tail) == 0
  {
    hide Strtoull;
    SignRead(ws, sign, tail);
  }

  // ---- names and files ----

  /** Which variable a name sets. */
  lemma GlobalsByName(g: Globals, v: string)
    requires v != ""
    ensures SetVariable(g, "character_count", Some(v)) == Ok(g.(characterCount := ParseUInt(v)))
    ensures SetVariable(g, "gpg_timeout", Some(v)) == Ok(g.(gpgTimeout := ParseUInt(v)))
    ensures SetVariable(g, "password_count", Some(v)) == Ok(g.(passwordCount := ParseUInt(v)))
    ensures SetVariable(g, "timeout", Some(v)) == Ok(g.(timeout := ParseUInt(v)))
    ensures SetVariable(g, "character_set", Some(v)) == Ok(g.(characterSet := Some(ResolveCharacterSet(v))))
    ensures SetVariable(g, "editor", Some(v)) == Ok(g.(editor := Some(v)))
    ensures SetVariable(g, "gpg_key_id", Some(v)) == if g.gpgKeyId.Some? then Fatal else Ok(g.(gpgKeyId := Some(v)))
    ensures SetVariable(g, "gpg_path", Some(v)) == if g.gpgPath.Some? then Fatal else Ok(g.(gpgPath := Some(v)))
    ensures SetVariable(g, "password_file", Some(v))
            == if g.passwordFile.Some? then Fatal else Ok(g.(passwordFile := Some(v)))
  {
    hide ParseUInt, ResolveCharacterSet, VariableOf;
    NameIsVariable(CharacterCount);
    NameIsVariable(GpgTimeout);
    NameIsVariable(PasswordCount);
    NameIsVariable(Timeout);
    NameIsVariable(CharacterSet);
    NameIsVariable(Editor);
    NameIsVariable(GpgKeyId);
    NameIsVariable(GpgPath);
    NameIsVariable(PasswordFile);
  }

  lemma ProfileByName(p: Profile, v: string)
    requires v != ""
    ensures SetProfileVariable(p, "character_count", Some(v)) == Ok(p.(characterCount := ParseUInt(v)))
    ensures SetProfileVariable(p, "character_set", Some(v)) == Ok(p.(characterSet := ResolveCharacterSet(v)))
    ensures SetProfileVariable(p, "password_count", Some(v)) == Ok(p.(passwordCount := ParseUInt(v)))
  {
    hide ParseUInt, ResolveCharacterSet, VariableOf;
    NameIsVariable(CharacterCount);
    NameIsVariable(CharacterSet);
    NameIsVariable(PasswordCount);
  }

  /** An empty file leaves the defaults. */
  lemma EmptyFile()
    ensures Run(INITIAL, Commands(""))
            == Ok(Conf(Globals(true, 16, None, None, None, None, 20, 4, None, 10), []))
  {
  }

  /** A profile and its character set, from the file to the fields. */
  lemma ProfileFile(p: string, v: string)
    requires p != "" && L.Solid(p) && NUL !in p && |p| + 9 < 16384
    requires v != "" && L.Solid(v) && NUL !in v && |v| + 19 < 16384
    ensures Run(INITIAL, Commands("profile " + p + "\n" + "set character_set " + v + "\n"))
            == Ok(Conf(Globals(true, 16, None, None, None, None, 20, 4, None, 10),
                       [Profile(p, 4, 16, ResolveCharacterSet(v))]))
  {
    hide Commands, Run, Parse, ResolveCharacterSet, L.Solid;
    var first, second := "profile " + p, "set character_set " + v;
    TwoLines(first, second, p, v);
    assert "profile " + p + "\n" + "set character_set " + v + "\n" == first + "\n" + second + "\n";
    RunConcat(INITIAL, [Section(p)], [Set("character_set", Some(v))]);
    assert [Section(p)] + [Set("character_set", Some(v))] == [Section(p), Set("character_set", Some(v))];
    ProfileRuns(p, v);
  }

  lemma ProfileRuns(p: string, v: string)
    requires v != ""
    ensures var q := Profile(p, 4, 16, ALPHANUMERIC);
            && Run(INITIAL, [Section(p)]) == Ok(Conf(DEFAULTS, [q]))
            && Run(Conf(DEFAULTS, [q]), [Set("character_set", Some(v))])
               == Ok(Conf(DEFAULTS, [q.(characterSet := ResolveCharacterSet(v))]))
  {
    hide Run, ResolveCharacterSet, SetProfileVariable;
    var q := Profile(p, 4, 16, ALPHANUMERIC);
    RunOne(INITIAL, Section(p));
    ProfileByName(q, v);
    SetLast(DEFAULTS, [], q, CharacterSet, v, q.(characterSet := ResolveCharacterSet(v)));
    var r := q.(characterSet := ResolveCharacterSet(v));
    assert [] + [q] == [q] && [] + [r] == [r];
  }

  lemma SolidWord(w: string)
    requires w != "" && L.Solid(w) && NUL !in w
    ensures IsWord(w) && '\n' !in w
  {
    forall c | c in w ensures !IsDelimiter(c) && c != '\n' {
      L.DelimiterIs(c);
    }
  }

  lemma TwoLines(first: string, second: string, p: string, v: string)
    requires p != "" && L.Solid(p) && NUL !in p && |p| + 9 < 16384 && first == "profile " + p
    requires v != "" && L.Solid(v) && NUL !in v && |v| + 19 < 16384 && second == "set character_set " + v
    ensures Commands(first + "\n" + second + "\n") == [Section(p), Set("character_set", Some(v))]
  {
    hide Commands, Parse, IsWord;
    SolidWord(p);
    SolidWord(v);
    assert '\n' !in first && '\n' !in second;
    assert "" + first + "\n" + (second + "\n") == first + "\n" + second + "\n";
    L.LineOfFile("", first, second + "\n");
    assert "" + second + "\n" + "" == second + "\n";
    L.LineOfFile("", second, "");
    EmptyCommands();
    assert NUL !in first + "\n" && NUL !in second + "\n";
    TextIs(first + "\n", NUL, first + "\n");
    TextIs(second + "\n", NUL, second + "\n");
    ParseBareSection(p);
    SetParsed(second, v);
  }

  lemma EmptyCommands()
    ensures Commands("") == []
  {
  }

  lemma SetParsed(second: string, v: string)
    requires v != "" && L.Solid(v) && second == "set character_set " + v
    ensures Parse(second + "\n") == Set("character_set", Some(v))
  {
    hide Parse;
    var none, blank, name := "", " ", "character_set";
    L.SpaceIs(' ');
    L.SpaceIs('\n');
    L.BlankOrEquals('\n');
    NameIsWord(CharacterSet);
    WordIsSolid(name);
    assert second + "\n" == none + "set" + blank + name + blank + none + none + v + "\n";
    L.SetLineParses(none, blank, name, blank, none, none, v, "\n");
  }

  lemma WordIsSolid(w: string)
    requires IsWord(w)
    ensures L.Solid(w)
  {
    forall c | c in w ensures c !in " \t\r\n\"=" {
      L.DelimiterIs(c);
    }
  }

  /** In particular digits for a profile that asks for them. */
  lemma DigitsProfile(p: string, c: char)
    requires p != "" && L.Solid(p) && NUL !in p && |p| + 9 < 16384
    ensures var r := Run(INITIAL, Commands("profile " + p + "\n" + "set character_set " + "$DIGITS" + "\n"));
            && r.Ok? && |r.value.profiles| == 1 && r.value.profiles[0].name == p
            && NoRepeats(r.value.profiles[0].characterSet)
            && (c in r.value.profiles[0].characterSet <==> '0' <= c <= '9')
  {
    hide Commands, Run, ResolveCharacterSet, L.Solid;
    var v := "$DIGITS";
    DollarDigits(v);
    ProfileFile(p, v);
    NamedSets(c);
    SetsHaveNoRepeats(v);
  }

  lemma DollarDigits(v: string)
    requires v == "$DIGITS"
    ensures L.Solid(v) && NUL !in v
  {
    forall c | c in v ensures c !in " \t\r\n\"=" {
      L.DelimiterIs(c);
    }
  }
}
