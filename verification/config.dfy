/** The configuration as values: what one line and one file do to it (config.c, profile.c). */
module Config {
  import opened Wrappers
  import opened CString
  import opened StrDelim
  import Stdio

  const UINT: int := 0x1_0000_0000
  const ULLONG_MAX: int := 0xffff_ffff_ffff_ffff

  /** MAX_LINE_SIZE */
  const LINE: nat := 16384

  const LOWERCASE: string := "abcdefghijklmnopqrstuvwxyz"
  const UPPERCASE: string := "ABCDEFGHIJKLMNOPQRSTUVWXYZ"
  const DIGITS: string := "1234567890"
  const SYMBOLS: string := "~`!@#$%^&*()_+-=[]\\{}|;':\",./<>?"
  const ALPHA: string := LOWERCASE + UPPERCASE
  const ALPHANUMERIC: string := ALPHA + DIGITS
  const PRINTABLE: string := ALPHANUMERIC + SYMBOLS

  type UInt = n: int | 0 <= n < UINT

  /** The cfg_ globals. */
  datatype Globals = Globals(
    backup: bool,
    characterCount: UInt,
    characterSet: Option<string>,
    editor: Option<string>,
    gpgKeyId: Option<string>,
    gpgPath: Option<string>,
    gpgTimeout: UInt,
    passwordCount: UInt,
    passwordFile: Option<string>,
    timeout: UInt
  )

  datatype Profile = Profile(name: string, passwordCount: UInt, characterCount: UInt, characterSet: string)

  /** The static current_profile is the last registered one, or NULL if there is none. */
  datatype Conf = Conf(globals: Globals, profiles: seq<Profile>)

  datatype Result<+T> = Ok(value: T) | Fatal

  /** Static initialisation. */
  const DEFAULTS: Globals := Globals(true, 16, None, None, None, None, 20, 4, None, 10)

  const INITIAL: Conf := Conf(DEFAULTS, [])

  // ---- values ----

  function ParseBoolean(v: Option<string>): bool {
    v.Some? && v.value != "" && v.value[0] == 'o'
  }

  predicate IsDigit(c: char) {
    '0' <= c <= '9'
  }

  /** The digits in front of s, added to what was read so far. */
  function DigitsValue(s: string, acc: nat): nat {
    if s == [] || !IsDigit(s[0]) then acc else DigitsValue(s[1..], 10 * acc + (s[0] as int - '0' as int))
  }

  /** isspace in the C locale. */
  predicate CSpace(c: char) {
    c == ' ' || '\t' <= c <= '\r'
  }

  /** strtoull in base 10, the end pointer ignored. */
  function Strtoull(v: string): (n: nat)
    ensures n <= ULLONG_MAX
  {
    Signed(v[Span(v, CSpace)..])
  }

  /** Behind the white space: an optional sign and the digits. */
  function Signed(s: string): (n: nat)
    ensures n <= ULLONG_MAX
  {
    var signed := s != [] && (s[0] == '-' || s[0] == '+');
    var n := DigitsValue(if signed then s[1..] else s, 0);
    if n > ULLONG_MAX then ULLONG_MAX
    else if signed && s[0] == '-' && n > 0 then ULLONG_MAX + 1 - n
    else n
  }

  /** The assignment of strtoull's result to an unsigned int. */
  function ParseUInt(v: string): UInt {
    Strtoull(v) % UINT
  }

  /** config_resolve_character_set */
  function ResolveCharacterSet(v: string): string {
    if v == "$DIGITS" then DIGITS
    else if v == "$LOWERCASE" then LOWERCASE
    else if v == "$UPPERCASE" then UPPERCASE
    else if v == "$ALPHA" then ALPHA
    else if v == "$ALPHANUMERIC" then ALPHANUMERIC
    else if v == "$SYMBOLS" then SYMBOLS
    else if v == "$PRINTABLE" then PRINTABLE
    else v
  }

  // ---- variables ----

  datatype Variable =
    | Backup | CharacterCount | CharacterSet | Editor | GpgKeyId
    | GpgPath | GpgTimeout | PasswordCount | PasswordFile | Timeout

  /** The strcmp chain of set_variable. */
  function VariableOf(name: string): Option<Variable> {
    if name == "backup" then Some(Backup)
    else if name == "character_count" then Some(CharacterCount)
    else if name == "character_set" then Some(CharacterSet)
    else if name == "editor" then Some(Editor)
    else if name == "gpg_key_id" then Some(GpgKeyId)
    else if name == "gpg_path" then Some(GpgPath)
    else if name == "gpg_timeout" then Some(GpgTimeout)
    else if name == "password_count" then Some(PasswordCount)
    else if name == "password_file" then Some(PasswordFile)
    else if name == "timeout" then Some(Timeout)
    else None
  }

  /** Missing or empty: an exit for every variable but backup. */
  predicate NoValue(v: Option<string>) {
    v.None? || v.value == ""
  }

  /** The field a variable names, given a value. */
  function Assign(g: Globals, x: Variable, v: Option<string>): Globals
    requires x != Backup ==> !NoValue(v)
  {
    match x
    case Backup => g.(backup := ParseBoolean(v))
    case CharacterCount => g.(characterCount := ParseUInt(v.value))
    case CharacterSet => g.(characterSet := Some(ResolveCharacterSet(v.value)))
    case Editor => g.(editor := v)
    case GpgKeyId => g.(gpgKeyId := v)
    case GpgPath => g.(gpgPath := v)
    case GpgTimeout => g.(gpgTimeout := ParseUInt(v.value))
    case PasswordCount => g.(passwordCount := ParseUInt(v.value))
    case PasswordFile => g.(passwordFile := v)
    case Timeout => g.(timeout := ParseUInt(v.value))
  }

  /** gpg_key_id, gpg_path and password_file may be set once only. */
  predicate AlreadySet(g: Globals, x: Variable) {
    match x
    case GpgKeyId => g.gpgKeyId.Some?
    case GpgPath => g.gpgPath.Some?
    case PasswordFile => g.passwordFile.Some?
    case _ => false
  }

  /** set_variable */
  function SetVariable(g: Globals, name: string, v: Option<string>): Result<Globals> {
    var x := VariableOf(name);
    if x.None? || AlreadySet(g, x.value) || (x.value != Backup && NoValue(v)) then Fatal
    else Ok(Assign(g, x.value, v))
  }

  /** set_profile_variable: three of the variables only. */
  function SetProfileVariable(p: Profile, name: string, v: Option<string>): Result<Profile> {
    var x := VariableOf(name);
    if x == Some(CharacterCount) && !NoValue(v) then Ok(p.(characterCount := ParseUInt(v.value)))
    else if x == Some(CharacterSet) && !NoValue(v) then Ok(p.(characterSet := ResolveCharacterSet(v.value)))
    else if x == Some(PasswordCount) && !NoValue(v) then Ok(p.(passwordCount := ParseUInt(v.value)))
    else Fatal
  }

  /** profile_new */
  function NewProfile(g: Globals, name: string): Profile {
    Profile(name, g.passwordCount, g.characterCount,
            if g.characterSet.Some? then g.characterSet.value else ALPHANUMERIC)
  }

  // ---- lines ----

  datatype Command = Nothing | Set(name: string, v: Option<string>) | Section(name: string) | Bad

  function TokenOf(rest: Option<string>): Cut {
    if rest.None? then Cut(None, None) else NextToken(rest.value)
  }

  /** A keyword that starts like this is a comment or an empty line. */
  predicate Ignored(c: char) {
    c == '\n' || c == '#'
  }

  /** What a line says, keyword and arguments taken apart by strdelim. */
  function Parse(line: string): Command {
    var first := NextToken(Stripped(line, IsSpace));
    if first.token.None? then Nothing
    else
      var key := if first.token.value == "" then TokenOf(first.rest) else first;
      if key.token.None? || key.token.value == "" || Ignored(key.token.value[0]) then Nothing
      else Arguments(key.token.value, key.rest)
  }

  function Arguments(keyword: string, rest: Option<string>): Command {
    var arg := TokenOf(rest);
    if keyword == "set" then
      if arg.token.None? then Bad else Set(arg.token.value, TokenOf(arg.rest).token)
    else if keyword == "profile" then
      if arg.token.None? then Bad else Section(arg.token.value)
    else Bad
  }

  function Execute(c: Conf, cmd: Command): Result<Conf> {
    match cmd
    case Nothing => Ok(c)
    case Set(name, v) =>
      if c.profiles == [] then
        var g := SetVariable(c.globals, name, v);
        if g.Fatal? then Fatal else Ok(c.(globals := g.value))
      else
        var n := |c.profiles| - 1;
        var p := SetProfileVariable(c.profiles[n], name, v);
        if p.Fatal? then Fatal else Ok(c.(profiles := c.profiles[n := p.value]))
    case Section(name) => Ok(c.(profiles := c.profiles + [NewProfile(c.globals, name)]))
    case Bad => Fatal
  }

  /** The commands in turn; the first fatal one ends the program. */
  function Run(c: Conf, cmds: seq<Command>): Result<Conf> {
    if cmds == [] then Ok(c)
    else
      var r := Run(c, cmds[..|cmds| - 1]);
      if r.Fatal? then Fatal else Execute(r.value, cmds[|cmds| - 1])
  }

  /** The commands of a file, as fgets hands its lines to process_config_line. */
  function Commands(f: string): (cmds: seq<Command>)
  {
    CommandsOf(Stdio.Chunks(f, '\n', LINE))
  }

  function CommandsOf(chunks: seq<string>): (cmds: seq<Command>)
    ensures |cmds| == |chunks|
    ensures forall i :: 0 <= i < |chunks| ==> cmds[i] == Parse(Text(chunks[i], NUL))
  {
    seq(|chunks|, i requires 0 <= i < |chunks| => Parse(Text(chunks[i], NUL)))
  }

  /** profile_get_from_name: the first profile of that name. */
  function Lookup(profiles: seq<Profile>, name: string): Option<Profile> {
    if profiles == [] then None
    else if profiles[0].name == name then Some(profiles[0])
    else Lookup(profiles[1..], name)
  }
}
