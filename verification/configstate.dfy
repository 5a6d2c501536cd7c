/** The configuration as the program keeps it: globals, a list of profile objects, and the current one. */
module ConfigState {
  import opened Wrappers
  import opened CString
  import opened StrDelim
  import opened Config
  import Stdio

  /** struct profile */
  class ProfileObject {
    const name: string
    var passwordCount: UInt
    var characterCount: UInt
    var characterSet: string

    ghost function View(): Profile
      reads this
    {
      Profile(name, passwordCount, characterCount, characterSet)
    }

    /** profile_new; its values are those of the globals at this moment. */
    constructor (name: string, g: Globals)
      ensures View() == NewProfile(g, name)
    {
      this.name := name;
      passwordCount, characterCount := g.passwordCount, g.characterCount;
      characterSet := if g.characterSet.Some? then g.characterSet.value else ALPHANUMERIC;
    }

    /** set_profile_variable; false is an exit. */
    method SetVariable(variable: string, v: Option<string>) returns (ok: bool)
      modifies this
      ensures ok <==> SetProfileVariable(old(View()), variable, v).Ok?
      ensures ok ==> View() == SetProfileVariable(old(View()), variable, v).value
    {
      if NoValue(v) {
        return false;
      }
      if variable == "character_count" {
        characterCount := ParseUInt(v.value);
      } else if variable == "character_set" {
        characterSet := ResolveCharacterSet(v.value);
      } else if variable == "password_count" {
        passwordCount := ParseUInt(v.value);
      } else {
        return false;
      }
      return true;
    }
  }

  ghost function Views(ps: seq<ProfileObject>): (vs: seq<Profile>)
    reads ps
    ensures |vs| == |ps| && forall i :: 0 <= i < |ps| ==> vs[i] == ps[i].View()
  {
    seq(|ps|, i requires 0 <= i < |ps| reads ps => ps[i].View())
  }

  class State {
    var globals: Globals
    var profiles: seq<ProfileObject>
    var currentProfile: ProfileObject?

    ghost predicate Valid()
      reads this
    {
      && (currentProfile == null <==> profiles == [])
      && (profiles != [] ==> currentProfile == profiles[|profiles| - 1])
      && forall i, j :: 0 <= i < j < |profiles| ==> profiles[i] != profiles[j]
    }

    ghost function View(): Conf
      reads this, profiles
    {
      Conf(globals, Views(profiles))
    }

    constructor ()
      ensures Valid() && View() == INITIAL && profiles == []
    {
      globals, profiles, currentProfile := DEFAULTS, [], null;
    }

    /** set_variable: the strcmp chain, one global at a time; false is an exit. */
    method SetGlobal(name: string, v: Option<string>) returns (ok: bool)
      modifies this`globals
      ensures ok <==> SetVariable(old(globals), name, v).Ok?
      ensures ok ==> globals == SetVariable(old(globals), name, v).value
    {
      ok := !NoValue(v);
      if name == "backup" {
        globals := globals.(backup := v.Some? && v.value != "" && v.value[0] == 'o');
        return true;
      } else if name == "character_count" {
        if ok { globals := globals.(characterCount := ParseUInt(v.value)); }
      } else if name == "character_set" {
        if ok { globals := globals.(characterSet := Some(ResolveCharacterSet(v.value))); }
      } else if name == "editor" {
        if ok { globals := globals.(editor := v); }
      } else if name == "gpg_key_id" {
        ok := ok && globals.gpgKeyId == None;
        if ok { globals := globals.(gpgKeyId := v); }
      } else if name == "gpg_path" {
        ok := ok && globals.gpgPath == None;
        if ok { globals := globals.(gpgPath := v); }
      } else if name == "gpg_timeout" {
        if ok { globals := globals.(gpgTimeout := ParseUInt(v.value)); }
      } else if name == "password_count" {
        if ok { globals := globals.(passwordCount := ParseUInt(v.value)); }
      } else if name == "password_file" {
        ok := ok && globals.passwordFile == None;
        if ok { globals := globals.(passwordFile := v); }
      } else if name == "timeout" {
        if ok { globals := globals.(timeout := ParseUInt(v.value)); }
      } else {
        ok := false;
      }
    }

    /** The two targets of a set line. */
    method SetAny(name: string, v: Option<string>) returns (ok: bool)
      requires Valid()
      modifies this`globals, profiles
      ensures Valid() && profiles == old(profiles)
      ensures ok <==> Execute(old(View()), Set(name, v)).Ok?
      ensures ok ==> View() == Execute(old(View()), Set(name, v)).value
    {
      if currentProfile == null {
        ok := SetGlobal(name, v);
      } else {
        ok := currentProfile.SetVariable(name, v);
      }
    }

    /** A profile line: profile_new and profile_register. */
    method AddProfile(name: string)
      requires Valid()
      modifies this`profiles, this`currentProfile
      ensures Valid() && View() == Execute(old(View()), Section(name)).value
      ensures profiles == old(profiles) + [currentProfile] && fresh(currentProfile)
    {
      var p := new ProfileObject(name, globals);
      currentProfile := p;
      profiles := profiles + [p];
    }

    /** profile_get_from_name */
    method GetFromName(name: string) returns (p: ProfileObject?)
      ensures p == null <==> Lookup(Views(profiles), name) == None
      ensures p != null ==> p in profiles && Lookup(Views(profiles), name) == Some(p.View())
    {
      ghost var vs := Views(profiles);
      for i := 0 to |profiles|
        invariant Lookup(vs, name) == Lookup(vs[i..], name)
      {
        if profiles[i].name == name {
          return profiles[i];
        }
      }
      return null;
    }

    /** The arguments behind a keyword, cut off the line in place; the name is read after the value was cut. */
    method ProcessArguments(keyword: string, line: array<char>, rest: Option<nat>, ghost s: Option<string>)
      returns (ok: bool)
      requires Valid() && PointsTo(line[..], rest, s)
      modifies this, profiles, line
      ensures ok <==> Execute(old(View()), Arguments(keyword, s)).Ok?
      ensures ok ==> Valid() && View() == Execute(old(View()), Arguments(keyword, s)).value
      ensures forall k :: 0 <= k < |profiles| ==> profiles[k] in old(profiles) || fresh(profiles[k])
    {
      hide NextToken, TokenOf, Execute;
      NeverFine(View());
      if keyword == "set" {
        var name, value := CutArguments(line, rest, s);
        if name.None? {
          return false;
        }
        ok := SetAny(name.value, value);
      } else if keyword == "profile" {
        var p, behind := NextInLine(line, rest, s);
        var name := ReadString(line, p, TokenOf(s).token);
        if name.None? {
          return false;
        }
        SectionIsFine(View(), name.value);
        AddProfile(name.value);
        ok := true;
      } else {
        ok := false;
      }
    }

    /** process_config_line on a buffer that holds the line. */
    method ProcessConfigLine(line: array<char>) returns (ok: bool)
      requires Valid() && NUL in line[..]
      modifies this, profiles, line
      ensures ok <==> Execute(old(View()), Parse(Text(old(line[..]), NUL))).Ok?
      ensures ok ==> Valid() && View() == Execute(old(View()), Parse(Text(old(line[..]), NUL))).value
      ensures forall k :: 0 <= k < |profiles| ==> profiles[k] in old(profiles) || fresh(profiles[k])
    {
      hide Execute, Arguments;
      NothingIsFine(View());
      var key, rest, keyword, behind := CutKeyword(line);
      if key {
        ok := ProcessArguments(keyword, line, rest, behind);
      } else {
        ok := true;
      }
    }

    /** config_read */
    method ConfigRead(f: string) returns (ok: bool)
      requires Valid()
      modifies this, profiles
      ensures ok <==> Run(old(View()), Commands(f)).Ok?
      ensures ok ==> Valid() && View() == Run(old(View()), Commands(f)).value
    {
      hide Execute, Parse;
      ghost var c := View();
      ghost var cmds := Commands(f);
      var chunks := Stdio.Chunks(f, '\n', LINE);
      for i := 0 to |chunks|
        invariant Valid() && forall k :: 0 <= k < |profiles| ==> profiles[k] in old(profiles) || fresh(profiles[k])
        invariant Run(c, cmds[..i]) == Ok(View())
      {
        RunNext(c, cmds, i);
        var line := BufferOf(chunks[i]);
        ok := ProcessConfigLine(line);
        if !ok {
          StaysFatal(c, cmds, i + 1);
          return;
        }
      }
      assert cmds[..|chunks|] == cmds;
      ok := true;
    }
  }

  lemma RunNext(c: Conf, cmds: seq<Command>, i: nat)
    requires i < |cmds|
    ensures Run(c, cmds[..i + 1])
            == if Run(c, cmds[..i]).Fatal? then Fatal else Execute(Run(c, cmds[..i]).value, cmds[i])
  {
    assert cmds[..i + 1][..i] == cmds[..i];
  }

  lemma {:induction false} StaysFatal(c: Conf, cmds: seq<Command>, i: nat)
    requires i <= |cmds| && Run(c, cmds[..i]).Fatal?
    ensures Run(c, cmds).Fatal?
    decreases |cmds| - i
  {
    if i < |cmds| {
      RunNext(c, cmds, i);
      StaysFatal(c, cmds, i + 1);
    } else {
      assert cmds[..i] == cmds;
    }
  }

  lemma NothingIsFine(c: Conf)
    ensures Execute(c, Nothing) == Ok(c)
  {
  }

  /** What fgets leaves in the buffer. */
  method BufferOf(chunk: string) returns (line: array<char>)
    ensures fresh(line) && NUL in line[..] && Text(line[..], NUL) == Text(chunk, NUL)
  {
    line := new char[|chunk| + 1];
    forall i | 0 <= i < |chunk| {
      line[i] := chunk[i];
    }
    line[|chunk|] := NUL;
    assert line[|chunk|] == NUL;
    TextIs(line[..], NUL, Text(chunk, NUL));
  }

  /** Strip the line and cut its keyword off; key tells whether there is one to act on. */
  method CutKeyword(line: array<char>)
    returns (key: bool, rest: Option<nat>, keyword: string, ghost behind: Option<string>)
    requires NUL in line[..]
    modifies line
    ensures !key ==> Parse(Text(old(line[..]), NUL)) == Nothing
    ensures key ==> PointsTo(line[..], rest, behind)
    ensures key ==> Parse(Text(old(line[..]), NUL)) == Arguments(keyword, behind)
  {
    hide NextToken, Arguments;
    key, keyword, behind := false, "", None;
    ghost var s := Stripped(Text(line[..], NUL), IsSpace);
    StripTrailing(line, NUL, IsSpace);
    assert line[0..] == line[..];
    TextIsString(line[..], 0);
    var k: Option<nat>;
    k, rest := NextInLine(line, Some(0), Some(s));
    if k.None? {
      return;
    }
    behind := TokenOf(Some(s)).rest;
    var word := ReadString(line, k, TokenOf(Some(s)).token);
    if word == Some("") {
      ghost var again := TokenOf(behind);
      k, rest := NextInLine(line, rest, behind);
      word := ReadString(line, k, again.token);
      behind := again.rest;
    }
    if word.None? || word.value == "" || Ignored(word.value[0]) {
      return;
    }
    key, keyword := true, word.value;
  }

  lemma SectionIsFine(c: Conf, name: string)
    ensures Execute(c, Section(name)).Ok?
  {
  }

  lemma NeverFine(c: Conf)
    ensures Execute(c, Bad).Fatal?
  {
  }

  /** The two arguments of a set line; the name is read after the value was cut off behind it. */
  method CutArguments(line: array<char>, rest: Option<nat>, ghost s: Option<string>)
    returns (name: Option<string>, value: Option<string>)
    requires PointsTo(line[..], rest, s)
    modifies line
    ensures name == TokenOf(s).token
    ensures name.Some? ==> value == TokenOf(TokenOf(s).rest).token
  {
    hide NextToken, TokenOf;
    var n, behind := NextInLine(line, rest, s);
    if n.None? {
      return None, None;
    }
    ghost var cut, mid := TokenOf(s), line[..];
    var v, end := NextInLine(line, behind, cut.rest);
    TokenSurvives(mid, line[..], n.value, cut, behind);
    name := ReadString(line, n, cut.token);
    value := ReadString(line, v, TokenOf(cut.rest).token);
  }

  /** The pointer and the string it stands for, or NULL. */
  ghost predicate PointsTo(buf: seq<char>, p: Option<nat>, s: Option<string>) {
    (p.None? <==> s.None?) && (p.Some? ==> StringAt(buf, p.value, s.value))
  }

  method ReadString(buf: array<char>, p: Option<nat>, ghost s: Option<string>) returns (r: Option<string>)
    requires PointsTo(buf[..], p, s)
    ensures r == s
  {
    if p.None? {
      return None;
    }
    StringIsText(buf[..], p.value, s.value);
    return Some(Text(buf[p.value..], NUL));
  }

  /** strdelim on a pointer into the line. */
  method NextInLine(line: array<char>, p: Option<nat>, ghost s: Option<string>)
    returns (token: Option<nat>, next: Option<nat>)
    requires PointsTo(line[..], p, s)
    modifies line
    ensures PointsTo(line[..], token, TokenOf(s).token) && PointsTo(line[..], next, TokenOf(s).rest)
    ensures Kept(old(line[..]), line[..], p, s)
    ensures token.Some? ==> Behind(token.value, TokenOf(s), next)
  {
    token, next := Strdelim(line, p, if s.Some? then s.value else "");
  }

  /** Nothing in front of the pointer changes, and nothing at all if the line is used up. */
  ghost predicate Kept(was: seq<char>, now: seq<char>, p: Option<nat>, s: Option<string>) {
    && |was| == |now|
    && (p.None? || s == Some("") ==> now == was)
    && (p.Some? ==> p.value <= |was| && now[..p.value] == was[..p.value])
  }

  /** What is left of the line starts behind the token, unless nothing is left. */
  ghost predicate Behind(token: nat, cut: Cut, next: Option<nat>) {
    cut.token.Some? && (next.Some? && cut.rest != Some("") ==> next.value > token + |cut.token.value|)
  }

  /** A token is still there after the next one was cut. */
  lemma TokenSurvives(was: seq<char>, now: seq<char>, token: nat, cut: Cut, next: Option<nat>)
    requires cut.token.Some? && StringAt(was, token, cut.token.value) && PointsTo(was, next, cut.rest)
    requires Behind(token, cut, next) && Kept(was, now, next, cut.rest)
    ensures StringAt(now, token, cut.token.value)
  {
    if next.Some? && cut.rest != Some("") {
      assert forall k :: 0 <= k < next.value ==> now[k] == now[..next.value][k] == was[..next.value][k] == was[k];
    }
  }
}
