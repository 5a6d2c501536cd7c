/** What a configuration file means, read as sections: globals first, then one block per profile. */
module ConfigMeaning {
  import opened Wrappers
  import opened StrDelim
  import opened Config

  /** The command sets this variable. */
  predicate Sets(c: Command, x: Variable) {
    c.Set? && VariableOf(c.name) == Some(x)
  }

  /** One past the last command that sets the variable; 0 if there is none. */
  function LastSetEnd(cmds: seq<Command>, x: Variable): (k: nat)
    ensures k <= |cmds| && forall i :: k <= i < |cmds| ==> !Sets(cmds[i], x)
    ensures k > 0 ==> Sets(cmds[k - 1], x)
  {
    hide VariableOf;
    if cmds == [] then 0
    else if Sets(cmds[|cmds| - 1], x) then |cmds|
    else LastSetEnd(cmds[..|cmds| - 1], x)
  }

  /** The value of the last set of this variable, if there is one. */
  function LastSet(cmds: seq<Command>, x: Variable): Option<Option<string>> {
    var k := LastSetEnd(cmds, x);
    if k == 0 then None else Some(cmds[k - 1].v)
  }

  /** Where the profiles begin. */
  function FirstSection(cmds: seq<Command>): (k: nat)
    ensures k <= |cmds| && forall i :: 0 <= i < k ==> !cmds[i].Section?
    ensures k < |cmds| ==> cmds[k].Section?
  {
    if cmds == [] then 0
    else
      var n := |cmds| - 1;
      var k := FirstSection(cmds[..n]);
      if k < n || cmds[n].Section? then k else n + 1
  }

  /** One past the last profile line; 0 if there is none. */
  function LastSection(cmds: seq<Command>): (k: nat)
    ensures k <= |cmds| && forall i :: k <= i < |cmds| ==> !cmds[i].Section?
    ensures k > 0 ==> cmds[k - 1].Section?
  {
    if cmds == [] then 0
    else if cmds[|cmds| - 1].Section? then |cmds|
    else LastSection(cmds[..|cmds| - 1])
  }

  function NumberOr(v: Option<Option<string>>, default: UInt): UInt {
    if v.Some? && v.value.Some? then ParseUInt(v.value.value) else default
  }

  function TextOr(v: Option<Option<string>>, default: Option<string>): Option<string> {
    if v.Some? then v.value else default
  }

  function SetOr(v: Option<Option<string>>, default: Option<string>): Option<string> {
    if v.Some? && v.value.Some? then Some(ResolveCharacterSet(v.value.value)) else default
  }

  /** Every global is what was last set, or its default. */
  function GlobalsOf(cmds: seq<Command>): Globals {
    Globals(
      if LastSet(cmds, Backup).Some? then ParseBoolean(LastSet(cmds, Backup).value) else DEFAULTS.backup,
      NumberOr(LastSet(cmds, CharacterCount), DEFAULTS.characterCount),
      SetOr(LastSet(cmds, CharacterSet), DEFAULTS.characterSet),
      TextOr(LastSet(cmds, Editor), DEFAULTS.editor),
      TextOr(LastSet(cmds, GpgKeyId), DEFAULTS.gpgKeyId),
      TextOr(LastSet(cmds, GpgPath), DEFAULTS.gpgPath),
      NumberOr(LastSet(cmds, GpgTimeout), DEFAULTS.gpgTimeout),
      NumberOr(LastSet(cmds, PasswordCount), DEFAULTS.passwordCount),
      TextOr(LastSet(cmds, PasswordFile), DEFAULTS.passwordFile),
      NumberOr(LastSet(cmds, Timeout), DEFAULTS.timeout))
  }

  /** Every field of a profile is what was last set in its block, or the global value, or the default. */
  function ProfileOf(name: string, g: Globals, block: seq<Command>): Profile {
    Profile(name,
            NumberOr(LastSet(block, PasswordCount), g.passwordCount),
            NumberOr(LastSet(block, CharacterCount), g.characterCount),
            SetOr(LastSet(block, CharacterSet),
                  Some(if g.characterSet.Some? then g.characterSet.value else ALPHANUMERIC)).value)
  }

  function ProfilesOf(g: Globals, cmds: seq<Command>): seq<Profile> {
    var k := LastSection(cmds);
    if k == 0 then [] else ProfilesOf(g, cmds[..k - 1]) + [ProfileOf(cmds[k - 1].name, g, cmds[k..])]
  }

  function Meaning(cmds: seq<Command>): Conf {
    var g := GlobalsOf(cmds[..FirstSection(cmds)]);
    Conf(g, ProfilesOf(g, cmds))
  }

  // ---- one more command ----

  lemma LastSetSnoc(cmds: seq<Command>, c: Command, x: Variable)
    ensures LastSet(cmds + [c], x) == if Sets(c, x) then Some(c.v) else LastSet(cmds, x)
  {
    hide VariableOf;
    assert (cmds + [c])[..|cmds|] == cmds;
  }

  lemma SectionsSnoc(cmds: seq<Command>, x: Command)
    ensures FirstSection(cmds + [x])
            == if FirstSection(cmds) < |cmds| || x.Section? then FirstSection(cmds) else |cmds| + 1
    ensures LastSection(cmds + [x]) == if x.Section? then |cmds| + 1 else LastSection(cmds)
  {
    assert (cmds + [x])[..|cmds|] == cmds;
  }

  lemma AllSetsSnoc(cmds: seq<Command>, c: Command)
    ensures forall x: Variable :: LastSet(cmds + [c], x) == if Sets(c, x) then Some(c.v) else LastSet(cmds, x)
  {
    forall x: Variable ensures LastSet(cmds + [c], x) == if Sets(c, x) then Some(c.v) else LastSet(cmds, x) {
      LastSetSnoc(cmds, c, x);
    }
  }

  lemma NoGlobalSet(cmds: seq<Command>, c: Command)
    requires !c.Set?
    ensures GlobalsOf(cmds + [c]) == GlobalsOf(cmds)
  {
    hide LastSet, VariableOf, ParseUInt, ResolveCharacterSet;
    AllSetsSnoc(cmds, c);
  }

  lemma GlobalSet(cmds: seq<Command>, c: Command, x: Variable)
    requires Sets(c, x) && (x != Backup ==> !NoValue(c.v))
    ensures GlobalsOf(cmds + [c]) == Assign(GlobalsOf(cmds), x, c.v)
  {
    hide LastSet, VariableOf, ParseUInt, ResolveCharacterSet, ParseBoolean;
    AllSetsSnoc(cmds, c);
    match x
    case Backup =>
    case CharacterCount =>
    case CharacterSet =>
    case Editor =>
    case GpgKeyId =>
    case GpgPath =>
    case GpgTimeout =>
    case PasswordCount =>
    case PasswordFile =>
    case Timeout =>
  }

  /** Setting a global after the others. */
  lemma GlobalsSnoc(cmds: seq<Command>, c: Command)
    requires c.Set? ==> SetVariable(GlobalsOf(cmds), c.name, c.v).Ok?
    ensures GlobalsOf(cmds + [c])
            == if c.Set? then SetVariable(GlobalsOf(cmds), c.name, c.v).value else GlobalsOf(cmds)
  {
    hide GlobalsOf, VariableOf, Assign;
    if c.Set? {
      GlobalSet(cmds, c, VariableOf(c.name).value);
    } else {
      NoGlobalSet(cmds, c);
    }
  }

  lemma ProfileSnoc(name: string, g: Globals, block: seq<Command>, c: Command)
    requires c.Set? ==> SetProfileVariable(ProfileOf(name, g, block), c.name, c.v).Ok?
    ensures ProfileOf(name, g, block + [c])
            == if c.Set? then SetProfileVariable(ProfileOf(name, g, block), c.name, c.v).value
               else ProfileOf(name, g, block)
  {
    hide LastSet, ParseUInt, ResolveCharacterSet, VariableOf;
    AllSetsSnoc(block, c);
  }

  /** A command that opens no section works on the last one. */
  lemma ProfilesSnoc(g: Globals, cmds: seq<Command>, x: Command)
    requires !x.Section? && LastSection(cmds) > 0
    ensures var k := LastSection(cmds);
            ProfilesOf(g, cmds + [x])
            == ProfilesOf(g, cmds[..k - 1]) + [ProfileOf(cmds[k - 1].name, g, cmds[k..] + [x])]
  {
    var k := LastSection(cmds);
    SectionsSnoc(cmds, x);
    assert (cmds + [x])[..k - 1] == cmds[..k - 1] && (cmds + [x])[k..] == cmds[k..] + [x];
  }

  lemma NewSection(g: Globals, cmds: seq<Command>, name: string)
    ensures ProfilesOf(g, cmds + [Section(name)]) == ProfilesOf(g, cmds) + [NewProfile(g, name)]
  {
    hide LastSection, LastSet;
    var all := cmds + [Section(name)];
    SectionsSnoc(cmds, Section(name));
    assert all[..|cmds|] == cmds && all[|cmds| + 1..] == [];
    EmptyBlock(g, name);
  }

  lemma EmptyBlock(g: Globals, name: string)
    ensures ProfileOf(name, g, []) == NewProfile(g, name)
  {
    hide ParseUInt, ResolveCharacterSet;
  }

  lemma {:induction false} NoSections(g: Globals, cmds: seq<Command>)
    ensures FirstSection(cmds) == |cmds| <==> LastSection(cmds) == 0
    ensures LastSection(cmds) == 0 <==> ProfilesOf(g, cmds) == []
  {
  }

  lemma MeaningWithoutSections(cmds: seq<Command>)
    requires FirstSection(cmds) == |cmds|
    ensures Meaning(cmds) == Conf(GlobalsOf(cmds), [])
  {
    hide GlobalsOf;
    assert cmds[..|cmds|] == cmds;
    NoSections(GlobalsOf(cmds), cmds);
  }

  lemma GlobalStep(cmds: seq<Command>, x: Command)
    requires FirstSection(cmds) == |cmds| && !x.Section? && Execute(Meaning(cmds), x).Ok?
    ensures Execute(Meaning(cmds), x) == Ok(Meaning(cmds + [x]))
  {
    hide SetVariable, SetProfileVariable, GlobalsOf, Meaning, FirstSection;
    SectionsSnoc(cmds, x);
    MeaningWithoutSections(cmds);
    MeaningWithoutSections(cmds + [x]);
    GlobalsSnoc(cmds, x);
  }

  lemma SectionStep(cmds: seq<Command>, name: string)
    ensures Execute(Meaning(cmds), Section(name)) == Ok(Meaning(cmds + [Section(name)]))
  {
    hide GlobalsOf, ProfilesOf;
    var k := FirstSection(cmds);
    SectionsSnoc(cmds, Section(name));
    assert (cmds + [Section(name)])[..k] == cmds[..k];
    NewSection(GlobalsOf(cmds[..k]), cmds, name);
  }

  /** A command in the block of the last profile. */
  lemma BlockStep(g: Globals, before: seq<Profile>, name: string, block: seq<Command>, x: Command)
    requires !x.Section? && Execute(Conf(g, before + [ProfileOf(name, g, block)]), x).Ok?
    ensures Execute(Conf(g, before + [ProfileOf(name, g, block)]), x)
            == Ok(Conf(g, before + [ProfileOf(name, g, block + [x])]))
  {
    hide SetVariable, SetProfileVariable, ProfileOf;
    var p := ProfileOf(name, g, block);
    var q := ProfileOf(name, g, block + [x]);
    assert (before + [p])[|before|] == p;
    assert (before + [p])[|before| := q] == before + [q];
    ProfileSnoc(name, g, block, x);
  }

  lemma LastBlock(g: Globals, cmds: seq<Command>)
    ensures var k := LastSection(cmds);
            k > 0 ==> ProfilesOf(g, cmds) == ProfilesOf(g, cmds[..k - 1]) + [ProfileOf(cmds[k - 1].name, g, cmds[k..])]
  {
    hide ProfileOf, LastSection;
  }

  lemma ProfileStep(cmds: seq<Command>, x: Command)
    requires FirstSection(cmds) < |cmds| && !x.Section? && Execute(Meaning(cmds), x).Ok?
    ensures Execute(Meaning(cmds), x) == Ok(Meaning(cmds + [x]))
  {
    hide Execute, GlobalsOf, ProfileOf, FirstSection, LastSection, ProfilesOf;
    LastBlock(GlobalsOf(cmds[..FirstSection(cmds)]), cmds);
    var k, m := FirstSection(cmds), LastSection(cmds);
    var g := GlobalsOf(cmds[..k]);
    NoSections(g, cmds);
    SectionsSnoc(cmds, x);
    assert (cmds + [x])[..k] == cmds[..k];
    ProfilesSnoc(g, cmds, x);
    BlockStep(g, ProfilesOf(g, cmds[..m - 1]), cmds[m - 1].name, cmds[m..], x);
  }

  /** A file that is not fatal leaves exactly what its sections mean. */
  lemma {:induction false} RunIsMeaning(cmds: seq<Command>)
    requires Run(INITIAL, cmds).Ok?
    ensures Run(INITIAL, cmds).value == Meaning(cmds)
  {
    hide Execute, GlobalsOf, ProfilesOf;
    if cmds == [] {
      NothingMeansInitial();
    } else {
      var n := |cmds| - 1;
      var before, x := cmds[..n], cmds[n];
      RunIsMeaning(before);
      assert cmds == before + [x];
      if x.Section? {
        SectionStep(before, x.name);
      } else if FirstSection(before) == n {
        GlobalStep(before, x);
      } else {
        ProfileStep(before, x);
      }
    }
  }

  // ---- when a file is not fatal ----

  ghost predicate Sectioned(cmds: seq<Command>) {
    exists i :: 0 <= i < |cmds| && cmds[i].Section?
  }

  /** gpg_key_id, gpg_path and password_file. */
  predicate OnceOnly(x: Variable) {
    x == GpgKeyId || x == GpgPath || x == PasswordFile
  }

  predicate OfProfile(x: Variable) {
    x == CharacterCount || x == CharacterSet || x == PasswordCount
  }

  /** The command is in order behind the others: a known variable, with a value, in its place, and not again. */
  ghost predicate Acceptable(before: seq<Command>, c: Command) {
    match c
    case Nothing => true
    case Bad => false
    case Section(_) => true
    case Set(name, v) =>
      && VariableOf(name).Some?
      && var x := VariableOf(name).value;
         && (x == Backup || !NoValue(v))
         && (if Sectioned(before) then OfProfile(x)
             else OnceOnly(x) ==> forall i :: 0 <= i < |before| ==> !Sets(before[i], x))
  }

  ghost predicate AllAcceptable(cmds: seq<Command>) {
    forall k :: 0 <= k < |cmds| ==> Acceptable(cmds[..k], cmds[k])
  }

  lemma SetBefore(cmds: seq<Command>, x: Variable)
    requires AllAcceptable(cmds) && OnceOnly(x)
    ensures AlreadySet(GlobalsOf(cmds), x) <==> exists i :: 0 <= i < |cmds| && Sets(cmds[i], x)
  {
    hide VariableOf, LastSetEnd, Acceptable;
    var k := LastSetEnd(cmds, x);
    AlreadyIff(cmds, x);
    if k > 0 {
      assert Acceptable(cmds[..k - 1], cmds[k - 1]);
      HasValue(cmds[..k - 1], cmds[k - 1], x);
    }
  }

  lemma AlreadyIff(cmds: seq<Command>, x: Variable)
    requires OnceOnly(x)
    ensures AlreadySet(GlobalsOf(cmds), x) <==> TextOr(LastSet(cmds, x), None).Some?
  {
    hide LastSet, ParseUInt, ResolveCharacterSet, ParseBoolean;
  }

  lemma HasValue(before: seq<Command>, c: Command, x: Variable)
    requires Acceptable(before, c) && Sets(c, x) && x != Backup
    ensures c.v.Some?
  {
    hide VariableOf;
  }

  lemma SectionedIff(cmds: seq<Command>)
    ensures Sectioned(cmds) <==> FirstSection(cmds) < |cmds|
    ensures Sectioned(cmds) <==> Meaning(cmds).profiles != []
  {
    hide GlobalsOf, ProfilesOf;
    NoSections(GlobalsOf(cmds[..FirstSection(cmds)]), cmds);
  }

  lemma AcceptableGlobal(before: seq<Command>, name: string, v: Option<string>)
    requires AllAcceptable(before) && !Sectioned(before)
    ensures SetVariable(GlobalsOf(before), name, v).Ok? <==> Acceptable(before, Set(name, v))
  {
    hide VariableOf, GlobalsOf, Assign, Sets;
    var x := VariableOf(name);
    if x.Some? && OnceOnly(x.value) {
      SetBefore(before, x.value);
    }
  }

  lemma AcceptableInProfile(before: seq<Command>, p: Profile, name: string, v: Option<string>)
    requires Sectioned(before)
    ensures SetProfileVariable(p, name, v).Ok? <==> Acceptable(before, Set(name, v))
  {
    hide VariableOf, ParseUInt, ResolveCharacterSet, Sets;
  }

  lemma AcceptableStep(before: seq<Command>, c: Command)
    requires AllAcceptable(before)
    ensures Execute(Meaning(before), c).Ok? <==> Acceptable(before, c)
  {
    hide SetVariable, SetProfileVariable, GlobalsOf, Meaning, AllAcceptable, Sectioned, FirstSection;
    SectionedIff(before);
    if c.Set? {
      if Sectioned(before) {
        var ps := Meaning(before).profiles;
        AcceptableInProfile(before, ps[|ps| - 1], c.name, c.v);
      } else {
        MeaningWithoutSections(before);
        AcceptableGlobal(before, c.name, c.v);
      }
    }
  }

  /** A file is read to its end exactly if every line is acceptable behind the ones before it. */
  lemma {:induction false} AcceptedIff(cmds: seq<Command>)
    ensures Run(INITIAL, cmds).Ok? <==> AllAcceptable(cmds)
  {
    hide Execute, Meaning, Acceptable;
    if cmds != [] {
      var n := |cmds| - 1;
      AcceptedIff(cmds[..n]);
      AcceptableSplit(cmds);
      if Run(INITIAL, cmds[..n]).Ok? {
        RunIsMeaning(cmds[..n]);
        AcceptableStep(cmds[..n], cmds[n]);
      }
    }
  }

  lemma AcceptableSplit(cmds: seq<Command>)
    requires cmds != []
    ensures var n := |cmds| - 1;
            AllAcceptable(cmds) <==> AllAcceptable(cmds[..n]) && Acceptable(cmds[..n], cmds[n])
  {
    hide Acceptable;
    var n := |cmds| - 1;
    assert forall k :: 0 <= k < n ==> cmds[..n][..k] == cmds[..k] && cmds[..n][k] == cmds[k];
  }

  lemma NothingMeansInitial()
    ensures Meaning([]) == INITIAL
  {
  }

  /** Looking up finds the first profile registered under the name. */
  lemma {:induction false} LookupIsFirst(profiles: seq<Profile>, name: string)
    ensures Lookup(profiles, name) == None <==> forall i :: 0 <= i < |profiles| ==> profiles[i].name != name
    ensures forall i :: 0 <= i < |profiles| && profiles[i].name == name
                        && (forall k :: 0 <= k < i ==> profiles[k].name != name)
              ==> Lookup(profiles, name) == Some(profiles[i])
  {
    if profiles != [] {
      LookupIsFirst(profiles[1..], name);
      assert forall k :: 1 <= k < |profiles| ==> profiles[1..][k - 1] == profiles[k];
    }
  }
}
