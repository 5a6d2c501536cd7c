/** The password entries in memory: loading, filtering, dumping and change detection (results.c, editor.c). */
module Results {
  import opened Wrappers
  import opened Stdio
  import opened CString
  import opened Search
  import opened Entries
  import opened Gf2
  import C = Crc
  import W = Words

  type Line = C.Bytes

  /** The program's constants: WCS_WHITESPACE is space, tab, carriage return and newline; MAX_LINE_SIZE is 16 KiB. */
  const ASCII: Format<bv8> := Format(NUL, 10, (b: bv8) => b == 32 || b == 9 || b == 13 || b == 10, 16384)

  const NUL: bv8 := 0

  /** The first character of a commented line. */
  const HASH: bv8 := 35

  /** KEYWORD_LENGTH, terminator included. */
  const KEYWORD_LENGTH: nat := 50

  class Result {
    var visible: bool
    const value: Line

    constructor (value: Line)
      ensures this.value == value && visible
    {
      this.value, visible := value, true;
    }
  }

  function Values(rs: seq<Result>): (vs: seq<Line>)
    ensures |vs| == |rs| && forall i :: 0 <= i < |rs| ==> vs[i] == rs[i].value
  {
    seq(|rs|, i requires 0 <= i < |rs| => rs[i].value)
  }

  lemma ValuesSnoc(rs: seq<Result>, r: Result)
    ensures Values(rs + [r]) == Values(rs) + [r.value]
  {
  }

  function Content(fp: Option<C.Bytes>): C.Bytes {
    if fp.Some? then fp.value else []
  }

  /** One line of the loading loop: convert, strip in place, instantiate. */
  method LoadLine(fm: Format<bv8>, chunk: Line, wline: array<bv8>) returns (r: Result)
    requires |chunk| < fm.size == wline.Length
    modifies wline
    ensures fresh(r) && r.visible && r.value == Entry(fm, chunk)
  {
    var text := Text(chunk, fm.nul);
    forall i | 0 <= i < |text| {
      wline[i] := text[i];
    }
    wline[|text|] := fm.nul;
    TextIs(wline[..], fm.nul, text);
    StripTrailing(wline, fm.nul, fm.isSpace);
    r := new Result(Text(wline[..], fm.nul));
  }

  /** The globals of results.c. */
  class Store {
    const fm: Format<bv8>
    var results: seq<Result>
    var resultCrc32: bv32

    constructor (fm: Format<bv8>)
      ensures this.fm == fm && results == [] && resultCrc32 == 0
    {
      this.fm, results, resultCrc32 := fm, [], 0;
    }

    /** One turn of the loading loop. */
    method LoadChunk(chunk: Line, ctx: C.Context, wline: array<bv8>) returns (r: Result)
      requires ctx.Valid() && |ctx.fed| + |chunk| <= C.OFF_MAX
      requires |chunk| < fm.size == wline.Length
      modifies this`results, ctx, wline
      ensures ctx.Valid() && ctx.fed == old(ctx.fed) + Text(chunk, fm.nul)
      ensures results == old(results) + [r]
      ensures fresh(r) && r.visible && r.value == Entry(fm, chunk)
    {
      ctx.Update(Text(chunk, fm.nul));
      r := LoadLine(fm, chunk, wline);
      results := results + [r];
    }

    /** The loading loop over the whole stream. */
    method LoadLines(f: C.Bytes, ctx: C.Context)
      requires fm.Valid() && |f| <= C.OFF_MAX
      requires ctx.Valid() && ctx.fed == []
      modifies this`results, ctx
      ensures ctx.Valid() && ctx.fed == Hashed(fm, f)
      ensures old(results) <= results
      ensures forall r :: r in results[|old(results)|..] ==> fresh(r) && r.visible
      ensures Values(results[|old(results)|..]) == Load(fm, f)
    {
      hide Chunks, ChunkSize, EntriesOf, TextsOf, Concat, Load, Hashed, Entry, Text;
      var rest := f;
      var wline := new bv8[fm.size];
      ghost var chunks, values, loaded: seq<Result> := [], [], [];
      LoadStart(fm, rest);
      while rest != []
        invariant ctx.Valid()
        invariant Loading(fm, f, chunks, rest, values, ctx.fed)
        invariant values == Values(loaded)
        invariant results == old(results) + loaded
        invariant forall r :: r in loaded ==> fresh(r) && r.visible
        decreases |rest|
      {
        var n := ChunkSize(rest, fm.newline, fm.size - 1);
        var chunk := rest[..n];
        LoadStep(fm, f, chunks, rest, values, ctx.fed, n);
        var r := LoadChunk(chunk, ctx, wline);
        ValuesSnoc(loaded, r);
        assert old(results) + loaded + [r] == old(results) + (loaded + [r]);
        chunks, values, loaded := chunks + [chunk], values + [r.value], loaded + [r];
        rest := rest[n..];
      }
      LoadDone(fm, f, chunks, values, ctx.fed);
    }

    /** load_results_fp: append the entries of the stream; None is the NULL stream. */
    method LoadResultsFp(fp: Option<C.Bytes>) returns (count: nat)
      requires fm.Valid() && |Content(fp)| <= C.OFF_MAX
      modifies this
      ensures count == |results|
      ensures old(results) <= results
      ensures forall r :: r in results[|old(results)|..] ==> fresh(r) && r.visible
      ensures Values(results[|old(results)|..]) == Load(fm, Content(fp))
      ensures W.WordBits(resultCrc32) == C.Cksum(Hashed(fm, Content(fp)))
    {
      var ctx := new C.Context();
      LoadLines(Content(fp), ctx);
      ctx.Final();
      resultCrc32 := ctx.crc;
      count := |results|;
    }

    ghost predicate Printable()
      reads this
    {
      forall r :: r in results ==> fm.nul !in r.value
    }

    /** filter_results: the keywords alone decide what is visible. */
    method FilterResults(keywords: seq<Line>, lower: bv8 -> bv8)
      requires fm.nul == NUL && Printable()
      requires forall kw :: kw in keywords ==> fm.nul !in kw && |kw| < KEYWORD_LENGTH
      modifies results
      ensures forall r :: r in results ==> (r.visible <==> Matches(r.value, keywords, lower))
    {
      for i := 0 to |results|
        invariant forall k :: 0 <= k < i ==> (results[k].visible <==> Matches(results[k].value, keywords, lower))
      {
        var m := LineMatches(results[i].value, keywords, lower);
        results[i].visible := m;
      }
    }

    /** has_changed: load the edited file and compare the two checksums. */
    method HasChanged(edited: C.Bytes) returns (changed: bool)
      requires fm.Valid() && |edited| <= C.OFF_MAX
      modifies this
      ensures changed <==> C.Cksum(Hashed(fm, edited)) != W.WordBits(old(resultCrc32))
      ensures W.WordBits(resultCrc32) == C.Cksum(Hashed(fm, edited))
      ensures old(results) <= results && Values(results) == Values(old(results)) + Load(fm, edited)
    {
      var previous := resultCrc32;
      var n := LoadResultsFp(Some(edited));
      if previous != resultCrc32 && W.WordBits(previous) == W.WordBits(resultCrc32) {
        W.WordInjective(previous, resultCrc32);
      }
      changed := previous != resultCrc32;
      SplitValues(old(results), results);
    }

    /** edit_results: dump, edit, and tell whether the file has to be encrypted again. */
    method EditResults(edit: C.Bytes -> Option<C.Bytes>) returns (outcome: Outcome)
      requires fm.Valid()
      requires forall f :: edit(f).Some? ==> |edit(f).value| <= C.OFF_MAX
      modifies this
      ensures var edited := edit(Dump(fm, Values(old(results))));
              if edited.None? then outcome == EditorFailed
              else if C.Cksum(Hashed(fm, edited.value)) != W.WordBits(old(resultCrc32))
              then outcome == Encrypt(edited.value)
              else outcome == NoChanges
    {
      var tmp := [];
      for i := 0 to |results|
        invariant results == old(results) && resultCrc32 == old(resultCrc32)
        invariant i <= |Values(results)| && tmp == Dump(fm, Values(results)[..i])
      {
        DumpSnoc(fm, Values(results), i);
        tmp := tmp + results[i].value + [fm.newline];
      }
      assert Values(results)[..|results|] == Values(results);
      var edited := edit(tmp);
      if edited.None? {
        return EditorFailed;
      }
      var changed := HasChanged(edited.value);
      outcome := if changed then Encrypt(edited.value) else NoChanges;
    }
  }

  datatype Outcome = EditorFailed | NoChanges | Encrypt(file: C.Bytes)

  lemma SplitValues(before: seq<Result>, after: seq<Result>)
    requires before <= after
    ensures Values(after) == Values(before) + Values(after[|before|..])
  {
  }

  lemma {:induction false} DumpSnoc(fm: Format<bv8>, es: seq<Line>, i: nat)
    requires i < |es|
    ensures Dump(fm, es[..i + 1]) == Dump(fm, es[..i]) + es[i] + [fm.newline]
  {
    if i == 0 {
      assert es[..1] == [es[0]];
    } else {
      DumpSnoc(fm, es[1..], i - 1);
      assert es[..i + 1][1..] == es[1..][..i] && es[..i][1..] == es[1..][..i - 1];
    }
  }

  // ---- searching ----

  /** Not commented out, and every keyword occurs somewhere in the line, in any case. */
  ghost predicate Matches(line: Line, keywords: seq<Line>, lower: bv8 -> bv8) {
    && (line != [] ==> line[0] != HASH)
    && forall kw :: kw in keywords ==> Occurs(line, kw, lower)
  }

  ghost predicate Occurs(line: Line, kw: Line, lower: bv8 -> bv8) {
    exists p :: 0 <= p <= |line| && MatchAt(line, kw, p, lower)
  }

  function Code(b: bv8): int {
    b as int
  }

  lemma ByteCodes()
    ensures Codes(NUL, Code)
  {
    forall x, y | Code(x) == Code(y) ensures x == y {
      assert x == (Code(x) as bv8) && y == (Code(y) as bv8);
    }
  }

  /** line_matches with plain keywords. */
  method LineMatches(line: Line, keywords: seq<Line>, lower: bv8 -> bv8) returns (matches: bool)
    requires NUL !in line && forall kw :: kw in keywords ==> NUL !in kw && |kw| < KEYWORD_LENGTH
    ensures matches <==> Matches(line, keywords, lower)
  {
    if line != [] && line[0] == HASH {
      return false;
    }
    ByteCodes();
    for i := 0 to |keywords|
      invariant forall k :: 0 <= k < i ==> Occurs(line, keywords[k], lower)
    {
      var hit := Wcscasestr(line, keywords[i], NUL, lower, Code);
      if hit.None? {
        assert !Occurs(line, keywords[i], lower);
        return false;
      }
      assert Occurs(line, keywords[i], lower);
    }
    return true;
  }

  /** The order and repetition of keywords do not matter. */
  lemma KeywordOrder(line: Line, a: seq<Line>, b: seq<Line>, lower: bv8 -> bv8)
    requires forall kw :: kw in a <==> kw in b
    ensures Matches(line, a, lower) <==> Matches(line, b, lower)
  {
  }

  /** A commented line is never shown, and every other line is shown if nothing is asked for. */
  lemma CommentsHidden(line: Line, keywords: seq<Line>, lower: bv8 -> bv8)
    ensures line != [] && line[0] == 35 ==> !Matches(line, keywords, lower)
    ensures line == [] || line[0] != 35 ==> Matches(line, [], lower)
  {
  }

  /** One keyword: the line is three pieces, and the one in the middle is the keyword but for case. */
  lemma KeywordIff(line: Line, kw: Line, lower: bv8 -> bv8)
    requires line != [] ==> line[0] != 35
    ensures Matches(line, [kw], lower)
            <==> exists x: Line, y: Line, z: Line :: line == x + y + z && SameButCase(y, kw, lower)
  {
    if Matches(line, [kw], lower) {
      assert kw in [kw];
      var p :| 0 <= p <= |line| && MatchAt(line, kw, p, lower);
      var x, y, z := line[..p], line[p..p + |kw|], line[p + |kw|..];
      assert line == x + y + z;
      assert SameButCase(y, kw, lower);
    }
    if x: Line, y: Line, z: Line :| line == x + y + z && SameButCase(y, kw, lower) {
      assert forall k :: 0 <= k < |kw| ==> line[|x| + k] == y[k];
      assert MatchAt(line, kw, |x|, lower);
      assert Occurs(line, kw, lower);
    }
  }

  ghost predicate SameButCase(a: Line, b: Line, lower: bv8 -> bv8) {
    |a| == |b| && forall k :: 0 <= k < |a| ==> lower(a[k]) == lower(b[k])
  }

  /** Keywords add up: both lists together match what each of them matches. */
  lemma KeywordsNarrow(line: Line, a: seq<Line>, b: seq<Line>, lower: bv8 -> bv8)
    ensures Matches(line, a + b, lower) <==> Matches(line, a, lower) && Matches(line, b, lower)
  {
    assert forall kw :: kw in a + b <==> kw in a || kw in b;
  }

  // ---- change detection, from the file that was loaded to the file that was edited ----

  /** The edit is taken for a change of the loaded file. */
  ghost predicate Seen(fm: Format<bv8>, loaded: C.Bytes, edited: C.Bytes)
    requires fm.size > 1
  {
    C.Cksum(Hashed(fm, edited)) != C.Cksum(Hashed(fm, loaded))
  }

  /** Leaving the dump of a canonical file alone is no change. */
  lemma UntouchedUnseen(fm: Format<bv8>, f: C.Bytes)
    requires fm.Valid() && Canonical(fm, f)
    ensures !Seen(fm, f, Dump(fm, Load(fm, f)))
  {
    DumpLoadIff(fm, f);
  }

  /** Changing up to 32 consecutive bits of a file is always noticed, if neither version holds a NUL. */
  lemma BurstEditSeen(fm: Format<bv8>, f: C.Bytes, g: C.Bytes, k: nat)
    requires fm.Valid() && fm.nul !in f && fm.nul !in g
    requires |f| == |g| && f != g && AgreeOutside(C.ToBits(f), C.ToBits(g), k, 32)
    ensures Seen(fm, f, g)
  {
    HashedWhole(fm, f);
    HashedWhole(fm, g);
    C.BurstDetected(f, g, k);
  }

  /** So is changing up to four consecutive bytes. */
  lemma FourByteEditSeen(fm: Format<bv8>, f: C.Bytes, g: C.Bytes, p: nat)
    requires fm.Valid() && fm.nul !in f && fm.nul !in g
    requires |f| == |g| && f != g
    requires forall i :: 0 <= i < |f| && !(p <= i < p + 4) ==> f[i] == g[i]
    ensures Seen(fm, f, g)
  {
    C.BytesToBits(f, g, p, 4);
    BurstEditSeen(fm, f, g, 8 * p);
  }

  /** An edit that brings in a NUL is seen by what is left of its lines only. */
  lemma NulEditIff(fm: Format<bv8>, f: C.Bytes, g: C.Bytes)
    requires fm.Valid() && fm.nul !in f
    ensures Seen(fm, f, g) <==> C.Cksum(Hashed(fm, g)) != C.Cksum(f)
    ensures Seen(fm, f, g) <==> Seen(fm, f, Hashed(fm, g))
  {
    hide Hashed, C.Cksum;
    HashedWhole(fm, f);
    HashedWholeIff(fm, g);
  }

  /** A canonical file whose checksum is that of nothing. */
  const BLIND: C.Bytes := [97, 99, 117, 57, 110, 84, 83, 119, 117, 10]

  lemma BlindStart()
    ensures C.Word((BLIND + [10])[..6]) == 0x5d4bfbaa
  {
    hide C.Word;
    var s := BLIND + [10];
    assert s[..0] == [];
    C.EmptyWord();
    C.WordNext(s, 0, 0);
    C.WordNext(s, 1, 0xa864db20);
    C.WordNext(s, 2, 0x121a7bf8);
    C.WordNext(s, 3, 0xa8996e92);
    C.WordNext(s, 4, 0xb8b2b429);
    C.WordNext(s, 5, 0xb9a92f5b);
  }

  lemma BlindWord()
    ensures C.Word(BLIND + [10]) == 0
  {
    hide C.Word;
    var s := BLIND + [10];
    assert s[..11] == s;
    BlindStart();
    C.WordNext(s, 6, 0x5d4bfbaa);
    C.WordNext(s, 7, 0x77750a0a);
    C.WordNext(s, 8, 0x750a0a00);
    C.WordNext(s, 9, 0x0a0a0000);
    C.WordNext(s, 10, 0x0a000000);
  }

  lemma BlindChecksum()
    ensures C.Cksum(BLIND) == C.Cksum([])
  {
    hide C.Register, C.Word, W.WordBits;
    C.LengthOfTen();
    BlindWord();
    C.EmptyWord();
    C.WordIsRegister(BLIND + [10]);
    C.WordIsRegister([]);
    assert [] + C.LengthBytes(0) == [];
  }

  /** A file of one line. */
  lemma SoleLine(e: Line)
    requires 10 !in e && |e| + 1 < ASCII.size
    ensures Chunks(e + [10], 10, ASCII.size) == [e + [10]]
  {
    var rest: Line := [];
    LineIsChunk(e, rest, 10, ASCII.size);
    assert e + [10] + rest == e + [10];
  }

  lemma BlindCanonical()
    ensures Canonical(ASCII, BLIND)
  {
    hide Chunks;
    var e := BLIND[..9];
    assert BLIND == e + [10];
    SoleLine(e);
    assert IsLine(ASCII, BLIND);
  }

  lemma BlindHashed()
    ensures Hashed(ASCII, BLIND[0 := 0]) == []
  {
    hide Chunks, Text;
    var g := BLIND[0 := 0];
    var rest: Line := [];
    assert g == g[..9] + [10];
    SoleLine(g[..9]);
    TextIs(g, NUL, rest);
    assert TextsOf(ASCII, [g]) == [rest];
    assert Concat([rest]) == rest;
  }

  /** With a NUL an edit of one byte can go unseen: here nothing is left of the only line. */
  lemma NulEditUnseen()
    ensures var g := BLIND[0 := 0];
            && Canonical(ASCII, BLIND) && |g| == |BLIND| && g != BLIND
            && AgreeOutside(C.ToBits(BLIND), C.ToBits(g), 0, 8)
            && !Seen(ASCII, BLIND, g)
  {
    hide C.Cksum, C.ToBits, Hashed, Canonical;
    BlindCanonical();
    BlindHashed();
    BlindChecksum();
    AsciiIsValid();
    CanonicalNulFree(ASCII, BLIND);
    HashedWhole(ASCII, BLIND);
    C.BytesToBits(BLIND, BLIND[0 := 0], 0, 1);
  }

  /**
   * Before there is a password file the stored checksum is 0, not that of an empty file:
   * closing the editor on the empty dump counts as a change.
   */
  lemma FirstEditSeen(fm: Format<bv8>)
    requires fm.Valid()
    ensures Dump(fm, []) == [] && C.Cksum(Hashed(fm, [])) != W.WordBits(0)
  {
    W.ZeroWord();
    assert Hashed(fm, []) == [];
    assert C.Cksum([])[0];
  }

  // ---- the program's own format, from start to end ----

  /** What is proved for any format holds for the one the program uses. */
  lemma AsciiIsValid()
    ensures ASCII.Valid() && ASCII.nul == NUL
  {
  }

  /** An edit of the same length, somewhere within 32 consecutive bits. */
  ghost predicate BurstEdit(f: C.Bytes, g: C.Bytes) {
    && |f| == |g| && f != g && NUL !in g
    && exists k: nat :: AgreeOutside(C.ToBits(f), C.ToBits(g), k, 32)
  }

  /** mdp_edit: load the decrypted password file, if there is one, and edit it. */
  method MdpEdit(file: Option<C.Bytes>, edit: C.Bytes -> Option<C.Bytes>) returns (outcome: Outcome)
    requires |Content(file)| <= C.OFF_MAX
    requires forall f :: edit(f).Some? ==> |edit(f).value| <= C.OFF_MAX
    ensures var edited := edit(Dump(ASCII, Load(ASCII, Content(file))));
            if edited.None? then outcome == EditorFailed
            else if file.None? then
              outcome == if C.Cksum(Hashed(ASCII, edited.value)) == W.WordBits(0) then NoChanges
                         else Encrypt(edited.value)
            else
              outcome == if Seen(ASCII, file.value, edited.value) then Encrypt(edited.value) else NoChanges
    ensures file.Some? && Canonical(ASCII, file.value) && edit(file.value) == Some(file.value) ==> outcome == NoChanges
    ensures (file.Some? && Canonical(ASCII, file.value) && edit(file.value).Some?
             && BurstEdit(file.value, edit(file.value).value)) ==> outcome == Encrypt(edit(file.value).value)
  {
    hide Load, Dump, Hashed, Canonical, C.Cksum, W.WordBits, BurstEdit;
    AsciiIsValid();
    var store := new Store(ASCII);
    assert Values(store.results) == [] == Load(ASCII, []) by { NothingLoaded(ASCII); }
    if file.Some? {
      var count := store.LoadResultsFp(file);
      if Canonical(ASCII, file.value) {
        EditSeen(file.value, edit);
      }
    }
    outcome := store.EditResults(edit);
  }

  lemma NothingLoaded(fm: Format<bv8>)
    requires fm.size > 1
    ensures Load(fm, []) == []
  {
  }

  /** What the two kinds of edits of a canonical file come to. */
  lemma EditSeen(f: C.Bytes, edit: C.Bytes -> Option<C.Bytes>)
    requires Canonical(ASCII, f)
    ensures Dump(ASCII, Load(ASCII, f)) == f && !Seen(ASCII, f, f)
    ensures edit(f).Some? && BurstEdit(f, edit(f).value) ==> Seen(ASCII, f, edit(f).value)
  {
    hide Load, Dump, Canonical, Seen;
    DumpLoadIff(ASCII, f);
    UntouchedUnseen(ASCII, f);
    if edit(f).Some? && BurstEdit(f, edit(f).value) {
      var g := edit(f).value;
      var k: nat :| AgreeOutside(C.ToBits(f), C.ToBits(g), k, 32);
      CanonicalNulFree(ASCII, f);
      BurstEditSeen(ASCII, f, g, k);
    }
  }

  /** A line of 16383 characters is one entry of its file and two of its dump. */
  lemma LongLineIsSplit()
    ensures var e: Line := seq(16383, _ => 97);
            Load(ASCII, e) == [e] && Load(ASCII, Dump(ASCII, [e])) != [e]
  {
    hide *;
    var e: Line := seq(16383, _ => 97);
    AsciiIsValid();
    LongEntry(e);
    FullEntrySplits(ASCII, e);
  }

  lemma LongEntry(e: Line)
    requires |e| == 16383 && forall k :: 0 <= k < |e| ==> e[k] == 97
    ensures IsEntry(ASCII, e) && |e| + 1 == ASCII.size
  {
  }

  /** What is stripped from the end of a line: blanks, tabs, carriage returns, and the newline itself. */
  lemma LoadStrips(text: Line, blanks: Line)
    requires 0 !in text + blanks && 10 !in text + blanks && |text| + |blanks| + 1 < 16384
    requires text != [] ==> text[|text| - 1] !in {32, 9, 13}
    requires forall b :: b in blanks ==> b in {32, 9, 13}
    ensures Load(ASCII, text + blanks + [10]) == [text]
    ensures Load(ASCII, text + blanks) == if text + blanks == [] then [] else [text]
  {
    hide Chunks, Entry;
    var e := text + blanks;
    SoleLine(e);
    EntryStrips(text, blanks, [10]);
    if e == [] {
      NothingLoaded(ASCII);
    } else {
      LastLine(e);
      EntryStrips(text, blanks, []);
      assert text + blanks + [] == e;
    }
  }

  lemma EntryStrips(text: Line, blanks: Line, end: Line)
    requires 0 !in text + blanks && (end == [] || end == [10])
    requires text != [] ==> text[|text| - 1] !in {32, 9, 13, 10}
    requires forall b :: b in blanks ==> b in {32, 9, 13}
    ensures Entry(ASCII, text + blanks + end) == text
  {
    hide Text, Stripped;
    var c := text + blanks + end;
    TextIs(c, NUL, c);
    assert forall i :: 0 <= i < |blanks| ==> c[|text| + i] == blanks[i] && blanks[i] in blanks;
    StrippedUnique(c, ASCII.isSpace, text);
  }

  /** A last line without its newline. */
  lemma LastLine(e: Line)
    requires e != [] && 10 !in e && |e| < ASCII.size
    ensures Chunks(e, 10, ASCII.size) == [e]
  {
    WholeChunk(e, ASCII.size - 1);
    ChunksCons(e, 10, ASCII.size, |e|);
    assert e[..|e|] == e && e[|e|..] == [];
  }

  lemma {:induction false} WholeChunk(e: Line, room: nat)
    requires 10 !in e && |e| <= room
    ensures ChunkSize(e, 10, room) == |e|
  {
    if e != [] {
      WholeChunk(e[1..], room - 1);
    }
  }
}
