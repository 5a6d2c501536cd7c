/** What loading and dumping a password file mean, for any single-byte character set. */
module Entries {
  import opened Stdio
  import opened CString

  /**
   * The characters the program looks for and the size of its line buffer. In a single-byte
   * locale a wide character is its byte, so mbstowcs and wcstombs change nothing.
   */
  datatype Format<!T> = Format(nul: T, newline: T, isSpace: T -> bool, size: nat)
  {
    /** The terminator is no space, the newline is one, and a buffer holds a character. */
    ghost predicate Valid() {
      nul != newline && !isSpace(nul) && isSpace(newline) && size > 1
    }
  }

  /** The entry a chunk turns into: cut at the first NUL, without trailing spaces. */
  function Entry<T(==)>(fm: Format<T>, chunk: seq<T>): seq<T> {
    Stripped(Text(chunk, fm.nul), fm.isSpace)
  }

  function EntriesOf<T(==)>(fm: Format<T>, chunks: seq<seq<T>>): (es: seq<seq<T>>)
    ensures |es| == |chunks|
    ensures forall i :: 0 <= i < |chunks| ==> es[i] == Entry(fm, chunks[i])
  {
    seq(|chunks|, i requires 0 <= i < |chunks| => Entry(fm, chunks[i]))
  }

  /** The entries of a file. */
  function Load<T(==)>(fm: Format<T>, f: seq<T>): seq<seq<T>>
    requires fm.size > 1
  {
    EntriesOf(fm, Chunks(f, fm.newline, fm.size))
  }

  function TextsOf<T(==)>(fm: Format<T>, chunks: seq<seq<T>>): (ts: seq<seq<T>>)
    ensures |ts| == |chunks|
  {
    seq(|chunks|, i requires 0 <= i < |chunks| => Text(chunks[i], fm.nul))
  }

  /** What the checksum is taken over: each chunk up to its first NUL. */
  function Hashed<T(==)>(fm: Format<T>, f: seq<T>): seq<T>
    requires fm.size > 1
  {
    Concat(TextsOf(fm, Chunks(f, fm.newline, fm.size)))
  }

  /** What edit_results writes to the temporary file. */
  function Dump<T>(fm: Format<T>, es: seq<seq<T>>): seq<T> {
    if es == [] then [] else es[0] + [fm.newline] + Dump(fm, es[1..])
  }

  // ---- the loading loop ----

  /** Where the loop stands: these chunks are hashed and turned into entries, the rest is unread. */
  ghost predicate Loading<T>(fm: Format<T>, f: seq<T>, chunks: seq<seq<T>>, rest: seq<T>, es: seq<seq<T>>, fed: seq<T>)
    requires fm.size > 1
  {
    && chunks + Chunks(rest, fm.newline, fm.size) == Chunks(f, fm.newline, fm.size)
    && es == EntriesOf(fm, chunks)
    && fed == Concat(TextsOf(fm, chunks))
    && |fed| + |rest| <= |f|
  }

  lemma {:induction false} ConcatSnoc<T>(parts: seq<seq<T>>, p: seq<T>)
    ensures Concat(parts + [p]) == Concat(parts) + p
  {
    if parts == [] {
      assert Concat([p]) == p + Concat([p][1..]);
    } else {
      ConcatSnoc(parts[1..], p);
      assert (parts + [p])[1..] == parts[1..] + [p];
    }
  }

  lemma LoadStart<T>(fm: Format<T>, f: seq<T>)
    requires fm.size > 1
    ensures Loading(fm, f, [], f, [], [])
  {
  }

  lemma EntriesSnoc<T>(fm: Format<T>, chunks: seq<seq<T>>, c: seq<T>)
    ensures EntriesOf(fm, chunks + [c]) == EntriesOf(fm, chunks) + [Entry(fm, c)]
    ensures TextsOf(fm, chunks + [c]) == TextsOf(fm, chunks) + [Text(c, fm.nul)]
  {
  }

  lemma EntriesCons<T>(fm: Format<T>, c: seq<T>, chunks: seq<seq<T>>)
    ensures EntriesOf(fm, [c] + chunks) == [Entry(fm, c)] + EntriesOf(fm, chunks)
  {
  }

  lemma HashedSnoc<T>(fm: Format<T>, chunks: seq<seq<T>>, c: seq<T>)
    ensures Concat(TextsOf(fm, chunks + [c])) == Concat(TextsOf(fm, chunks)) + Text(c, fm.nul)
  {
    EntriesSnoc(fm, chunks, c);
    ConcatSnoc(TextsOf(fm, chunks), Text(c, fm.nul));
  }

  lemma ChunksMove<T>(chunks: seq<seq<T>>, rest: seq<T>, newline: T, size: nat, n: nat)
    requires size > 1 && rest != [] && n == ChunkSize(rest, newline, size - 1)
    ensures chunks + [rest[..n]] + Chunks(rest[n..], newline, size) == chunks + Chunks(rest, newline, size)
  {
    ChunksCons(rest, newline, size, n);
  }

  lemma LoadStep<T>(fm: Format<T>, f: seq<T>, chunks: seq<seq<T>>, rest: seq<T>, es: seq<seq<T>>, fed: seq<T>, n: nat)
    requires fm.size > 1 && Loading(fm, f, chunks, rest, es, fed)
    requires rest != [] && n == ChunkSize(rest, fm.newline, fm.size - 1)
    ensures Loading(fm, f, chunks + [rest[..n]], rest[n..], es + [Entry(fm, rest[..n])], fed + Text(rest[..n], fm.nul))
  {
    EntriesSnoc(fm, chunks, rest[..n]);
    HashedSnoc(fm, chunks, rest[..n]);
    ChunksMove(chunks, rest, fm.newline, fm.size, n);
  }

  lemma LoadDone<T>(fm: Format<T>, f: seq<T>, chunks: seq<seq<T>>, es: seq<seq<T>>, fed: seq<T>)
    requires fm.size > 1 && Loading(fm, f, chunks, [], es, fed)
    ensures es == Load(fm, f) && fed == Hashed(fm, f)
  {
    assert chunks + [] == chunks;
  }

  // ---- what the two directions do to each other ----

  /** Without NUL the checksum is taken over the whole file. */
  lemma HashedWhole<T>(fm: Format<T>, f: seq<T>)
    requires fm.size > 1 && fm.nul !in f
    ensures Hashed(fm, f) == f
  {
    ChunksCover(f, fm.newline, fm.size);
    NulFree(fm, Chunks(f, fm.newline, fm.size));
  }

  lemma {:induction false} ConcatTextsNulFree<T>(fm: Format<T>, chunks: seq<seq<T>>)
    ensures fm.nul !in Concat(TextsOf(fm, chunks))
  {
    if chunks != [] {
      ConcatTextsNulFree(fm, chunks[1..]);
      assert TextsOf(fm, chunks)[1..] == TextsOf(fm, chunks[1..]);
    }
  }

  /** And only without NUL: what stands between a NUL and the end of its line is not part of the checksum. */
  lemma HashedWholeIff<T>(fm: Format<T>, f: seq<T>)
    requires fm.size > 1
    ensures Hashed(fm, f) == f <==> fm.nul !in f
    ensures Hashed(fm, Hashed(fm, f)) == Hashed(fm, f)
  {
    hide Chunks;
    ConcatTextsNulFree(fm, Chunks(f, fm.newline, fm.size));
    HashedWhole(fm, Hashed(fm, f));
    if fm.nul !in f {
      HashedWhole(fm, f);
    }
  }

  lemma {:induction false} NulFree<T>(fm: Format<T>, chunks: seq<seq<T>>)
    requires fm.nul !in Concat(chunks)
    ensures TextsOf(fm, chunks) == chunks
  {
    if chunks != [] {
      assert forall c :: c in chunks[0] ==> c in Concat(chunks);
      assert forall c :: c in Concat(chunks[1..]) ==> c in Concat(chunks);
      NulFree(fm, chunks[1..]);
      TextIs(chunks[0], fm.nul, chunks[0]);
      forall i | 0 <= i < |chunks| ensures TextsOf(fm, chunks)[i] == chunks[i] {
        if i > 0 {
          assert TextsOf(fm, chunks[1..])[i - 1] == chunks[1..][i - 1];
        }
      }
    }
  }

  /** What an entry looks like: no NUL, no newline, no trailing space. */
  ghost predicate IsEntry<T>(fm: Format<T>, e: seq<T>) {
    fm.nul !in e && fm.newline !in e && (e != [] ==> !fm.isSpace(e[|e| - 1]))
  }

  lemma EntryOfChunk<T>(fm: Format<T>, c: seq<T>)
    requires fm.Valid() && IsChunk(c, fm.newline, fm.size)
    ensures IsEntry(fm, Entry(fm, c)) && |Entry(fm, c)| < fm.size
  {
    var e := Entry(fm, c);
    assert e <= Text(c, fm.nul) <= c;
    assert forall k :: 0 <= k < |e| ==> e[k] == c[k];
  }

  lemma LoadedAreEntries<T>(fm: Format<T>, f: seq<T>)
    requires fm.Valid()
    ensures forall e :: e in Load(fm, f) ==> IsEntry(fm, e) && |e| < fm.size
  {
    var chunks := Chunks(f, fm.newline, fm.size);
    ChunksAreChunks(f, fm.newline, fm.size);
    forall i | 0 <= i < |chunks|
      ensures IsEntry(fm, Load(fm, f)[i]) && |Load(fm, f)[i]| < fm.size
    {
      assert chunks[i] in chunks;
      EntryOfChunk(fm, chunks[i]);
    }
  }

  /** How many chunks the dumped line of an entry is read back in. */
  function Pieces<T>(es: seq<seq<T>>, size: nat): nat {
    if es == [] then 0 else (if |es[0]| + 1 < size then 1 else 2) + Pieces(es[1..], size)
  }

  lemma EntryOfLine<T>(fm: Format<T>, e: seq<T>)
    requires fm.Valid() && IsEntry(fm, e)
    ensures Entry(fm, e + [fm.newline]) == e
  {
    var c := e + [fm.newline];
    TextIs(c, fm.nul, c);
    StrippedUnique(c, fm.isSpace, e);
  }

  lemma {:induction false} DumpPieces<T>(fm: Format<T>, es: seq<seq<T>>)
    requires fm.Valid()
    requires forall e :: e in es ==> IsEntry(fm, e) && |e| < fm.size
    ensures |Load(fm, Dump(fm, es))| == Pieces(es, fm.size)
  {
    if es != [] {
      DumpPieces(fm, es[1..]);
      DumpedLine(fm, es[0], Dump(fm, es[1..]));
    }
  }

  lemma {:induction false} DumpFits<T>(fm: Format<T>, es: seq<seq<T>>)
    requires fm.Valid()
    requires forall e :: e in es ==> IsEntry(fm, e) && |e| + 1 < fm.size
    ensures Load(fm, Dump(fm, es)) == es
  {
    if es != [] {
      DumpFits(fm, es[1..]);
      DumpedLine(fm, es[0], Dump(fm, es[1..]));
    }
  }

  lemma DumpedLine<T>(fm: Format<T>, e: seq<T>, rest: seq<T>)
    requires fm.Valid() && IsEntry(fm, e) && |e| < fm.size
    ensures |e| + 1 < fm.size ==> Load(fm, e + [fm.newline] + rest) == [e] + Load(fm, rest)
    ensures |e| + 1 == fm.size ==> |Load(fm, e + [fm.newline] + rest)| == 2 + |Load(fm, rest)|
  {
    if |e| + 1 < fm.size {
      LineIsChunk(e, rest, fm.newline, fm.size);
      EntryOfLine(fm, e);
      EntriesCons(fm, e + [fm.newline], Chunks(rest, fm.newline, fm.size));
    } else {
      FullLineIsSplit(e, rest, fm.newline, fm.size);
    }
  }

  lemma {:induction false} PiecesAtLeast<T>(es: seq<seq<T>>, size: nat)
    ensures Pieces(es, size) >= |es|
    ensures Pieces(es, size) == |es| <==> forall e :: e in es ==> |e| + 1 < size
  {
    if es != [] {
      PiecesAtLeast(es[1..], size);
      assert es == [es[0]] + es[1..];
    }
  }

  /** Loading what was dumped gives the entries back exactly when every line and its newline fit the buffer. */
  lemma RoundTripIff<T>(fm: Format<T>, es: seq<seq<T>>)
    requires fm.Valid()
    requires forall e :: e in es ==> IsEntry(fm, e) && |e| < fm.size
    ensures Load(fm, Dump(fm, es)) == es <==> forall e :: e in es ==> |e| + 1 < fm.size
  {
    DumpPieces(fm, es);
    PiecesAtLeast(es, fm.size);
    if forall e :: e in es ==> |e| + 1 < fm.size {
      DumpFits(fm, es);
    }
  }

  /** A file the program can read: one line that fills the buffer is one entry, but comes back from its dump in two. */
  lemma FullEntrySplits<T>(fm: Format<T>, e: seq<T>)
    requires fm.Valid() && IsEntry(fm, e) && |e| + 1 == fm.size
    ensures Load(fm, e) == [e]
    ensures Load(fm, Dump(fm, Load(fm, e))) != Load(fm, e)
  {
    FullSize(e, [], fm.newline, |e|);
    assert e + [] == e && e[|e|..] == [];
    ChunksCons(e, fm.newline, fm.size, |e|);
    TextIs(e, fm.nul, e);
    StrippedUnique(e, fm.isSpace, e);
    RoundTripIff(fm, [e]);
  }

  /** The line c is ended by a newline, has no NUL and no space before the newline. */
  ghost predicate IsLine<T>(fm: Format<T>, c: seq<T>) {
    c != [] && c[|c| - 1] == fm.newline && IsEntry(fm, c[..|c| - 1])
  }

  ghost predicate Canonical<T>(fm: Format<T>, f: seq<T>)
    requires fm.size > 1
  {
    forall c :: c in Chunks(f, fm.newline, fm.size) ==> IsLine(fm, c)
  }

  /** A canonical file is dumped back unchanged, byte for byte. */
  lemma {:induction false} CanonicalDump<T>(fm: Format<T>, f: seq<T>)
    requires fm.Valid() && Canonical(fm, f)
    ensures Dump(fm, Load(fm, f)) == f
    decreases |f|
  {
    hide IsLine, ChunkSize, Dump, Canonical, EntriesOf;
    if f == [] {
      NothingDumped(fm);
    } else {
      var n := ChunkSize(f, fm.newline, fm.size - 1);
      CanonicalFirst(fm, f, n);
      CanonicalDump(fm, f[n..]);
      ChunksCons(f, fm.newline, fm.size, n);
      FirstLine(fm, f[..n], f[n..]);
      assert f == f[..n] + f[n..];
    }
  }

  lemma NothingDumped<T>(fm: Format<T>)
    requires fm.size > 1
    ensures Dump(fm, Load(fm, [])) == []
  {
  }

  lemma CanonicalFirst<T>(fm: Format<T>, f: seq<T>, n: nat)
    requires fm.size > 1 && f != [] && Canonical(fm, f) && n == ChunkSize(f, fm.newline, fm.size - 1)
    ensures IsLine(fm, f[..n]) && Canonical(fm, f[n..])
  {
    hide IsLine, Chunks;
    ChunksCons(f, fm.newline, fm.size, n);
  }

  lemma FirstLine<T>(fm: Format<T>, c: seq<T>, rest: seq<T>)
    requires fm.Valid() && IsLine(fm, c)
    ensures Dump(fm, EntriesOf(fm, [c] + Chunks(rest, fm.newline, fm.size))) == c + Dump(fm, Load(fm, rest))
  {
    var e := c[..|c| - 1];
    assert c == e + [fm.newline];
    EntryOfLine(fm, e);
    EntriesCons(fm, c, Chunks(rest, fm.newline, fm.size));
    assert ([e] + Load(fm, rest))[1..] == Load(fm, rest);
  }

  lemma {:induction false} CanonicalNulFree<T>(fm: Format<T>, f: seq<T>)
    requires fm.Valid() && Canonical(fm, f)
    ensures fm.nul !in f
    decreases |f|
  {
    hide IsLine, Chunks, ChunkSize;
    if f != [] {
      var n := ChunkSize(f, fm.newline, fm.size - 1);
      CanonicalFirst(fm, f, n);
      CanonicalNulFree(fm, f[n..]);
      LineNulFree(fm, f[..n]);
      assert f == f[..n] + f[n..];
    }
  }

  lemma LineNulFree<T>(fm: Format<T>, c: seq<T>)
    requires fm.Valid() && IsLine(fm, c)
    ensures fm.nul !in c
  {
    assert c == c[..|c| - 1] + [fm.newline];
  }

  /** Only a canonical file is dumped back unchanged. */
  lemma {:induction false} DumpIsCanonical<T>(fm: Format<T>, es: seq<seq<T>>)
    requires fm.Valid()
    requires forall e :: e in es ==> IsEntry(fm, e) && |e| + 1 < fm.size
    ensures Canonical(fm, Dump(fm, es))
  {
    if es != [] {
      var e, rest := es[0], Dump(fm, es[1..]);
      DumpIsCanonical(fm, es[1..]);
      LineIsChunk(e, rest, fm.newline, fm.size);
      assert (e + [fm.newline])[..|e|] == e;
      assert IsLine(fm, e + [fm.newline]);
    }
  }

  /** Loading and dumping reproduces a file exactly when it is canonical. */
  lemma DumpLoadIff<T>(fm: Format<T>, f: seq<T>)
    requires fm.Valid()
    ensures Dump(fm, Load(fm, f)) == f <==> Canonical(fm, f)
  {
    LoadedAreEntries(fm, f);
    if Canonical(fm, f) {
      CanonicalDump(fm, f);
    }
    if Dump(fm, Load(fm, f)) == f {
      RoundTripIff(fm, Load(fm, f));
      DumpIsCanonical(fm, Load(fm, f));
    }
  }
}
