/** Reading a file line by line with fgets into a buffer of fixed size. */
module Stdio {

  /** Where the next fgets stops: after the first newline, or with the buffer full. */
  function ChunkSize<T(==)>(f: seq<T>, newline: T, room: nat): (n: nat)
    ensures n <= |f| && n <= room
    ensures f != [] && room > 0 ==> n > 0
    ensures n < |f| && n < room ==> n > 0 && f[n - 1] == newline
    ensures forall i :: 0 <= i < n - 1 ==> f[i] != newline
  {
    if f == [] || room == 0 then 0
    else if f[0] == newline then 1
    else 1 + ChunkSize(f[1..], newline, room - 1)
  }

  /** Everything fgets returns until the end of the file, for a buffer of this size, terminator included. */
  function Chunks<T(==)>(f: seq<T>, newline: T, size: nat): seq<seq<T>>
    requires size > 1
  {
    if f == [] then []
    else
      var n := ChunkSize(f, newline, size - 1);
      [f[..n]] + Chunks(f[n..], newline, size)
  }

  function Concat<T>(parts: seq<seq<T>>): seq<T> {
    if parts == [] then [] else parts[0] + Concat(parts[1..])
  }

  lemma {:induction false} ChunksCover<T>(f: seq<T>, newline: T, size: nat)
    requires size > 1
    ensures Concat(Chunks(f, newline, size)) == f
    decreases |f|
  {
    hide ChunkSize;
    if f != [] {
      var n := ChunkSize(f, newline, size - 1);
      ChunksCover(f[n..], newline, size);
      var rest := Chunks(f[n..], newline, size);
      assert ([f[..n]] + rest)[1..] == rest;
      assert f == f[..n] + f[n..];
    }
  }

  /** A chunk has no newline but its last character, and fits the buffer. */
  ghost predicate IsChunk<T>(c: seq<T>, newline: T, size: nat) {
    0 < |c| < size && forall i :: 0 <= i < |c| - 1 ==> c[i] != newline
  }

  lemma {:induction false} ChunksAreChunks<T>(f: seq<T>, newline: T, size: nat)
    requires size > 1
    ensures forall c :: c in Chunks(f, newline, size) ==> IsChunk(c, newline, size)
    decreases |f|
  {
    if f != [] {
      ChunksAreChunks(f[ChunkSize(f, newline, size - 1)..], newline, size);
    }
  }

  /** A complete line in front of the rest is one chunk of its own. */
  lemma {:induction false} LineSize<T>(line: seq<T>, rest: seq<T>, newline: T, room: nat)
    requires newline !in line && |line| < room
    ensures ChunkSize(line + [newline] + rest, newline, room) == |line| + 1
    decreases |line|
  {
    var f := line + [newline] + rest;
    if line != [] {
      assert f[1..] == line[1..] + [newline] + rest;
      LineSize(line[1..], rest, newline, room - 1);
    }
  }

  lemma LineIsChunk<T>(line: seq<T>, rest: seq<T>, newline: T, size: nat)
    requires newline !in line && |line| + 1 < size
    ensures Chunks(line + [newline] + rest, newline, size) == [line + [newline]] + Chunks(rest, newline, size)
  {
    var f := line + [newline] + rest;
    LineSize(line, rest, newline, size - 1);
    assert f[..|line| + 1] == line + [newline];
    assert f[|line| + 1..] == rest;
  }

  /** A line that fills the buffer loses its newline to a chunk of its own. */
  lemma {:induction false} FullSize<T>(line: seq<T>, rest: seq<T>, newline: T, room: nat)
    requires newline !in line && |line| == room
    ensures ChunkSize(line + rest, newline, room) == room
    decreases |line|
  {
    if line != [] {
      assert (line + rest)[1..] == line[1..] + rest;
      FullSize(line[1..], rest, newline, room - 1);
    }
  }

  lemma FullLineIsSplit<T>(line: seq<T>, rest: seq<T>, newline: T, size: nat)
    requires newline !in line && |line| + 1 == size > 1
    ensures Chunks(line + [newline] + rest, newline, size) == [line, [newline]] + Chunks(rest, newline, size)
  {
    hide ChunkSize;
    var tail := [newline] + rest;
    var f := line + tail;
    assert f == line + [newline] + rest;
    FullSize(line, tail, newline, size - 1);
    assert f[..|line|] == line && f[|line|..] == tail;
    assert Chunks(f, newline, size) == [line] + Chunks(tail, newline, size);
    SoleNewline(rest, newline, size);
  }

  lemma SoleNewline<T>(rest: seq<T>, newline: T, size: nat)
    requires size > 1
    ensures Chunks([newline] + rest, newline, size) == [[newline]] + Chunks(rest, newline, size)
  {
    LineIsChunk([], rest, newline, size);
    assert [] + [newline] == [newline];
  }

  lemma ChunksCons<T>(f: seq<T>, newline: T, size: nat, n: nat)
    requires size > 1 && f != [] && n == ChunkSize(f, newline, size - 1)
    ensures Chunks(f, newline, size) == [f[..n]] + Chunks(f[n..], newline, size)
  {
  }

  /** In front of a complete line fgets stops where it would without the rest. */
  lemma {:induction false} SizeInFront<T>(pre: seq<T>, post: seq<T>, newline: T, room: nat)
    requires pre != [] && pre[|pre| - 1] == newline
    ensures ChunkSize(pre + post, newline, room) == ChunkSize(pre, newline, room)
    decreases |pre|
  {
    if room > 0 && pre[0] != newline {
      assert (pre + post)[1..] == pre[1..] + post;
      SizeInFront(pre[1..], post, newline, room - 1);
    }
  }

  /** Behind a complete line reading starts anew. */
  lemma {:induction false} ChunksConcat<T>(pre: seq<T>, post: seq<T>, newline: T, size: nat)
    requires size > 1 && (pre != [] ==> pre[|pre| - 1] == newline)
    ensures Chunks(pre + post, newline, size) == Chunks(pre, newline, size) + Chunks(post, newline, size)
    decreases |pre|
  {
    hide ChunkSize, Chunks;
    if pre == [] {
      assert pre + post == post;
      NoChunks(newline, size);
    } else {
      var n := ChunkSize(pre, newline, size - 1);
      SizeInFront(pre, post, newline, size - 1);
      ChunksCons(pre, newline, size, n);
      ChunksCons(pre + post, newline, size, n);
      assert (pre + post)[..n] == pre[..n] && (pre + post)[n..] == pre[n..] + post;
      ChunksConcat(pre[n..], post, newline, size);
    }
  }

  lemma NoChunks<T>(newline: T, size: nat)
    requires size > 1
    ensures Chunks([], newline, size) == []
  {
  }
}
