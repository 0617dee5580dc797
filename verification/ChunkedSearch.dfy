/**
 * The chunked file search (src/deps-cache.js): a file is read through one reused buffer, each window keeping the last
 * (longest needle - 1) bytes of the one before, and reads may come back short. A needle is reported exactly when it
 * occurs in the whole content.
 */
module ChunkedSearch {
  import opened Common
  import opened Relocation

  function LongestLength(needles: seq<Bytes>): (r: nat)
    ensures forall i :: 0 <= i < |needles| ==> |needles[i]| <= r
    ensures needles != [] ==> exists i :: 0 <= i < |needles| && |needles[i]| == r
  {
    if needles == [] then 0
    else
      var rest := LongestLength(needles[1..]);
      assert forall i :: 1 <= i < |needles| ==> needles[i] == needles[1..][i - 1];
      if |needles[0]| >= rest then |needles[0]| else rest
  }

  /** The buffer of `forEachWindow`: `buf[..carry]` holds the file's last bytes before `pos`. */
  class WindowReader {
    const content: Bytes
    const chunk: nat
    const overlap: nat
    const buf: array<byte>
    var pos: nat
    var carry: nat

    ghost predicate Valid()
      reads this, buf
    {
      && 0 < chunk && buf.Length == chunk + overlap
      && pos <= |content| && carry == Min(overlap, pos)
      && buf[..carry] == content[pos - carry..pos]
    }

    constructor (content: Bytes, chunk: nat, overlap: nat)
      requires 0 < chunk
      ensures Valid() && fresh(buf) && pos == 0
      ensures this.content == content && this.chunk == chunk && this.overlap == overlap
    {
      this.content, this.chunk, this.overlap := content, chunk, overlap;
      buf := new byte[chunk + overlap];
      pos, carry := 0, 0;
    }

    /** `readSync` at `pos`: at least one byte, at most a chunk, possibly fewer than asked (`want`). */
    method ReadChunk(want: nat) returns (n: nat)
      requires Valid() && pos < |content|
      modifies buf
      ensures 1 <= n <= chunk && pos + n <= |content|
      ensures buf[..carry + n] == content[pos - carry..pos + n]
    {
      n := Max(1, Min(want, Min(chunk, |content| - pos)));
      var start := pos - carry;
      forall j | 0 <= j < carry ensures buf[j] == content[start + j] { assert buf[j] == buf[..carry][j]; }
      for i := 0 to n
        invariant forall j :: 0 <= j < carry + i ==> buf[j] == content[start + j]
      {
        buf[carry + i] := content[pos + i];
      }
    }

    /** `window.copy(buf, 0, length - keep)`: the window's tail moves to the front of the same buffer. */
    method MoveTailToFront(length: nat, keep: nat)
      requires keep <= length <= buf.Length
      modifies buf
      ensures buf[..keep] == old(buf[length - keep..length])
    {
      var shift := length - keep;
      ghost var was := buf[..];
      for i := 0 to keep
        invariant forall j :: 0 <= j < i ==> buf[j] == was[shift + j]
        invariant forall j :: i <= j < buf.Length ==> buf[j] == was[j]
      {
        buf[i] := buf[shift + i];
      }
      assert buf[..keep] == was[shift..length];
      assert was[shift..length] == old(buf[length - keep..length]);
    }

    method NextWindow(want: nat) returns (window: Bytes)
      requires Valid() && pos < |content|
      modifies this, buf
      ensures Valid() && pos > old(pos)
      ensures window == content[old(pos) - old(carry)..pos]
    {
      var n := ReadChunk(want);
      var length := carry + n;
      window := buf[..length];
      var keep := Min(overlap, length);
      MoveTailToFront(length, keep);
      assert window[length - keep..] == content[pos + n - keep..pos + n];
      pos, carry := pos + n, keep;
    }
  }

  /** What is new in a longer prefix shows in the last window, if the window carries enough. */
  lemma WindowCompletes(w: Bytes, content: Bytes, pos: nat, next: nat, overlap: nat)
    requires pos <= next <= |content| && |w| <= overlap + 1
    ensures Occurs(w, content[..next]) <==>
            Occurs(w, content[..pos]) || Occurs(w, content[pos - Min(overlap, pos)..next])
  {
    var start := pos - Min(overlap, pos);
    var window := content[start..next];
    if Occurs(w, content[..next]) {
      var i :| 0 <= i <= next && MatchesAt(content[..next], i, w);
      if i + |w| <= pos {
        assert content[..pos][i..i + |w|] == content[..next][i..i + |w|];
        assert MatchesAt(content[..pos], i, w);
      } else {
        assert window[i - start..i - start + |w|] == content[..next][i..i + |w|];
        assert MatchesAt(window, i - start, w);
      }
    }
    if Occurs(w, content[..pos]) {
      var i :| 0 <= i <= pos && MatchesAt(content[..pos], i, w);
      assert content[..next][i..i + |w|] == content[..pos][i..i + |w|];
      assert MatchesAt(content[..next], i, w);
    }
    if Occurs(w, window) {
      var i :| 0 <= i <= |window| && MatchesAt(window, i, w);
      assert content[..next][start + i..start + i + |w|] == window[i..i + |w|];
      assert MatchesAt(content[..next], start + i, w);
    }
  }

  /**
   * Which needles the file holds, and whether it has a NUL byte; `readLength(pos)` is how much the read at `pos`
   * returns.
   */
  method FileNeedleHits(content: Bytes, needles: seq<Bytes>, chunk: nat, readLength: nat -> nat)
    returns (hits: set<nat>, binary: bool)
    requires 0 < chunk && needles != [] && forall i :: 0 <= i < |needles| ==> needles[i] != []
    ensures hits == set i: nat | i < |needles| && Occurs(needles[i], content)
    ensures binary <==> 0 in content
  {
    if |content| <= chunk {
      hits := set i: nat | i < |needles| && Occurs(needles[i], content);
      binary := 0 in content;
      return;
    }
    hits, binary := {}, false;
    var overlap := LongestLength(needles) - 1;
    var reader := new WindowReader(content, chunk, overlap);
    while reader.pos < |content|
      invariant reader.Valid() && fresh(reader) && fresh(reader.buf)
      invariant reader.content == content && reader.chunk == chunk && reader.overlap == overlap
      invariant hits == set i: nat | i < |needles| && Occurs(needles[i], content[..reader.pos])
      invariant binary <==> 0 in content[..reader.pos]
      decreases |content| - reader.pos
    {
      ghost var p := reader.pos;
      var window := reader.NextWindow(readLength(reader.pos));
      forall i | 0 <= i < |needles|
        ensures Occurs(needles[i], content[..reader.pos]) <==>
          Occurs(needles[i], content[..p]) || Occurs(needles[i], window)
      {
        WindowCompletes(needles[i], content, p, reader.pos, overlap);
      }
      hits := hits + set i: nat | i < |needles| && Occurs(needles[i], window);
      assert content[..reader.pos] == content[..p] + content[p..reader.pos];
      assert window == content[p - Min(overlap, p)..p] + content[p..reader.pos];
      binary := binary || 0 in window;
    }
    assert content[..reader.pos] == content;
  }

  /** Does the file hold any of the needles? The scan stops at the first window that shows one. */
  method FileContains(content: Bytes, needles: seq<Bytes>, chunk: nat, readLength: nat -> nat) returns (found: bool)
    requires 0 < chunk && needles != [] && forall i :: 0 <= i < |needles| ==> needles[i] != []
    ensures found <==> exists i :: 0 <= i < |needles| && Occurs(needles[i], content)
  {
    if |content| <= chunk {
      return exists i :: 0 <= i < |needles| && Occurs(needles[i], content);
    }
    var overlap := LongestLength(needles) - 1;
    var reader := new WindowReader(content, chunk, overlap);
    while reader.pos < |content|
      invariant reader.Valid() && fresh(reader) && fresh(reader.buf)
      invariant reader.content == content && reader.chunk == chunk && reader.overlap == overlap
      invariant forall i :: 0 <= i < |needles| ==> !Occurs(needles[i], content[..reader.pos])
      decreases |content| - reader.pos
    {
      ghost var p := reader.pos;
      var window := reader.NextWindow(readLength(reader.pos));
      forall i | 0 <= i < |needles| ensures Occurs(needles[i], content[..reader.pos]) <==> Occurs(needles[i], window) {
        WindowCompletes(needles[i], content, p, reader.pos, overlap);
      }
      if exists i :: 0 <= i < |needles| && Occurs(needles[i], window) {
        var i :| 0 <= i < |needles| && Occurs(needles[i], window);
        WindowCompletes(needles[i], content, reader.pos, |content|, overlap);
        assert content[..|content|] == content;
        return true;
      }
    }
    assert content[..reader.pos] == content;
    found := false;
  }
}
