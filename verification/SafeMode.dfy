/** Safe mode's verifiers: the loops over an existing file, and how exact their verdict is. */
module SafeMode {
  import opened Bytes
  import opened Digests
  import opened FileSystem
  import opened Protocol
  import opened Snapshot

  /** A read of an open file: any number of bytes up to `want`, none at its end. */
  method FileRead(content: seq<byte>, off: nat, want: nat) returns (n: nat)
    requires off <= |content| && want > 0
    ensures n <= want && off + n <= |content| && (n == 0 <==> off == |content|)
  {
    if off == |content| {
      n := 0;
    } else {
      var most := if want < |content| - off then want else |content| - off;
      n :| 1 <= n <= most;
    }
  }

  /** A read of the existing file, which may also fail if the file system is `faulty`. */
  method ReadExisting(content: seq<byte>, off: nat, want: nat, faulty: bool) returns (n: nat, failed: bool)
    requires off <= |content| && want > 0
    ensures n <= want && off + n <= |content| && (failed ==> faulty && n == 0)
    ensures !failed ==> (n == 0 <==> off == |content|)
  {
    failed := *;
    failed := failed && faulty;
    n := 0;
    if !failed {
      n := FileRead(content, off, want);
    }
  }

  /**
   * The verifier for files of at most one chunk: the size found by `stat` is the entry's, and so is the hash of that
   * many bytes. A file that cannot be opened or read, or that has become shorter since, is not accepted.
   */
  method VerifySmall(P: Params, statSize: nat, content: seq<byte>, e: Entry, bufSize: nat, faulty: bool)
    returns (ok: bool, failed: bool)
    requires bufSize > 0
    ensures failed ==> faulty && statSize == e.size
    ensures ok <==> !failed && statSize == e.size && |content| >= statSize && P.H(content[..statSize]) == e.hash
  {
    if statSize != e.size {
      return false, false;
    }
    var closed: bool := *;
    if faulty && closed { return false, true; }
    var hashed: seq<byte> := [];
    var remaining := statSize;
    while remaining > 0
      invariant 0 <= remaining <= statSize && statSize - remaining <= |content|
      invariant hashed == content[..statSize - remaining]
    {
      var off := statSize - remaining;
      var chunk := if remaining < bufSize then remaining else bufSize;
      var n, error := ReadExisting(content, off, chunk, faulty);
      if n == 0 { return false, error; }
      hashed := hashed + content[off..off + n];
      remaining := remaining - n;
    }
    return P.H(hashed) == e.hash, false;
  }

  /** The inner loop: hash one chunk, however the reads split it; not `ok` when the file ends or a read fails. */
  method HashChunk(P: Params, content: seq<byte>, off: nat, chunkBytes: nat, bufSize: nat, faulty: bool)
    returns (ok: bool, failed: bool, hash: Digest)
    requires bufSize > 0 && off <= |content|
    ensures failed ==> faulty
    ensures ok <==> !failed && off + chunkBytes <= |content|
    ensures ok ==> hash == P.H(content[off..off + chunkBytes])
  {
    var hashed: seq<byte> := [];
    var processed := 0;
    while processed < chunkBytes
      invariant processed <= chunkBytes && off + processed <= |content| && hashed == content[off..off + processed]
    {
      var left := chunkBytes - processed;
      var toRead := if bufSize > left then left else bufSize;
      var n, error := ReadExisting(content, off + processed, toRead, faulty);
      if n == 0 { return false, error, ZERO_DIGEST; }
      hashed := hashed + content[off + processed..off + processed + n];
      processed := processed + n;
    }
    return true, false, P.H(hashed);
  }

  /** The next chunk of `content` at `off` and the chunks after it. */
  lemma ChunksFrom(P: Params, content: seq<byte>, off: nat, n: nat)
    requires off < |content| && n == Min(P.chunk, |content| - off)
    ensures ChunkHashes(P.H, P.chunk, content[off..]) ==
      [P.H(content[off..off + n])] + ChunkHashes(P.H, P.chunk, content[off + n..])
  {
    PeelChunk(P.H, P.chunk, content[off..], n);
    assert content[off..][..n] == content[off..off + n] && content[off..][n..] == content[off + n..];
  }

  /** The chunk hashes of the first `size` bytes are those matched so far, then those of the bytes from `off` on. */
  ghost predicate Matched(P: Params, content: seq<byte>, size: nat, off: nat, matched: seq<Digest>, merkle: seq<byte>) {
    off <= size && off <= |content| && merkle == Concat(matched) &&
    (size <= |content| ==>
      ChunkHashes(P.H, P.chunk, content[..size]) == matched + ChunkHashes(P.H, P.chunk, content[..size][off..]))
  }

  lemma NoneMatched(P: Params, content: seq<byte>, size: nat)
    ensures Matched(P, content, size, 0, [], [])
  {
    if size <= |content| { assert content[..size][0..] == content[..size]; }
    NoChunks(P);
  }

  lemma OneMatched(P: Params, content: seq<byte>, size: nat, off: nat, n: nat, matched: seq<Digest>, merkle: seq<byte>)
    requires Matched(P, content, size, off, matched, merkle) && off < size && n == Min(P.chunk, size - off)
    requires off + n <= |content|
    ensures var h := P.H(content[off..off + n]);
      Matched(P, content, size, off + n, matched + [h], merkle + h) &&
      (size <= |content| ==> |ChunkHashes(P.H, P.chunk, content[..size])| > |matched| &&
                             ChunkHashes(P.H, P.chunk, content[..size])[|matched|] == h)
  {
    hide ChunkHashes, Concat;
    var h := P.H(content[off..off + n]);
    ConcatSnoc(matched, h);
    if size <= |content| {
      ChunksFrom(P, content[..size], off, n);
      assert content[..size][off..off + n] == content[off..off + n];
      var rest := ChunkHashes(P.H, P.chunk, content[..size][off + n..]);
      assert matched + [h] + rest == matched + ([h] + rest);
    }
  }

  lemma AllMatched(P: Params, content: seq<byte>, size: nat, matched: seq<Digest>, merkle: seq<byte>)
    requires Matched(P, content, size, size, matched, merkle)
    ensures size <= |content| && matched == ChunkHashes(P.H, P.chunk, content[..size]) && merkle == Concat(matched)
  {
    assert content[..size][size..] == [];
    NoChunks(P);
  }

  /** The verifier for larger files: chunk by chunk against the entry's table, failing fast, then the root. */
  method VerifyChunked(P: Params, statSize: nat, content: seq<byte>, e: Entry, bufSize: nat, faulty: bool)
    returns (ok: bool, failed: bool)
    requires bufSize > 0
    ensures failed ==> faulty && statSize == e.size
    ensures ok <==> !failed && statSize == e.size && |content| >= statSize &&
                    ChunkHashes(P.H, P.chunk, content[..statSize]) == e.chunks &&
                    P.H(Concat(ChunkHashes(P.H, P.chunk, content[..statSize]))) == e.hash
  {
    hide ChunkHashes, Concat, Matched;
    if statSize != e.size {
      return false, false;
    }
    var closed: bool := *;
    if faulty && closed { return false, true; }
    var off, chunkIndex := 0, 0;
    var merkle: seq<byte> := [];
    NoneMatched(P, content, statSize);
    while off < statSize
      invariant off <= statSize && off <= |content| && chunkIndex <= |e.chunks|
      invariant Matched(P, content, statSize, off, e.chunks[..chunkIndex], merkle)
      decreases statSize - off
    {
      var remaining := statSize - off;
      var chunkBytes := if remaining < P.chunk then remaining else P.chunk;
      var whole, error, hash := HashChunk(P, content, off, chunkBytes, bufSize, faulty);
      if !whole { return false, error; }
      OneMatched(P, content, statSize, off, chunkBytes, e.chunks[..chunkIndex], merkle);
      if chunkIndex >= |e.chunks| || hash != e.chunks[chunkIndex] {
        return false, false;
      }
      assert e.chunks[..chunkIndex + 1] == e.chunks[..chunkIndex] + [hash];
      merkle := merkle + hash;
      chunkIndex := chunkIndex + 1;
      off := off + chunkBytes;
    }
    AllMatched(P, content, statSize, e.chunks[..chunkIndex], merkle);
    if chunkIndex != |e.chunks| {
      return false, false;
    }
    assert e.chunks[..chunkIndex] == e.chunks;
    return P.H(merkle) == e.hash, false;
  }

  lemma NoChunks(P: Params)
    ensures ChunkHashes(P.H, P.chunk, []) == [] && Concat([]) == []
  {
  }

  lemma {:induction false} ConcatSnoc(ds: seq<Digest>, d: Digest)
    ensures Concat(ds + [d]) == Concat(ds) + d
  {
    if ds == [] {
      assert [] + [d] == [d];
      assert Concat([d]) == d + Concat([]);
    } else {
      assert (ds + [d])[1..] == ds[1..] + [d];
      ConcatSnoc(ds[1..], d);
    }
  }

  // ---------------------------------------------------------------- how exact the verdict is

  /** Once all chunks match an entry the receiver built, the root matches too: the last comparison never rejects. */
  lemma RootNeverRejects(P: Params, f: FileSpec, temp: Name, content: seq<byte>)
    requires |f.content| > P.chunk && |content| == |f.content|
    requires ChunkHashes(P.H, P.chunk, content) == ReceivedEntry(P, f, temp).chunks
    ensures P.H(Concat(ChunkHashes(P.H, P.chunk, content))) == ReceivedEntry(P, f, temp).hash
    ensures SafeAccepts(P, File(content), ReceivedEntry(P, f, temp))
  {
  }

  /** Two contents are told apart only if the hash collides on strings that were hashed for them. */
  ghost predicate Collides(P: Params, c: seq<byte>, d: seq<byte>) {
    exists x, y :: HashedFor(P.H, P.chunk, c, x) && HashedFor(P.H, P.chunk, d, y) && Collision(P.H, x, y)
  }

  /**
   * Exactness. An existing file is accepted for a received non-empty file if and only if it has the same length
   * and the same chunk hashes and digest; so an accepted file has the same content unless the hash collides.
   */
  lemma VerdictExact(P: Params, f: FileSpec, existing: seq<byte>)
    requires f.content != []
    ensures SafeAccepts(P, File(existing), ReceivedEntry(P, f, [])) <==>
      |existing| == |f.content| && FileDigest(P.H, P.chunk, existing) == FileDigest(P.H, P.chunk, f.content) &&
      FileTable(P.H, P.chunk, existing) == FileTable(P.H, P.chunk, f.content)
    ensures existing == f.content ==> SafeAccepts(P, File(existing), ReceivedEntry(P, f, []))
    ensures SafeAccepts(P, File(existing), ReceivedEntry(P, f, [])) ==>
      existing == f.content || Collides(P, existing, f.content)
  {
    if SafeAccepts(P, File(existing), ReceivedEntry(P, f, [])) {
      SameDigestSameContent(P.H, P.chunk, existing, f.content);
    }
  }

  /**
   * An empty snapshot file is compared through the all-zero placeholder, as its data phase is skipped: an existing
   * empty file, though identical, is accepted if and only if the hash of the empty string happens to be all zero.
   */
  lemma EmptyFileVerdict(P: Params, name: Name, node: Node)
    ensures SafeAccepts(P, node, ReceivedEntry(P, FileSpec(name, []), [])) <==>
      node == File([]) && P.H([]) == ZERO_DIGEST
  {
    hide ZERO_DIGEST;
  }

  /**
   * So safe mode skips an identical existing file, as documented, if and only if the file is not empty
   * (or the hash of the empty string is all zero).
   */
  lemma IdenticalIsSkipped(P: Params, f: FileSpec)
    ensures SafeAccepts(P, File(f.content), ReceivedEntry(P, f, [])) <==> f.content != [] || P.H([]) == ZERO_DIGEST
  {
    if f.content == [] {
      EmptyFileVerdict(P, f.name, File([]));
    } else {
      VerdictExact(P, f, f.content);
    }
  }

  /** An identical empty file that is rejected. */
  lemma EmptyFileRejected(name: Name)
    ensures var P: Params := Settings((x: seq<byte>) => [1] + Zeros(DIGEST_LENGTH - 1), 1);
      !SafeAccepts(P, File([]), ReceivedEntry(P, FileSpec(name, []), []))
  {
    var P: Params := Settings((x: seq<byte>) => [1] + Zeros(DIGEST_LENGTH - 1), 1);
    EmptyFileVerdict(P, name, File([]));
    assert ZERO_DIGEST[0] == 0;
    assert P.H([])[0] == 1;
  }
}
