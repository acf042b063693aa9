/** Fixed-size chunking and the two-level file digest, over an abstract 32-byte hash. */
module Digests {
  import opened Bytes

  const DIGEST_LENGTH: nat := 32

  type Digest = d: seq<byte> | |d| == DIGEST_LENGTH witness Zeros(DIGEST_LENGTH)

  type HashFn = seq<byte> -> Digest

  function Zeros(n: nat): (z: seq<byte>)
    ensures |z| == n
  {
    if n == 0 then [] else [0] + Zeros(n - 1)
  }

  const ZERO_DIGEST: Digest := Zeros(DIGEST_LENGTH)

  /** The fixed-size split of a content: full chunks, then a last, possibly shorter, one. */
  function Chunks(c: seq<byte>, size: nat): (r: seq<seq<byte>>)
    requires size > 0
    ensures c == [] <==> r == []
    ensures |c| > 0 && |c| <= size ==> r == [c]
    ensures forall j :: 0 <= j < |r| ==> 0 < |r[j]| <= size
    decreases |c|
  {
    if c == [] then [] else if |c| <= size then [c] else [c[..size]] + Chunks(c[size..], size)
  }

  function Hashes(H: HashFn, pieces: seq<seq<byte>>): (r: seq<Digest>)
    ensures |r| == |pieces|
    ensures forall j :: 0 <= j < |r| ==> r[j] == H(pieces[j])
  {
    seq(|pieces|, j requires 0 <= j < |pieces| => H(pieces[j]))
  }

  function ChunkHashes(H: HashFn, size: nat, c: seq<byte>): (r: seq<Digest>)
    requires size > 0
  {
    Hashes(H, Chunks(c, size))
  }

  function Concat(ds: seq<Digest>): (r: seq<byte>)
    ensures |r| == DIGEST_LENGTH * |ds|
  {
    if ds == [] then [] else ds[0] + Concat(ds[1..])
  }

  function Flatten(pieces: seq<seq<byte>>): seq<byte> {
    if pieces == [] then [] else pieces[0] + Flatten(pieces[1..])
  }

  /** The hash stored for a file: of the content, or of the chunk hashes when it exceeds one chunk. */
  function FileDigest(H: HashFn, size: nat, c: seq<byte>): Digest
    requires size > 0
  {
    if |c| > size then H(Concat(ChunkHashes(H, size, c))) else H(c)
  }

  /** The chunk table stored for a file: empty unless it exceeds one chunk. */
  function FileTable(H: HashFn, size: nat, c: seq<byte>): seq<Digest>
    requires size > 0
  {
    if |c| > size then ChunkHashes(H, size, c) else []
  }

  /** Peeling the next chunk off the front: the step all the chunk loops take. */
  lemma PeelChunk(H: HashFn, size: nat, c: seq<byte>, n: nat)
    requires size > 0 && c != []
    requires n == if |c| < size then |c| else size
    ensures ChunkHashes(H, size, c) == [H(c[..n])] + ChunkHashes(H, size, c[n..])
  {
    if |c| <= size {
      assert c[..n] == c && c[n..] == [];
    }
    HashesCons(H, c[..n], Chunks(c[n..], size));
  }

  lemma HashesCons(H: HashFn, piece: seq<byte>, pieces: seq<seq<byte>>)
    ensures Hashes(H, [piece] + pieces) == [H(piece)] + Hashes(H, pieces)
  {
  }

  /** There are exactly ceil(|c| / size) chunks. */
  lemma {:induction false} ChunkCount(c: seq<byte>, size: nat)
    requires size > 0
    ensures |Chunks(c, size)| == (|c| + size - 1) / size
    decreases |c|
  {
    if c == [] {
      QuotientUnique(size - 1, size, 0, size - 1);
    } else if |c| <= size {
      CeilOne(|c|, size);
    } else {
      CeilStep(|c|, size);
      ChunkCount(c[size..], size);
    }
  }

  function Min(a: nat, b: nat): nat { if a < b then a else b }

  /** Chunk `j` is the slice of `size` bytes that starts at `j * size`, cut at the end of the content. */
  lemma {:induction false} ChunkAt(c: seq<byte>, size: nat, j: nat)
    requires size > 0 && j < |Chunks(c, size)|
    ensures size * j < |c|
    ensures Chunks(c, size)[j] == c[size * j..Min(size * j + size, |c|)]
    decreases |c|
  {
    if j > 0 {
      var rest := c[size..];
      var start := size * (j - 1);
      assert size * j == start + size;
      ChunkAt(rest, size, j - 1);
      assert Chunks(c, size)[j] == Chunks(rest, size)[j - 1];
      SliceOfRest(c, size, start, Min(start + size, |rest|));
    } else {
      assert size * j == 0;
      assert Chunks(c, size)[0] == c[..Min(size, |c|)];
    }
  }

  lemma SliceOfRest(c: seq<byte>, n: nat, lo: nat, hi: nat)
    requires n <= |c| && lo <= hi <= |c| - n
    ensures c[n..][lo..hi] == c[n + lo..n + hi]
  {
  }

  lemma CeilOne(n: nat, size: nat)
    requires 0 < n <= size
    ensures (n + size - 1) / size == 1
  {
    QuotientUnique(n + size - 1, size, 1, n - 1);
  }

  lemma CeilStep(n: nat, size: nat)
    requires size > 0 && n > size
    ensures (n + size - 1) / size == 1 + (n - size + size - 1) / size
  {
    var q, r := (n - 1) / size, (n - 1) % size;
    assert size * (q + 1) == size * q + size;
    QuotientUnique(n + size - 1, size, q + 1, r);
  }

  lemma QuotientUnique(x: nat, size: nat, q: nat, r: nat)
    requires r < size && x == size * q + r
    ensures x / size == q
  {
    var d := x / size - q;
    assert size * d == size * (x / size) - size * q;
    assert d >= 1 ==> size * d >= size * 1;
    assert d <= -1 ==> size * d <= size * (-1);
  }

  lemma {:induction false} ChunksRejoin(c: seq<byte>, size: nat)
    requires size > 0
    ensures Flatten(Chunks(c, size)) == c
    decreases |c|
  {
    if c == [] {
    } else if |c| <= size {
      assert Flatten([c]) == c + Flatten([]);
    } else {
      ChunksRejoin(c[size..], size);
      assert Chunks(c, size)[1..] == Chunks(c[size..], size);
    }
  }

  lemma {:induction false} ConcatInjective(a: seq<Digest>, b: seq<Digest>)
    requires |a| == |b| && Concat(a) == Concat(b)
    ensures a == b
  {
    if a != [] {
      assert a[0] == Concat(a)[..DIGEST_LENGTH] == b[0];
      assert Concat(a[1..]) == Concat(a)[DIGEST_LENGTH..] == Concat(b[1..]);
      ConcatInjective(a[1..], b[1..]);
      assert a == [a[0]] + a[1..] && b == [b[0]] + b[1..];
    }
  }

  // ---------------------------------------------------------------- collisions

  ghost predicate Collision(H: HashFn, x: seq<byte>, y: seq<byte>) {
    x != y && H(x) == H(y)
  }

  /** `x` is one of the strings that are hashed to obtain the digest of `c`. */
  ghost predicate HashedFor(H: HashFn, size: nat, c: seq<byte>, x: seq<byte>)
    requires size > 0
  {
    x == c || x in Chunks(c, size) || x == Concat(ChunkHashes(H, size, c))
  }

  /** Equal digests of equally long contents: the same content, or a collision among the strings hashed for the two. */
  lemma SameDigestSameContent(H: HashFn, size: nat, c: seq<byte>, d: seq<byte>)
    requires size > 0 && |c| == |d|
    requires FileDigest(H, size, c) == FileDigest(H, size, d)
    ensures c == d || exists x, y :: HashedFor(H, size, c, x) && HashedFor(H, size, d, y) && Collision(H, x, y)
  {
    var tc, td := ChunkHashes(H, size, c), ChunkHashes(H, size, d);
    if c == d {
    } else if |c| <= size {
      assert HashedFor(H, size, c, c) && HashedFor(H, size, d, d) && Collision(H, c, d);
    } else if Concat(tc) != Concat(td) {
      var x, y := Concat(tc), Concat(td);
      assert HashedFor(H, size, c, x) && HashedFor(H, size, d, y) && Collision(H, x, y);
    } else {
      ChunkCount(c, size);
      ChunkCount(d, size);
      ConcatInjective(tc, td);
      DifferentChunk(H, size, c, d);
    }
  }

  lemma DifferentChunk(H: HashFn, size: nat, c: seq<byte>, d: seq<byte>)
    requires size > 0 && c != d && ChunkHashes(H, size, c) == ChunkHashes(H, size, d)
    ensures exists x, y :: HashedFor(H, size, c, x) && HashedFor(H, size, d, y) && Collision(H, x, y)
  {
    var pc, pd := Chunks(c, size), Chunks(d, size);
    assert |pc| == |ChunkHashes(H, size, c)| == |pd|;
    ChunksRejoin(c, size);
    ChunksRejoin(d, size);
    assert pc != pd;
    var j :| 0 <= j < |pc| && pc[j] != pd[j];
    assert H(pc[j]) == ChunkHashes(H, size, c)[j] == H(pd[j]);
    assert HashedFor(H, size, c, pc[j]) && HashedFor(H, size, d, pd[j]) && Collision(H, pc[j], pd[j]);
  }
}
