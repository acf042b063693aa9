/** The sender's file loops: hashing while sending, records, batches, directories. */
module Sending {
  import opened Bytes
  import opened Digests
  import opened Codec
  import opened FileSystem
  import opened Protocol
  import opened Snapshot
  import opened Batching
  import opened Trees
  import opened BufWriting
  import SafeMode

  /** What a call that was to push `bytes` may leave: all of them pushed, or a prefix of them on the wire. */
  twostate predicate Grew(bw: BufWriter, bytes: seq<byte>, ok: bool)
    requires old(bw.Valid()) && bw.Valid()
    reads bw, bw.buf
  {
    bw.buf == old(bw.buf) &&
    (ok ==> bw.Pushed() == old(bw.Pushed()) + bytes && bw.broken == old(bw.broken)) &&
    bw.sent <= old(bw.Pushed()) + bytes &&
    (old(bw.broken) ==> bw.broken && bw.sent == old(bw.sent))
  }

  lemma Longer(sent: seq<byte>, start: seq<byte>, a: seq<byte>, b: seq<byte>)
    requires sent <= start + a
    ensures sent <= start + (a + b)
  {
    assert start + (a + b) == (start + a) + b;
  }

  /** Push two pieces, the second only if the first went through. */
  method PushBoth(bw: BufWriter, a: seq<byte>, b: seq<byte>) returns (ok: bool)
    requires bw.Valid()
    modifies bw, bw.buf
    ensures bw.Valid() && Grew(bw, a + b, ok) && (!ok ==> bw.broken)
  {
    ghost var start := bw.Pushed();
    ok := bw.Push(a);
    if ok {
      ok := bw.Push(b);
    } else {
      Longer(bw.sent, start, a, b);
    }
    assert start + a + b == start + (a + b);
  }

  /** A record in three pieces of two fields each. */
  lemma EntryPieces(r: Record)
    ensures Encode(r) == (BigEndian(|r.name|, 2) + r.name) + (BigEndian(r.size, 8) + r.hash) +
                         (BigEndian(|r.chunks|, 8) + Concat(r.chunks))
    ensures r.chunks == [] ==> BigEndian(|r.chunks|, 8) + Concat(r.chunks) == BigEndian(|r.chunks|, 8)
  {
    hide BigEndian;
    var named, sized := BigEndian(|r.name|, 2) + r.name, BigEndian(r.size, 8) + r.hash;
    assert named + BigEndian(r.size, 8) + r.hash == named + sized;
    var count := BigEndian(|r.chunks|, 8);
    assert named + sized + count + Concat(r.chunks) == named + sized + (count + Concat(r.chunks));
  }

  lemma ThreePieces(start: seq<byte>, a: seq<byte>, b: seq<byte>, c: seq<byte>)
    ensures start + a + b == start + (a + b) && start + (a + b) + c == start + (a + b + c) && a + b + c == a + (b + c)
  {
  }

  /** Name length, name, size, digest, chunk count, and the chunk hashes if there are any. */
  method SendEntry(bw: BufWriter, r: Record) returns (ok: bool)
    requires bw.Valid()
    modifies bw, bw.buf
    ensures bw.Valid() && Grew(bw, Encode(r), ok) && (!ok ==> bw.broken)
  {
    hide Encode, BigEndian, Concat;
    ghost var start := bw.Pushed();
    var count := BigEndian(|r.chunks|, 8);
    ghost var named, sized, counted := BigEndian(|r.name|, 2) + r.name, BigEndian(r.size, 8) + r.hash,
      count + Concat(r.chunks);
    EntryPieces(r);
    ThreePieces(start, named, sized, counted);
    ok := PushBoth(bw, BigEndian(|r.name|, 2), r.name);
    if !ok {
      Longer(bw.sent, start, named, sized + counted);
      return;
    }
    ok := PushBoth(bw, BigEndian(r.size, 8), r.hash);
    if !ok {
      Longer(bw.sent, start, named + sized, counted);
      return;
    }
    if |r.chunks| > 0 {
      ok := PushBoth(bw, count, Concat(r.chunks));
    } else {
      ok := bw.Push(count);
    }
  }

  // ---------------------------------------------------------------- files

  /** `fread`: some bytes, none at the end of the file, or an error if the file system is `faulty`. */
  method ReadFile(content: seq<byte>, off: nat, want: nat, faulty: bool) returns (n: nat, error: bool)
    requires off <= |content| && want > 0
    ensures n <= want && off + n <= |content| && (error ==> n == 0 && faulty)
    ensures !error ==> (n == 0 <==> off == |content|)
  {
    error := *;
    error := error && faulty;
    n := 0;
    if !error {
      n := SafeMode.FileRead(content, off, want);
    }
  }

  datatype Turn = More | AtEnd | Broken

  /** One turn of the sender's read loops: read up to `want` bytes at `at` and push them behind those from `from` on. */
  method ReadAndPush(bw: BufWriter, content: seq<byte>, ghost from: nat, at: nat, want: nat, faulty: bool,
      ghost start: seq<byte>) returns (r: Turn, n: nat)
    requires bw.Valid() && want > 0 && from <= at <= |content| && bw.Pushed() == start + content[from..at]
    modifies bw, bw.buf
    ensures bw.Valid() && bw.buf == old(bw.buf) && n <= want && at + n <= |content|
    ensures r.Broken? ==> bw.sent <= start + content[from..at + n] && (faulty || bw.broken)
    ensures !r.Broken? ==> bw.Pushed() == start + content[from..at + n] && bw.broken == old(bw.broken)
    ensures r.More? ==> n > 0
    ensures r.AtEnd? ==> n == 0 && at == |content|
    ensures old(bw.broken) ==> bw.broken && bw.sent == old(bw.sent)
  {
    var error;
    n, error := ReadFile(content, at, want, faulty);
    if n == 0 {
      return if error then Broken else AtEnd, 0;
    }
    var buf := content[at..at + n];
    assert start + content[from..at] + buf == start + content[from..at + n] by {
      assert content[from..at] + buf == content[from..at + n];
    }
    var pushed := bw.Push(buf);
    return if pushed then More else Broken, n;
  }

  lemma FrontOf(sent: seq<byte>, start: seq<byte>, content: seq<byte>, from: nat, at: nat, to: nat)
    requires from <= at <= to <= |content| && sent <= start + content[from..at]
    ensures sent <= start + content[from..to]
  {
    Longer(sent, start, content[from..at], content[at..to]);
    assert content[from..at] + content[at..to] == content[from..to];
  }

  /** A file of at most one chunk: read to its end, hashed and pushed. */
  method SendSmallFile(P: Params, bw: BufWriter, content: seq<byte>, bufSize: nat, faulty: bool)
    returns (ok: bool, hash: Digest, bytes: nat)
    requires bw.Valid() && bufSize > 0
    modifies bw, bw.buf
    ensures bw.Valid() && Grew(bw, content, ok) && (!ok ==> faulty || bw.broken)
    ensures (ok ==> hash == P.H(content) && bytes == |content|) && bytes <= |content|
  {
    ghost var start := bw.Pushed();
    var hashed: seq<byte> := [];
    bytes := 0;
    assert start + content[0..0] == start && content[0..|content|] == content;
    while true
      invariant bytes <= |content| && hashed == content[0..bytes]
      invariant bw.Valid() && bw.buf == old(bw.buf) && bw.Pushed() == start + content[0..bytes] &&
        bw.broken == old(bw.broken)
      invariant old(bw.broken) ==> bw.sent == old(bw.sent)
      decreases |content| - bytes
    {
      var r, n := ReadAndPush(bw, content, 0, bytes, bufSize, faulty, start);
      if r.AtEnd? { break; }
      if r.Broken? {
        FrontOf(bw.sent, start, content, 0, bytes + n, |content|);
        return false, ZERO_DIGEST, bytes;
      }
      hashed := hashed + content[bytes..bytes + n];
      bytes := bytes + n;
    }
    return true, P.H(hashed), bytes;
  }

  /**
   * What the chunk loop of the sender hashes for a file of recorded size `size` and actual content `c`: a piece
   * per chunk of the recorded size, short or empty where the file ends early, nothing of what it has beyond.
   */
  function Pieces(c: seq<byte>, size: nat, chunk: nat): (r: seq<seq<byte>>)
    requires chunk > 0
    decreases size
  {
    if size == 0 then []
    else
      var n := Min(size, chunk);
      [c[..Min(n, |c|)]] + Pieces(c[Min(n, |c|)..], size - n, chunk)
  }

  /** For a file that has its recorded size these are its chunks. */
  lemma {:induction false} PiecesAreChunks(c: seq<byte>, chunk: nat)
    requires chunk > 0
    ensures Pieces(c, |c|, chunk) == Chunks(c, chunk)
    decreases |c|
  {
    if c != [] {
      var n := Min(|c|, chunk);
      assert |c| <= chunk ==> c[..n] == c && c[n..] == [];
      PiecesAreChunks(c[n..], chunk);
    }
  }

  /** There are exactly ceil(size / chunk) of them, whatever the file turns out to hold. */
  lemma {:induction false} PiecesCount(c: seq<byte>, size: nat, chunk: nat)
    requires chunk > 0
    ensures |Pieces(c, size, chunk)| == (size + chunk - 1) / chunk
    decreases size
  {
    if size == 0 {
      QuotientUnique(chunk - 1, chunk, 0, chunk - 1);
    } else if size <= chunk {
      CeilOne(size, chunk);
      assert Pieces(c[Min(size, |c|)..], 0, chunk) == [];
    } else {
      CeilStep(size, chunk);
      PiecesCount(c[Min(chunk, |c|)..], size - chunk, chunk);
    }
  }

  /** One chunk of the sender's loop: up to `want` bytes from `off`, fewer if the file ends, pushed and hashed. */
  method SendChunk(P: Params, bw: BufWriter, content: seq<byte>, off: nat, want: nat, bufSize: nat, faulty: bool,
      ghost start: seq<byte>) returns (ok: bool, hash: Digest, got: nat)
    requires bw.Valid() && bufSize > 0 && off <= |content| && bw.Pushed() == start + content[0..off]
    modifies bw, bw.buf
    ensures bw.Valid() && bw.buf == old(bw.buf) && got <= Min(want, |content| - off)
    ensures ok ==> got == Min(want, |content| - off) && hash == P.H(content[off..off + got])
    ensures ok ==> bw.Pushed() == start + content[0..off + got] && bw.broken == old(bw.broken)
    ensures !ok ==> bw.sent <= start + content[0..off + Min(want, |content| - off)] && (faulty || bw.broken)
    ensures old(bw.broken) ==> bw.broken && bw.sent == old(bw.sent)
  {
    ghost var most := Min(want, |content| - off);
    var hashed: seq<byte> := [];
    got := 0;
    while got < want
      invariant got <= most && hashed == content[off..off + got]
      invariant bw.Valid() && bw.buf == old(bw.buf) && bw.Pushed() == start + content[0..off + got] &&
        bw.broken == old(bw.broken)
      invariant old(bw.broken) ==> bw.sent == old(bw.sent)
    {
      var toRead := if bufSize > want - got then want - got else bufSize;
      var r, n := ReadAndPush(bw, content, 0, off + got, toRead, faulty, start);
      if r.AtEnd? { break; }
      if r.Broken? {
        FrontOf(bw.sent, start, content, 0, off + got + n, off + most);
        return false, ZERO_DIGEST, got;
      }
      Extend(content, off, off + got, off + got + n);
      hashed := hashed + content[off + got..off + got + n];
      got := got + n;
    }
    return true, P.H(hashed), got;
  }

  lemma Extend(c: seq<byte>, from: nat, at: nat, to: nat)
    requires from <= at <= to <= |c|
    ensures c[from..at] + c[at..to] == c[from..to]
  {
  }

  /** The piece taken first, hashed, and the pieces after it. */
  lemma FirstPiece(P: Params, c: seq<byte>, remaining: nat)
    requires remaining > 0
    ensures var n := Min(remaining, P.chunk); var got := Min(n, |c|);
      Hashes(P.H, Pieces(c, remaining, P.chunk)) ==
        [P.H(c[..got])] + Hashes(P.H, Pieces(c[got..], remaining - n, P.chunk))
  {
    hide Hashes;
    var n := Min(remaining, P.chunk);
    var got := Min(n, |c|);
    HashesCons(P.H, c[..got], Pieces(c[got..], remaining - n, P.chunk));
  }

  lemma TailSlices(c: seq<byte>, off: nat, got: nat)
    requires off + got <= |c|
    ensures c[off..][..got] == c[off..off + got] && c[off..][got..] == c[off + got..]
  {
  }

  /** What is left to hash from `off` on, and the piece taken there. */
  lemma NextPiece(P: Params, c: seq<byte>, off: nat, remaining: nat)
    requires off <= |c| && remaining > 0
    ensures var n := Min(remaining, P.chunk); var got := Min(n, |c| - off);
      Hashes(P.H, Pieces(c[off..], remaining, P.chunk)) ==
        [P.H(c[off..off + got])] + Hashes(P.H, Pieces(c[off + got..], remaining - n, P.chunk))
  {
    var n := Min(remaining, P.chunk);
    var got := Min(n, |c| - off);
    hide Hashes, Pieces;
    TailSlices(c, off, got);
    FirstPiece(P, c[off..], remaining);
  }

  /**
   * The table holds the hashes of the pieces sent so far, which are the front of the file; `merkle` is the table
   * in a row.
   */
  ghost predicate Stored(P: Params, c: seq<byte>, size: nat, remaining: nat, bytes: nat, table: seq<Digest>,
      merkle: seq<byte>) {
    remaining <= size && bytes == Min(size - remaining, |c|) && merkle == Concat(table) &&
    Hashes(P.H, Pieces(c, size, P.chunk)) == table + Hashes(P.H, Pieces(c[bytes..], remaining, P.chunk))
  }

  lemma SentOneMore(P: Params, c: seq<byte>, size: nat, remaining: nat, bytes: nat, table: seq<Digest>,
      merkle: seq<byte>)
    requires Stored(P, c, size, remaining, bytes, table, merkle) && remaining > 0
    ensures var n := Min(remaining, P.chunk); var got := Min(n, |c| - bytes); var hash := P.H(c[bytes..bytes + got]);
      |table| < |Pieces(c, size, P.chunk)| && bytes + got <= Min(size, |c|) &&
      Stored(P, c, size, remaining - n, bytes + got, table + [hash], merkle + hash)
  {
    hide Pieces, Concat;
    NextPiece(P, c, bytes, remaining);
    var n := Min(remaining, P.chunk);
    var got := Min(n, |c| - bytes);
    var hash := P.H(c[bytes..bytes + got]);
    SafeMode.ConcatSnoc(table, hash);
    var rest := Hashes(P.H, Pieces(c[bytes + got..], remaining - n, P.chunk));
    assert table + [hash] + rest == table + ([hash] + rest);
  }

  lemma AllSent(P: Params, c: seq<byte>, size: nat, bytes: nat, table: seq<Digest>, merkle: seq<byte>)
    requires Stored(P, c, size, 0, bytes, table, merkle)
    ensures table == Hashes(P.H, Pieces(c, size, P.chunk)) && merkle == Concat(table) && bytes == Min(size, |c|)
  {
    NoPieces(P, c[bytes..]);
  }

  /**
   * A file of more than one chunk. The table is allocated for the recorded size and never overrun: one hash is
   * stored per chunk of that size, even if the file has become shorter (or longer) in the meantime.
   */
  method SendBigFile(P: Params, bw: BufWriter, content: seq<byte>, size: nat, bufSize: nat, faulty: bool)
    returns (ok: bool, hash: Digest, table: seq<Digest>, bytes: nat)
    requires bw.Valid() && bufSize > 0
    modifies bw, bw.buf
    ensures bw.Valid() && Grew(bw, content[..Min(size, |content|)], ok) && (!ok ==> faulty || bw.broken)
    ensures bytes <= Min(size, |content|)
    ensures ok ==>
      table == Hashes(P.H, Pieces(content, size, P.chunk)) && hash == P.H(Concat(table)) &&
        bytes == Min(size, |content|)
  {
    hide Pieces, Concat, Hashes, Stored;
    ghost var start := bw.Pushed();
    var totalChunks := (size + P.chunk - 1) / P.chunk;
    PiecesCount(content, size, P.chunk);
    var slots := new Digest[totalChunks](_ => ZERO_DIGEST);
    var numChunks, remaining := 0, size;
    var merkle: seq<byte> := [];
    bytes := 0;
    NothingSent(P, content, size);
    assert content[0..0] == [] && start + [] == start && slots[..0] == [];
    while remaining > 0
      invariant 0 <= remaining <= size && bytes <= Min(size, |content|) && numChunks <= slots.Length
      invariant Stored(P, content, size, remaining, bytes, slots[..numChunks], merkle)
      invariant bw.Valid() && bw.buf == old(bw.buf) && bw.Pushed() == start + content[0..bytes] &&
        bw.broken == old(bw.broken)
      invariant old(bw.broken) ==> bw.sent == old(bw.sent)
    {
      var chunkBytes := if remaining < P.chunk then remaining else P.chunk;
      ghost var stored := slots[..numChunks];
      SentOneMore(P, content, size, remaining, bytes, stored, merkle);
      var sent, chunkHash, got := SendChunk(P, bw, content, bytes, chunkBytes, bufSize, faulty, start);
      if !sent {
        FrontOf(bw.sent, start, content, 0, bytes + Min(chunkBytes, |content| - bytes), Min(size, |content|));
        assert content[0..Min(size, |content|)] == content[..Min(size, |content|)];
        return false, ZERO_DIGEST, [], bytes + got;
      }
      slots[numChunks] := chunkHash;
      assert slots[..numChunks + 1] == stored + [chunkHash];
      merkle := merkle + chunkHash;
      numChunks, remaining, bytes := numChunks + 1, remaining - chunkBytes, bytes + got;
    }
    AllSent(P, content, size, bytes, slots[..numChunks], merkle);
    assert content[0..bytes] == content[..bytes];
    return true, P.H(merkle), slots[..numChunks], bytes;
  }

  lemma NothingSent(P: Params, c: seq<byte>, size: nat)
    ensures Stored(P, c, size, size, 0, [], [])
  {
    assert c[0..] == c;
    SafeMode.NoChunks(P);
  }

  lemma NoPieces(P: Params, c: seq<byte>)
    ensures Hashes(P.H, Pieces(c, 0, P.chunk)) == []
  {
  }

  // ---------------------------------------------------------------- batches

  /** One file of phase 2: its bytes pushed, its hash record made. */
  method SendFile(P: Params, bw: BufWriter, f: FileSpec, bufSize: nat, faulty: bool)
    returns (ok: bool, record: Record, bytes: nat)
    requires bw.Valid() && bufSize > 0
    modifies bw, bw.buf
    ensures bw.Valid() && Grew(bw, f.content, ok) && (!ok ==> faulty || bw.broken)
    ensures (ok ==> record == HashRecord(P, f) && bytes == |f.content|) && bytes <= |f.content|
  {
    hide Concat, Hashes, Pieces;
    var hash;
    var table: seq<Digest> := [];
    assert f.content[..|f.content|] == f.content;
    if |f.content| > P.chunk {
      PiecesAreChunks(f.content, P.chunk);
      ok, hash, table, bytes := SendBigFile(P, bw, f.content, |f.content|, bufSize, faulty);
    } else {
      ok, hash, bytes := SendSmallFile(P, bw, f.content, bufSize, faulty);
    }
    record := Record(f.name, |f.content|, hash, table);
  }

  /** A header line, flushed at once. */
  method PushLine(bw: BufWriter, line: seq<byte>) returns (ok: bool)
    requires bw.Valid()
    modifies bw, bw.buf
    ensures bw.Valid() && Grew(bw, line, ok) && (!ok ==> bw.broken)
    ensures ok && line != [] ==> !bw.broken && bw.sent == bw.Pushed()
  {
    ok := bw.Push(line);
    if ok {
      ok := bw.Flush();
    }
  }

  method FlushNow(bw: BufWriter) returns (ok: bool)
    requires bw.Valid()
    modifies bw, bw.buf
    ensures bw.Valid() && Grew(bw, [], ok) && (ok ==> bw.sent == bw.Pushed()) && (!ok ==> bw.broken)
  {
    ghost var start := bw.Pushed();
    assert start + [] == start;
    ok := bw.Flush();
  }

  lemma {:induction false} EncodeAllSnoc(rs: seq<Record>, r: Record)
    ensures EncodeAll(rs + [r]) == EncodeAll(rs) + Encode(r)
  {
    hide Encode;
    if rs == [] {
      assert [] + [r] == [r];
      assert EncodeAll([r]) == Encode(r) + EncodeAll([]);
    } else {
      assert (rs + [r])[1..] == rs[1..] + [r];
      EncodeAllSnoc(rs[1..], r);
    }
  }

  lemma {:induction false} EncodeAllAppend(a: seq<Record>, b: seq<Record>)
    ensures EncodeAll(a + b) == EncodeAll(a) + EncodeAll(b)
  {
    hide Encode;
    if a == [] {
      assert a + b == b;
    } else {
      assert (a + b)[1..] == a[1..] + b && (a + b)[0] == a[0];
      EncodeAllAppend(a[1..], b);
    }
  }

  /** The records of a batch, one after the other. */
  method SendRecords(bw: BufWriter, records: seq<Record>) returns (ok: bool)
    requires bw.Valid()
    modifies bw, bw.buf
    ensures bw.Valid() && Grew(bw, EncodeAll(records), ok) && (!ok ==> bw.broken)
  {
    hide Encode;
    ghost var start := bw.Pushed();
    assert records[..0] == [] && start + EncodeAll([]) == start;
    for i := 0 to |records|
      invariant bw.Valid() && bw.buf == old(bw.buf) && bw.Pushed() == start + EncodeAll(records[..i]) &&
        bw.broken == old(bw.broken)
      invariant old(bw.broken) ==> bw.sent == old(bw.sent)
    {
      ghost var done := EncodeAll(records[..i]);
      assert records[..i + 1] == records[..i] + [records[i]];
      EncodeAllSnoc(records[..i], records[i]);
      ok := SendEntry(bw, records[i]);
      assert start + done + Encode(records[i]) == start + EncodeAll(records[..i + 1]);
      if !ok {
        assert records == records[..i + 1] + records[i + 1..];
        EncodeAllAppend(records[..i + 1], records[i + 1..]);
        Longer(bw.sent, start, EncodeAll(records[..i + 1]), EncodeAll(records[i + 1..]));
        return;
      }
    }
    assert records[..|records|] == records;
    ok := true;
  }

  lemma {:induction false} ContentsAppend(a: seq<FileSpec>, b: seq<FileSpec>)
    ensures Contents(a + b) == Contents(a) + Contents(b)
  {
    if a == [] {
      assert a + b == b;
    } else {
      assert (a + b)[1..] == a[1..] + b && (a + b)[0] == a[0];
      ContentsAppend(a[1..], b);
    }
  }

  lemma ContentsOfOne(f: FileSpec)
    ensures Contents([f]) == f.content && BytesIn([f]) == |f.content|
  {
    assert [f][1..] == [];
  }

  /** The paths of the files fit their buffer. */
  predicate FilesFit(fullpath: seq<byte>, files: seq<FileSpec>) {
    forall i :: 0 <= i < |files| ==> |Slashed(fullpath)| + |files[i].name| < PATH_MAX
  }

  /** Phase 2: the data of the files of a batch in order, and the records for phase 3. */
  method SendData(P: Params, bw: BufWriter, fullpath: seq<byte>, files: seq<FileSpec>, bufSize: nat, faulty: bool)
    returns (ok: bool, records: seq<Record>, bytes: nat)
    requires bw.Valid() && bufSize > 0
    modifies bw, bw.buf
    ensures bw.Valid() && Grew(bw, Contents(files), ok)
    ensures if ok then FilesFit(fullpath, files) else faulty || bw.broken || !FilesFit(fullpath, files)
    ensures ok ==> records == HashRecords(P, files) && bytes == BytesIn(files)
    ensures |records| <= |files| && bytes <= BytesIn(files)
  {
    hide HashRecord, Contents, BytesIn;
    ghost var start := bw.Pushed();
    records, bytes := [], 0;
    assert files[..0] == [] && start + Contents([]) == start && BytesIn([]) == 0 by { NoContents(); }
    for i := 0 to |files|
      invariant bw.Valid() && bw.buf == old(bw.buf) && bw.Pushed() == start + Contents(files[..i]) &&
        bw.broken == old(bw.broken)
      invariant old(bw.broken) ==> bw.sent == old(bw.sent)
      invariant records == HashRecords(P, files[..i]) && bytes == BytesIn(files[..i])
      invariant FilesFit(fullpath, files[..i])
    {
      ghost var done := Contents(files[..i]);
      assert files[..i + 1] == files[..i] + [files[i]];
      ContentsAppend(files[..i], [files[i]]);
      BytesInAppend(files[..i], [files[i]]);
      ContentsOfOne(files[i]);
      assert start + done + files[i].content == start + Contents(files[..i + 1]);
      if PathJoin(fullpath, files[i].name, PATH_MAX).None? {
        assert files == files[..i] + files[i..];
        ContentsAppend(files[..i], files[i..]);
        Longer(bw.sent, start, done, Contents(files[i..]));
        BytesInAppend(files[..i], files[i..]);
        ok := false;
        return;
      }
      var record, n;
      ok, record, n := SendFile(P, bw, files[i], bufSize, faulty);
      bytes := bytes + n;
      if !ok {
        assert files == files[..i + 1] + files[i + 1..];
        ContentsAppend(files[..i + 1], files[i + 1..]);
        Longer(bw.sent, start, Contents(files[..i + 1]), Contents(files[i + 1..]));
        BytesInAppend(files[..i + 1], files[i + 1..]);
        return;
      }
      records := records + [record];
    }
    assert files[..|files|] == files;
    ok := true;
  }

  lemma NoContents()
    ensures Contents([]) == [] && BytesIn([]) == 0
  {
  }

  /** Header lines, then records, then a flush: the shape of phases 1 and 3. */
  method SendSection(bw: BufWriter, lines: seq<seq<byte>>, records: seq<Record>) returns (ok: bool)
    requires bw.Valid()
    modifies bw, bw.buf
    ensures bw.Valid() && Grew(bw, Flatten(lines) + EncodeAll(records), ok)
    ensures if ok then bw.sent == bw.Pushed() else bw.broken
  {
    hide EncodeAll, Flatten;
    ghost var start, whole := bw.Pushed(), Flatten(lines) + EncodeAll(records);
    assert lines[..0] == [] && start + Flatten([]) == start by { NoLines(); }
    for i := 0 to |lines|
      invariant bw.Valid() && bw.buf == old(bw.buf) && bw.Pushed() == start + Flatten(lines[..i]) &&
        bw.broken == old(bw.broken)
      invariant old(bw.broken) ==> bw.sent == old(bw.sent)
    {
      LinesSplit(lines, i);
      ok := PushLine(bw, lines[i]);
      assert start + Flatten(lines[..i]) + lines[i] == start + Flatten(lines[..i + 1]);
      if !ok {
        Longer(bw.sent, start, Flatten(lines[..i + 1]), Flatten(lines[i + 1..]));
        Longer(bw.sent, start, Flatten(lines), EncodeAll(records));
        return;
      }
    }
    assert lines[..|lines|] == lines;
    ok := SendRecords(bw, records);
    assert start + Flatten(lines) + EncodeAll(records) == start + whole;
    if ok {
      ok := FlushNow(bw);
      assert start + whole + [] == start + whole;
    }
  }

  lemma NoLines()
    ensures Flatten([]) == []
  {
  }

  lemma {:induction false} FlattenAppend(a: seq<seq<byte>>, b: seq<seq<byte>>)
    ensures Flatten(a + b) == Flatten(a) + Flatten(b)
  {
    if a == [] {
      assert a + b == b;
    } else {
      assert (a + b)[1..] == a[1..] + b && (a + b)[0] == a[0];
      FlattenAppend(a[1..], b);
    }
  }

  lemma LinesSplit(lines: seq<seq<byte>>, i: nat)
    requires i < |lines|
    ensures Flatten(lines[..i + 1]) == Flatten(lines[..i]) + lines[i]
    ensures Flatten(lines) == Flatten(lines[..i + 1]) + Flatten(lines[i + 1..])
  {
    hide Flatten;
    SplitAt(lines, i);
    FlattenAppend(lines[..i], [lines[i]]);
    FlattenAppend(lines[..i + 1], lines[i + 1..]);
    FlattenOne(lines[i]);
  }

  function HeadLines(n: nat): seq<seq<byte>> { [Ascii("FILE_LIST") + [LF], CountLine(n) + [LF]] }

  /** A batch is its head and announcements, its data, and its hash section. */
  lemma BatchParts(P: Params, files: seq<FileSpec>)
    ensures BatchBytes(P, files) ==
      (Flatten(HeadLines(|files|)) + EncodeAll(MetaRecords(files))) + Contents(files) +
      (Flatten([HashCountLine(|files|) + [LF]]) + EncodeAll(HashRecords(P, files)))
  {
    hide Ascii, CountLine, HashCountLine, EncodeAll, Contents, MetaRecords, HashRecords, Flatten;
    FlattenTwo(Ascii("FILE_LIST") + [LF], CountLine(|files|) + [LF]);
    FlattenOne(HashCountLine(|files|) + [LF]);
    RegroupBatch(Ascii("FILE_LIST"), CountLine(|files|), EncodeAll(MetaRecords(files)), Contents(files),
                 HashCountLine(|files|), EncodeAll(HashRecords(P, files)), [LF]);
  }

  lemma RegroupBatch(x: seq<byte>, y: seq<byte>, m: seq<byte>, c: seq<byte>, z: seq<byte>, h: seq<byte>, l: seq<byte>)
    ensures x + l + y + l + m + c + z + l + h == ((x + l) + (y + l) + m) + c + ((z + l) + h)
  {
    assert x + l + y + l + m == (x + l) + (y + l) + m;
    var front := x + l + y + l + m + c;
    assert front + z + l + h == front + ((z + l) + h);
  }

  lemma FlattenOne(x: seq<byte>)
    ensures Flatten([x]) == x
  {
    assert Flatten([x]) == x + Flatten([x][1..]);
  }

  lemma FlattenTwo(x: seq<byte>, y: seq<byte>)
    ensures Flatten([x, y]) == x + y
  {
    assert [x, y] == [x] + [y];
    FlattenAppend([x], [y]);
    FlattenOne(x);
    FlattenOne(y);
  }

  /** The three phases of a batch. */
  method SendBatch(P: Params, bw: BufWriter, fullpath: seq<byte>, files: seq<FileSpec>, bufSize: nat, faulty: bool)
    returns (ok: bool, count: nat, bytes: nat)
    requires bw.Valid() && bufSize > 0
    modifies bw, bw.buf
    ensures bw.Valid() && Grew(bw, BatchBytes(P, files), ok) && (ok ==> bw.sent == bw.Pushed())
    ensures if ok then FilesFit(fullpath, files) else faulty || bw.broken || !FilesFit(fullpath, files)
    ensures (ok ==> count == |files| && bytes == BytesIn(files)) && count <= |files| && bytes <= BytesIn(files)
  {
    hide Flatten, HeadLines, HashCountLine, EncodeAll, Contents, MetaRecords, HashRecords, BatchBytes, BytesIn;
    ghost var start := bw.Pushed();
    ghost var m := Flatten(HeadLines(|files|)) + EncodeAll(MetaRecords(files));
    ghost var c := Contents(files);
    ghost var h := Flatten([HashCountLine(|files|) + [LF]]) + EncodeAll(HashRecords(P, files));
    BatchParts(P, files);
    assert m + c + h == m + (c + h);
    count, bytes := 0, 0;
    ok := SendSection(bw, HeadLines(|files|), MetaRecords(files));
    if !ok {
      Longer(bw.sent, start, m, c + h);
      return;
    }
    var records;
    ok, records, bytes := SendData(P, bw, fullpath, files, bufSize, faulty);
    count := |records|;
    assert start + m + c == start + (m + c);
    if !ok {
      Longer(bw.sent, start, m + c, h);
      return;
    }
    ok := FlushNow(bw);
    assert start + (m + c) + [] == start + (m + c);
    if !ok {
      Longer(bw.sent, start, m + c, h);
      return;
    }
    ok := SendSection(bw, [HashCountLine(|files|) + [LF]], records);
    assert start + (m + c) + h == start + (m + c + h);
  }

  // ---------------------------------------------------------------- directories

  lemma {:induction false} PlanBytesAppend(P: Params, a: Plan, b: Plan)
    ensures PlanBytes(P, a + b) == PlanBytes(P, a) + PlanBytes(P, b)
  {
    hide CommandBytes;
    if a == [] {
      assert a + b == b;
    } else {
      assert (a + b)[1..] == a[1..] + b && (a + b)[0] == a[0];
      PlanBytesAppend(P, a[1..], b);
    }
  }

  function BatchesBytes(P: Params, batches: seq<seq<FileSpec>>): seq<byte> {
    if batches == [] then [] else BatchBytes(P, batches[0]) + BatchesBytes(P, batches[1..])
  }

  lemma {:induction false} BatchCommandBytes(P: Params, dir: Path, batches: seq<seq<FileSpec>>)
    ensures PlanBytes(P, BatchCommands(dir, batches)) == BatchesBytes(P, batches)
  {
    hide BatchBytes;
    if batches != [] {
      var cmds := BatchCommands(dir, batches);
      assert cmds[0] == Batch(dir, batches[0]) && cmds[1..] == BatchCommands(dir, batches[1..]);
      BatchCommandBytes(P, dir, batches[1..]);
    }
  }

  lemma DirBytes(P: Params, lim: Limits, dir: Path, files: seq<FileSpec>)
    requires files != []
    ensures PlanBytes(P, DirCommands(lim, dir, files)) == DirectoryLine(dir) + [LF] +
      BatchesBytes(P, Batches(lim, files))
  {
    hide DirectoryLine, Batches, BatchesBytes;
    var cmds := DirCommands(lim, dir, files);
    assert cmds[0] == Enter(dir) && cmds[1..] == BatchCommands(dir, Batches(lim, files));
    BatchCommandBytes(P, dir, Batches(lim, files));
  }

  /** The batches of a directory, greedily cut and sent one after the other. */
  method SendBatches(P: Params, bw: BufWriter, lim: Limits, fullpath: seq<byte>, files: seq<FileSpec>, bufSize: nat,
      faulty: bool) returns (ok: bool, sentFiles: nat, sentBytes: nat)
    requires bw.Valid() && bufSize > 0
    modifies bw, bw.buf
    ensures bw.Valid() && Grew(bw, BatchesBytes(P, Batches(lim, files)), ok)
    ensures if ok then FilesFit(fullpath, files) else faulty || bw.broken || !FilesFit(fullpath, files)
    ensures ok && old(bw.sent) == old(bw.Pushed()) ==> bw.sent == bw.Pushed()
    ensures (ok ==> sentFiles == |files| && sentBytes == BytesIn(files)) && sentFiles <= |files| &&
      sentBytes <= BytesIn(files)
  {
    hide BatchBytes, BytesIn, Batches, BatchesBytes, BatchLength, FilesFit;
    assert FilesFit(fullpath, files[..0]) by { NoneUnfit(fullpath); }
    ghost var start, whole := bw.Pushed(), BatchesBytes(P, Batches(lim, files));
    ghost var done: seq<byte> := [];
    var fileIndex := 0;
    sentFiles, sentBytes := 0, 0;
    assert start + [] == start && files[0..] == files && files[..0] == [] && [] + whole == whole;
    NoContents();
    while fileIndex < |files|
      invariant fileIndex <= |files| && sentFiles == fileIndex && sentBytes == BytesIn(files[..fileIndex])
      invariant FilesFit(fullpath, files[..fileIndex])
      invariant whole == done + BatchesBytes(P, Batches(lim, files[fileIndex..]))
      invariant bw.Valid() && bw.buf == old(bw.buf) && bw.Pushed() == start + done && bw.broken == old(bw.broken)
      invariant old(bw.broken) ==> bw.sent == old(bw.sent)
      invariant old(bw.sent) == old(bw.Pushed()) ==> bw.sent == bw.Pushed()
    {
      var batchFiles, batchBytes := BuildBatch(lim, files, fileIndex);
      var batch := files[fileIndex..fileIndex + batchFiles];
      NextBatch(P, lim, files, fileIndex, batchFiles);
      ghost var rest := BatchesBytes(P, Batches(lim, files[fileIndex + batchFiles..]));
      var k, n;
      ok, k, n := SendBatch(P, bw, fullpath, batch, bufSize, faulty);
      MoreFit(fullpath, files, fileIndex, fileIndex + batchFiles);
      sentFiles, sentBytes := sentFiles + k, sentBytes + n;
      assert start + done + BatchBytes(P, batch) == start + (done + BatchBytes(P, batch));
      assert done + (BatchBytes(P, batch) + rest) == done + BatchBytes(P, batch) + rest;
      if !ok {
        Longer(bw.sent, start, done + BatchBytes(P, batch), rest);
        assert files == files[..fileIndex + batchFiles] + files[fileIndex + batchFiles..];
        BytesInAppend(files[..fileIndex + batchFiles], files[fileIndex + batchFiles..]);
        return;
      }
      done := done + BatchBytes(P, batch);
      fileIndex := fileIndex + batchFiles;
    }
    NothingLeft(P, lim, files, fileIndex);
    assert done + [] == done && files[..|files|] == files;
    return true, sentFiles, sentBytes;
  }

  lemma NoneUnfit(fullpath: seq<byte>)
    ensures FilesFit(fullpath, [])
  {
  }

  lemma MoreFit(fullpath: seq<byte>, files: seq<FileSpec>, i: nat, j: nat)
    requires i <= j <= |files|
    ensures FilesFit(fullpath, files) ==> FilesFit(fullpath, files[i..j])
    ensures FilesFit(fullpath, files[..i]) && FilesFit(fullpath, files[i..j]) ==> FilesFit(fullpath, files[..j])
  {
    assert files[..j] == files[..i] + files[i..j];
    assert forall k :: 0 <= k < j - i ==> files[i..j][k] == files[i + k];
  }

  lemma NextBatch(P: Params, lim: Limits, files: seq<FileSpec>, i: nat, n: nat)
    requires i < |files| && n == BatchLength(lim, files[i..])
    ensures i + n <= |files| && n > 0
    ensures BatchesBytes(P, Batches(lim, files[i..])) ==
      BatchBytes(P, files[i..i + n]) + BatchesBytes(P, Batches(lim, files[i + n..]))
    ensures BytesIn(files[..i + n]) == BytesIn(files[..i]) + BytesIn(files[i..i + n])
  {
    hide BatchBytes, BytesIn, BatchLength;
    BatchesCons(lim, files[i..]);
    assert files[i..][..n] == files[i..i + n] && files[i..][n..] == files[i + n..];
    assert files[..i + n] == files[..i] + files[i..i + n];
    BytesInAppend(files[..i], files[i..i + n]);
  }

  lemma NothingLeft(P: Params, lim: Limits, files: seq<FileSpec>, i: nat)
    requires i == |files|
    ensures BatchesBytes(P, Batches(lim, files[i..])) == []
  {
    assert files[i..] == [];
  }

  /** Announce the directory, then send its files in batches. A directory without files is not announced. */
  method ProcessDirectory(P: Params, bw: BufWriter, lim: Limits, ghost dir: Path, relpath: seq<byte>,
      fullpath: seq<byte>, files: seq<FileSpec>, bufSize: nat, faulty: bool)
    returns (ok: bool, sentFiles: nat, sentBytes: nat)
    requires bw.Valid() && bufSize > 0 && relpath == Join(dir)
    modifies bw, bw.buf
    ensures bw.Valid() && Grew(bw, PlanBytes(P, DirCommands(lim, dir, files)), ok)
    ensures ok ==> FilesFit(fullpath, files)
    ensures !ok && |relpath| < PATH_MAX ==> faulty || bw.broken || !FilesFit(fullpath, files)
    ensures ok && old(bw.sent) == old(bw.Pushed()) ==> bw.sent == bw.Pushed()
    ensures (ok ==> sentFiles == |files| && sentBytes == BytesIn(files)) && sentFiles <= |files| &&
      sentBytes <= BytesIn(files)
  {
    hide PlanBytes, Batches, BatchesBytes, Join, FilesFit;
    NoneUnfit(fullpath);
    ghost var start := bw.Pushed();
    sentFiles, sentBytes := 0, 0;
    if files == [] {
      NoPlan(P);
      assert start + [] == start;
      NoContents();
      return true, 0, 0;
    }
    DirBytes(P, lim, dir, files);
    var line := Ascii("DIRECTORY: ") + relpath + [LF];
    ghost var rest := BatchesBytes(P, Batches(lim, files));
    if |line| >= PATH_MAX + 32 {
      assert bw.Pushed() <= start + (line + rest);
      return false, 0, 0;
    }
    ok := PushLine(bw, line);
    if !ok {
      Longer(bw.sent, start, line, rest);
      return;
    }
    ok, sentFiles, sentBytes := SendBatches(P, bw, lim, fullpath, files, bufSize, faulty);
    assert start + line + rest == start + (line + rest);
  }

  lemma NoPlan(P: Params)
    ensures PlanBytes(P, []) == []
  {
  }
}
