/** The Android sender's chunk loop, and what its empty leading batch does to a transfer. */
module AndroidSending {
  import opened Bytes
  import opened Digests
  import opened Protocol
  import opened Snapshot
  import opened RoundTrip
  import opened Batching
  import SafeMode

  /**
   * The hash tables as the loop goes through the content: the chunk being filled starts at `from`, and the hashes
   * stored so far are those of the chunks before it.
   */
  ghost predicate Filling(P: Params, content: seq<byte>, from: nat, at: nat, table: seq<Digest>) {
    from <= at <= |content| && at - from < P.chunk &&
    ChunkHashes(P.H, P.chunk, content) == table + ChunkHashes(P.H, P.chunk, content[from..])
  }

  /** A chunk is complete, or the last one ends with the content. */
  lemma ChunkFilled(P: Params, content: seq<byte>, from: nat, at: nat, table: seq<Digest>)
    requires from < at <= |content| &&
      ChunkHashes(P.H, P.chunk, content) == table + ChunkHashes(P.H, P.chunk, content[from..])
    requires at - from == P.chunk || (at == |content| && at - from < P.chunk)
    ensures Filling(P, content, at, at, table + [P.H(content[from..at])])
  {
    hide ChunkHashes;
    SafeMode.ChunksFrom(P, content, from, at - from);
    var rest := ChunkHashes(P.H, P.chunk, content[at..]);
    assert table + [P.H(content[from..at])] + rest == table + ([P.H(content[from..at])] + rest);
  }

  lemma StartFilling(P: Params, content: seq<byte>)
    ensures Midway(P, content, 0, [], [], [])
  {
    assert content[0..] == content;
  }

  lemma AllFilled(P: Params, content: seq<byte>, table: seq<Digest>)
    requires Filling(P, content, |content|, |content|, table)
    ensures table == ChunkHashes(P.H, P.chunk, content)
  {
    assert content[|content|..] == [];
    SafeMode.NoChunks(P);
  }

  /** The state of the loop: what was sent is the front of the content, what is being hashed the chunk so far. */
  ghost predicate Midway(P: Params, content: seq<byte>, from: nat, sent: seq<byte>, hashed: seq<byte>,
      table: seq<Digest>) {
    |sent| <= |content| && sent == content[..|sent|] && from + |hashed| == |sent| && hashed == content[from..|sent|] &&
    Filling(P, content, from, |sent|, table)
  }

  lemma SliceOfSlice(content: seq<byte>, begin: nat, end: nat, i: nat, j: nat)
    requires begin <= end <= |content| && i <= j <= end - begin
    ensures content[begin..end][i..j] == content[begin + i..begin + j]
  {
    var block := content[begin..end];
    assert forall k :: i <= k < j ==> block[i..j][k - i] == block[k] == content[begin + k];
  }

  /** One piece more, no longer than the chunk has room for. */
  lemma PieceTaken(P: Params, content: seq<byte>, from: nat, sent: seq<byte>, hashed: seq<byte>, table: seq<Digest>,
      piece: seq<byte>)
    requires Midway(P, content, from, sent, hashed, table)
    requires piece != [] && |sent| + |piece| <= |content| && piece == content[|sent|..|sent| + |piece|]
    requires |hashed| + |piece| <= P.chunk
    ensures |hashed| + |piece| < P.chunk ==> Midway(P, content, from, sent + piece, hashed + piece, table)
    ensures |hashed| + |piece| == P.chunk ==>
      Midway(P, content, |sent| + |piece|, sent + piece, [], table + [P.H(hashed + piece)])
  {
    hide ChunkHashes;
    var at := |sent| + |piece|;
    assert sent + piece == content[..at] && hashed + piece == content[from..at];
    if |hashed| + |piece| == P.chunk {
      ChunkFilled(P, content, from, at, table);
    }
  }

  /** At the end the last, partial, chunk is hashed too. */
  lemma LastPiece(P: Params, content: seq<byte>, from: nat, sent: seq<byte>, hashed: seq<byte>, table: seq<Digest>)
    requires Midway(P, content, from, sent, hashed, table) && |sent| == |content|
    ensures sent == content &&
      (if hashed != [] then table + [P.H(hashed)] else table) == ChunkHashes(P.H, P.chunk, content)
  {
    hide ChunkHashes;
    if hashed != [] {
      ChunkFilled(P, content, from, |content|, table);
      AllFilled(P, content, table + [P.H(hashed)]);
    } else {
      AllFilled(P, content, table);
    }
  }

  /**
   * Reads that do not stop at chunk boundaries: each block read is cut where chunks end, sent piece by piece and
   * hashed. (`toInt` keeps the chunk size, which is below 2^31.)
   */
  method SendFileDataChunk(P: Params, content: seq<byte>, bufSize: nat)
    returns (sent: seq<byte>, table: seq<Digest>, hash: Digest)
    requires bufSize > 0 && P.chunk < 0x8000_0000
    ensures sent == content && table == ChunkHashes(P.H, P.chunk, content) &&
      hash == P.H(Concat(ChunkHashes(P.H, P.chunk, content)))
  {
    hide ChunkHashes, Concat, Midway;
    sent, table := [], [];
    var chunkDigest: seq<byte>, bytesInChunk := [], 0;
    ghost var from: nat := 0;
    StartFilling(P, content);
    var read: nat := SafeMode.FileRead(content, |sent|, bufSize);
    while read > 0
      invariant |sent| + read <= |content| && (read == 0 <==> |sent| == |content|)
      invariant Midway(P, content, from, sent, chunkDigest, table) && bytesInChunk == |chunkDigest| < P.chunk
      decreases |content| - |sent|
    {
      var buf := content[|sent|..|sent| + read];
      ghost var begin := |sent|;
      var offset := 0;
      while offset < read
        invariant offset <= read && |sent| == begin + offset
        invariant Midway(P, content, from, sent, chunkDigest, table) && bytesInChunk == |chunkDigest| < P.chunk
      {
        var remainingChunk := P.chunk - bytesInChunk;
        var toProcess := if remainingChunk < read - offset then remainingChunk else read - offset;
        var piece := buf[offset..offset + toProcess];
        SliceOfSlice(content, begin, begin + read, offset, offset + toProcess);
        PieceTaken(P, content, from, sent, chunkDigest, table, piece);
        chunkDigest, sent := chunkDigest + piece, sent + piece;
        bytesInChunk, offset := bytesInChunk + toProcess, offset + toProcess;
        if bytesInChunk == P.chunk {
          from := |sent|;
          table := table + [P.H(chunkDigest)];
          chunkDigest, bytesInChunk := [], 0;
        }
      }
      read := SafeMode.FileRead(content, |sent|, bufSize);
    }
    LastPiece(P, content, from, sent, chunkDigest, table);
    if bytesInChunk > 0 {
      table := table + [P.H(chunkDigest)];
    }
    hash := RootOf(P, table);
  }

  /** The root: the hash of the chunk hashes, fed one after the other. */
  method RootOf(P: Params, table: seq<Digest>) returns (hash: Digest)
    ensures hash == P.H(Concat(table))
  {
    var fed: seq<byte> := [];
    assert table[..0] == [];
    SafeMode.NoChunks(P);
    for i := 0 to |table|
      invariant fed == Concat(table[..i])
    {
      assert table[..i + 1] == table[..i] + [table[i]];
      SafeMode.ConcatSnoc(table[..i], table[i]);
      fed := fed + table[i];
    }
    assert table[..|table|] == table;
    hash := P.H(fed);
  }

  // ---------------------------------------------------------------- the empty leading batch

  /** The Android batches are the C sender's exactly when the first file alone is within the limit. */
  lemma OnePassIsGreedy(lim: Limits, entries: seq<FileSpec>)
    ensures OnePass(lim, entries) == Batches(lim, entries) <==> entries == [] || |entries[0].content| <= lim.maxBytes
    ensures OnePass(lim, entries) != Batches(lim, entries) ==> OnePass(lim, entries)[0] == []
  {
    hide Batches;
    assert |[[]] + Batches(lim, entries)| == |Batches(lim, entries)| + 1;
  }

  /** A batch of no files is one the receiver gives up on, whatever follows it. */
  lemma EmptyBatchRejected(P: Params, rx: Rx, rest: seq<byte>)
    requires rx.phase == Idle && rx.input == Ascii("FILE_LIST") + [LF] + (CountLine(0) + [LF] + rest)
    ensures Run(P, rx) == Failed(rx.fs)
  {
    hide Ascii, CountLine, ReadLine, ScanSize, CStr, Run;
    ListResult(P, rx, CountLine(0) + [LF] + rest);
    CountRead(0, rest);
    var counted := rx.(phase := FileCount, input := CountLine(0) + [LF] + rest);
    var meta := rx.(phase := Metadata, count := 0, received := 0, entries := [], index := 0, input := rest);
    assert Step(P, counted) == Go(meta);
    RunOne(P, rx);
    RunOne(P, counted);
    RunOne(P, meta);
    RunOne(P, meta.(phase := FileData));
  }

  lemma RunOne(P: Params, rx: Rx)
    ensures Run(P, rx) == match Step(P, rx) case Go(next) => Run(P, next) case stopped => stopped
  {
    hide Step;
    if Step(P, rx).Go? { StepProgress(P, rx); }
  }

  /** So a directory whose first file is over the limit cannot be delivered in the Android sender's batches. */
  lemma OversizeFirstRejected(P: Params, rx: Rx, lim: Limits, entries: seq<FileSpec>, rest: seq<byte>)
    requires entries != [] && |entries[0].content| > lim.maxBytes
    requires rx.phase == Idle && rx.input == BatchBytes(P, OnePass(lim, entries)[0]) + rest
    ensures Run(P, rx) == Failed(rx.fs)
  {
    hide Run, Batches, Ascii, CountLine, HashCountLine;
    var first: seq<FileSpec> := [];
    assert OnePass(lim, entries)[0] == first;
    var tail := HashCountLine(0) + [LF] + rest;
    assert MetaRecords(first) == [] && HashRecords(P, first) == [];
    assert rx.input == Ascii("FILE_LIST") + [LF] + (CountLine(0) + [LF] + tail);
    EmptyBatchRejected(P, rx, tail);
  }
}
