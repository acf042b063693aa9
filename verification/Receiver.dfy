/** The receiver as it is written: an object stepped by its driver, proved to follow the protocol. */
module Receiving {
  import opened Bytes
  import opened Digests
  import opened Codec
  import opened FileSystem
  import opened Protocol
  import opened ChunkTables
  import SafeMode

  const MAX_OPEN_FILES: nat := 32

  /** A handler's return: 0, -1, or exit(0). */
  datatype Return = Continue | Fail | Exit(sawEnd: bool)

  /** The object is in the state an outcome prescribes. */
  ghost predicate Matches(o: Outcome, ret: Return, now: Rx) {
    match o
    case Go(rx) => ret == Continue && now == rx
    case Failed(fs) => ret == Fail && now.fs == fs
    case Exited(rx, sawEnd) => ret == Exit(sawEnd) && now == rx
  }

  /** What one call of the dispatcher amounts to: a step, or in the three batch phases steps to the end of the phase. */
  ghost function Call(P: Params, rx: Rx): Outcome {
    if rx.phase in {Metadata, FileData, FileHashes} then Handler(P, rx, rx.phase) else Step(P, rx)
  }

  /** What the handlers find when they are called. */
  ghost predicate Ready(rx: Rx) {
    match rx.phase
    case Metadata => rx.entries == [] && rx.index == 0 && rx.received == 0 && rx.count <= rx.capacity
    case FileData => |rx.entries| == rx.count && rx.index == 0 && rx.received == 0
    case HashCount => |rx.entries| == rx.count && rx.received == 0
    case FileHashes => |rx.entries| == rx.count && rx.index == 0 && rx.received == 0
    case _ => true
  }

  class Receiver {
    const P: Params
    const bufSize: nat
    var phase: Phase
    var mode: Mode
    var dir: seq<byte>
    var count: nat
    var entries: seq<Entry>
    var capacity: nat
    ghost var index: nat
    var received: nat
    var totalFiles: nat
    var totalBytes: nat
    var statBytes: nat
    var statFiles: nat
    var fs: FS
    var tape: seq<Name>
    var input: seq<byte>
    var openFiles: nat
    /** The most output files that have been open at once. */
    ghost var peak: nat

    ghost function View(): Rx reads this {
      Rx(phase, mode, dir, count, entries, capacity, index, received, totalFiles, totalBytes, statBytes, statFiles,
        fs, tape, input)
    }

    constructor (P: Params, bufSize: nat, fs: FS, tape: seq<Name>, dir: seq<byte>, input: seq<byte>)
      ensures this.P == P && this.bufSize == bufSize && View() == Start(fs, tape, dir, input) && openFiles == 0 &&
        peak == 0
    {
      this.P, this.bufSize := P, bufSize;
      phase, mode, this.dir := Version, Append, dir;
      count, entries, capacity, index, received := 0, [], 0, 0, 0;
      totalFiles, totalBytes, statBytes, statFiles := 0, 0, 0, 0;
      this.fs, this.tape, this.input := fs, tape, input;
      openFiles, peak := 0, 0;
    }

    // -------------------------------------------------------------- reading

    /** Byte by byte until a newline, a full buffer or the end of the stream. */
    method ReadLineInto(size: nat) returns (ok: bool, line: seq<byte>)
      requires size > 1
      modifies this`input
      ensures ok <==> ReadLine(old(input), size).Some?
      ensures ok ==> line == CStr(ReadLine(old(input), size).value.0) && input == ReadLine(old(input), size).value.1
    {
      ghost var start := input;
      var buf: seq<byte> := [];
      while |buf| + 1 < size
        invariant |buf| + 1 <= size && |buf| <= |start|
        invariant buf == start[..|buf|] && input == start[|buf|..]
        invariant LineLength(start, size - 1) == |buf| + LineLength(input, size - 1 - |buf|)
      {
        if input == [] {
          if buf == [] { return false, []; }
          break;
        }
        var c := input[0];
        if c == LF {
          input := input[1..];
          assert start[|buf|..][1..] == start[|buf| + 1..];
          return true, CStr(buf);
        }
        assert start[..|buf| + 1] == buf + [c];
        input := input[1..];
        assert start[|buf|..][1..] == start[|buf| + 1..];
        buf := buf + [c];
      }
      assert |buf| == |start| ==> start[..|start|] == start;
      return true, CStr(buf);
    }

    /** Read exactly `n` bytes, in as many reads as the stream takes. */
    method ReadFull(n: nat) returns (ok: bool, data: seq<byte>)
      modifies this`input
      ensures ok <==> Take(old(input), n).Some?
      ensures ok ==> (data, input) == Take(old(input), n).value
    {
      ghost var start := input;
      data := [];
      while |data| < n
        invariant |data| <= n && |data| <= |start| && data == start[..|data|] && input == start[|data|..]
      {
        if input == [] { return false, data; }
        var most := if n - |data| < |input| then n - |data| else |input|;
        var r: nat :| 1 <= r <= most;
        assert start[..|data| + r] == data + input[..r] && start[|data|..][r..] == start[|data| + r..];
        data := data + input[..r];
        input := input[r..];
      }
      return true, data;
    }

    /** The fields of a record in stream order, each read in full. */
    method ReadRecord() returns (r: Option<Record>)
      modifies this`input
      ensures Decode(old(input)).None? ==> r.None?
      ensures Decode(old(input)).Some? ==> r == Some(Decode(old(input)).value.0) && input == Decode(old(input)).value.1
    {
      var ok, lengthBytes := ReadFull(2);
      if !ok { return None; }
      var length := FromBigEndian(lengthBytes);
      if length > NAME_MAX { return None; }
      var name, sizeBytes, hash, countBytes, table;
      ok, name := ReadFull(length);
      if !ok { return None; }
      ok, sizeBytes := ReadFull(8);
      if !ok { return None; }
      ok, hash := ReadFull(DIGEST_LENGTH);
      if !ok { return None; }
      ok, countBytes := ReadFull(8);
      if !ok { return None; }
      var n := FromBigEndian(countBytes);
      ok, table := ReadFull(DIGEST_LENGTH * n);
      if !ok { return None; }
      return Some(Record(CStr(name), FromBigEndian(sizeBytes), hash, Split(table, n)));
    }

    // -------------------------------------------------------------- header lines

    method HandleVersion() returns (ret: Return)
      requires phase == Version
      modifies this
      ensures Matches(StepVersion(old(View())), ret, View()) && openFiles == old(openFiles) && peak == old(peak)
    {
      hide ReadLine, CStr, ScanSize, ScanInt32, SkipSpaces, ParseMode;
      var ok, line := ReadLineInto(VERSION_LINE);
      if !ok || ScanInt32(line, Ascii("VERSION:")) != Some(0) { return Fail; }
      phase := ModeLine;
      return Continue;
    }

    method HandleMode() returns (ret: Return)
      requires phase == ModeLine
      modifies this
      ensures Matches(StepMode(old(View())), ret, View()) && openFiles == old(openFiles) && peak == old(peak)
    {
      hide ReadLine, CStr, ScanSize, ScanInt32, SkipSpaces, ParseMode;
      var ok, line := ReadLineInto(WIDE_LINE);
      if !ok || !(Ascii("MODE: ") <= line) { return Fail; }
      var parsed := ParseMode(line[6..]);
      if parsed.None? { return Fail; }
      mode, phase := parsed.value, StatBytes;
      return Continue;
    }

    method HandleStatBytes() returns (ret: Return)
      requires phase == StatBytes
      modifies this
      ensures Matches(StepStatBytes(old(View())), ret, View()) && openFiles == old(openFiles) && peak == old(peak)
    {
      hide ReadLine, CStr, ScanSize, ScanInt32, SkipSpaces, ParseMode;
      var ok, line := ReadLineInto(WIDE_LINE);
      if !ok { return Fail; }
      var n := ScanSize(line, Ascii("STAT_BYTES:"));
      if n.None? { return Fail; }
      statBytes, phase := n.value, StatFiles;
      return Continue;
    }

    method HandleStatFiles() returns (ret: Return)
      requires phase == StatFiles
      modifies this
      ensures Matches(StepStatFiles(old(View())), ret, View()) && openFiles == old(openFiles) && peak == old(peak)
    {
      hide ReadLine, CStr, ScanSize, ScanInt32, SkipSpaces, ParseMode;
      var ok, line := ReadLineInto(WIDE_LINE);
      if !ok { return Fail; }
      var n := ScanSize(line, Ascii("STAT_FILES:"));
      if n.None? { return Fail; }
      statFiles, phase := n.value, Idle;
      return Continue;
    }

    /** Create every prefix of the path in turn; an existing one, of any kind, is no error. */
    method MakeDirs(path: Path) returns (ok: bool)
      modifies this`fs
      ensures (fs, ok) == MkdirP(old(fs), path)
    {
      ghost var before := fs;
      var k := 0;
      ok := [] in fs;
      assert path[..0] == [];
      if !ok { StaysFailed(before, path, 0); }
      while ok && k < |path|
        invariant k <= |path| && (fs, ok) == MkdirP(before, path[..k])
        invariant !ok ==> forall j :: k <= j <= |path| ==> MkdirP(before, path[..j]) == (fs, false)
        decreases |path| - k, ok
      {
        k := k + 1;
        var p := path[..k];
        assert Parent(p) == path[..k - 1];
        match Mkdir(fs, p)
        case None =>
          ok := false;
          StaysFailed(before, path, k);
        case Some(made) => fs := made;
      }
      assert path[..|path|] == path;
    }

    static lemma StaysFailed(before: FS, path: Path, k: nat)
      requires k <= |path| && !MkdirP(before, path[..k]).1
      ensures forall j :: k <= j <= |path| ==> MkdirP(before, path[..j]) == MkdirP(before, path[..k])
    {
      var j := k;
      while j < |path|
        invariant k <= j <= |path| && forall i :: k <= i <= j ==> MkdirP(before, path[..i]) == MkdirP(before, path[..k])
      {
        assert Parent(path[..j + 1]) == path[..j];
        j := j + 1;
      }
    }

    method IsEmptyLine(line: seq<byte>) returns (blank: bool)
      ensures blank == IsBlank(line)
    {
      var p := 0;
      while p < |line| && IsSpace(line[p])
        invariant p <= |line| && forall i :: 0 <= i < p ==> IsSpace(line[i])
      {
        p := p + 1;
      }
      return p == |line|;
    }

    /** A DIRECTORY line: make the directory and take it as the current one. */
    method EnterDirectory(line: seq<byte>) returns (ret: Return)
      requires Ascii("DIRECTORY: ") <= line
      modifies this`fs, this`dir
      ensures var name := Truncate(line[11..], PATH_MAX - 1); var made := MkdirP(old(fs), Components(name));
        fs == made.0 && (made.1 ==> ret == Continue && dir == name) && (!made.1 ==> ret == Fail && dir == old(dir))
    {
      hide Components, MkdirP, Truncate;
      var name := Truncate(line[11..], PATH_MAX - 1);
      var made := MakeDirs(Components(name));
      if !made { return Fail; }
      dir := name;
      return Continue;
    }

    method HandleIdle() returns (ret: Return)
      requires phase == Idle
      modifies this
      ensures Matches(StepIdle(old(View())), ret, View()) && openFiles == old(openFiles) && peak == old(peak)
    {
      hide ReadLine, CStr, Components, MkdirP, Truncate, IsBlank, Ascii;
      var ok, line := ReadLineInto(WIDE_LINE);
      if !ok { return Fail; }
      var blank := IsEmptyLine(line);
      if blank {
        phase := Done;
        return Continue;
      }
      if Ascii("DIRECTORY: ") <= line {
        ret := EnterDirectory(line);
        return;
      }
      if Ascii("FILE_LIST") <= line {
        phase := FileCount;
        return Continue;
      }
      if line == Ascii("END") {
        phase := Done;
        return Exit(true);
      }
      return Fail;
    }

    method HandleFileList() returns (ret: Return)
      requires phase == ExpectFileList
      modifies this
      ensures Matches(StepFileList(old(View())), ret, View()) && openFiles == old(openFiles) && peak == old(peak)
    {
      hide ReadLine, CStr, ScanSize, ScanInt32, SkipSpaces, ParseMode;
      var ok, line := ReadLineInto(SHORT_LINE);
      if !ok || line != Ascii("FILE_LIST") { return Fail; }
      phase := FileCount;
      return Continue;
    }

    /** Make room for the entries of a batch, and none of them read yet. */
    method StartBatch(n: nat)
      modifies this`count, this`received, this`entries, this`index, this`capacity, this`phase
      ensures count == n && received == 0 && entries == [] && index == 0 && phase == Metadata
      ensures capacity == if old(capacity) < n then n else old(capacity)
    {
      count, received, entries, index := n, 0, [], 0;
      if capacity < n { capacity := n; }
      phase := Metadata;
    }

    method HandleFileCount() returns (ret: Return)
      requires phase == FileCount
      modifies this
      ensures Matches(StepFileCount(old(View())), ret, View()) && openFiles == old(openFiles) && peak == old(peak)
    {
      hide ReadLine, CStr, ScanSize, Ascii;
      var ok, line := ReadLineInto(SHORT_LINE);
      if !ok { return Fail; }
      var n := ScanSize(line, Ascii("FILES:"));
      if n.None? { return Fail; }
      if n.value > MAX_FILES { return Fail; }
      StartBatch(n.value);
      return Continue;
    }

    method HandleHashCount() returns (ret: Return)
      requires phase == HashCount
      modifies this
      ensures Matches(StepHashCount(old(View())), ret, View()) && openFiles == old(openFiles) && peak == old(peak)
    {
      hide ReadLine, CStr, ScanSize, ScanInt32, SkipSpaces, ParseMode;
      var ok, line := ReadLineInto(SHORT_LINE);
      if !ok || !(Ascii("HASH") <= line) { return Fail; }
      var n := ScanSize(SkipSpaces(line[4..]), Ascii("FILES:"));
      if n.None? || n.value > MAX_FILES { return Fail; }
      index, phase := 0, FileHashes;
      return Continue;
    }

    // -------------------------------------------------------------- the three phases of a batch

    /** Phase 1 for one entry: read its record. */
    method ReadEntry() returns (ret: Return)
      requires phase == Metadata && |entries| < count
      modifies this`input, this`entries
      ensures Matches(StepMetadata(old(View())), ret, View())
    {
      hide Decode;
      var r := ReadRecord();
      if r.None? { return Fail; }
      entries := entries + [Entry(r.value.name, r.value.size, r.value.hash, r.value.chunks, [])];
      return Continue;
    }

    method HandleMetadata() returns (ret: Return)
      requires phase == Metadata && Ready(View())
      modifies this
      ensures Matches(Handler(P, old(View()), Metadata), ret, View()) && openFiles == old(openFiles) &&
        peak == old(peak)
      ensures ret == Continue ==> phase == FileData && Ready(View())
    {
      hide StepMetadata, Handler, Step;
      ghost var start := View();
      for i := received to count
        invariant phase == Metadata && count == start.count && received == 0 && |entries| == i && index == 0
        invariant fs == start.fs && openFiles == old(openFiles) && peak == old(peak)
        invariant Handler(P, View(), Metadata) == Handler(P, start, Metadata)
      {
        StepIsMetadata(P, View());
        HandlerStep(P, View(), Metadata);
        var r := ReadEntry();
        if r != Continue { return r; }
      }
      MetadataEnds(P, View());
      phase, index := FileData, 0;
      return Continue;
    }

    /** Move `n` bytes of the stream into a temporary (unless `skip`), hashing them; give up when the stream ends. */
    method Receive(n: nat, temp: Path, skip: bool) returns (ok: bool, hash: Digest)
      requires temp in fs && fs[temp].File? && bufSize > 0
      modifies this`input, this`totalBytes, this`fs
      ensures ok <==> n <= |old(input)|
      ensures temp in fs && fs[temp].File? && fs == old(fs)[temp := fs[temp]]
      ensures ok ==> hash == P.H(old(input)[..n]) && input == old(input)[n..] && totalBytes == old(totalBytes) + n &&
                     fs[temp] == File(old(fs)[temp].content + if skip then [] else old(input)[..n])
    {
      ghost var start, total, before := input, totalBytes, fs[temp].content;
      var hashed: seq<byte> := [];
      var remaining := n;
      assert before + [] == before;
      while remaining > 0
        invariant 0 <= remaining <= n && |hashed| == n - remaining <= |start|
        invariant hashed == start[..|hashed|] && input == start[|hashed|..] && totalBytes == total + |hashed|
        invariant temp in fs && fs == old(fs)[temp := File(before + if skip then [] else hashed)]
      {
        if input == [] { return false, ZERO_DIGEST; }
        var chunk := if remaining < bufSize then remaining else bufSize;
        var most := if chunk < |input| then chunk else |input|;
        var r: nat :| 1 <= r <= most;
        var buf := input[..r];
        assert start[..|hashed| + r] == hashed + buf && start[|hashed|..][r..] == start[|hashed| + r..];
        input := input[r..];
        totalBytes := totalBytes + r;
        if !skip {
          assert before + (hashed + buf) == (before + hashed) + buf;
          fs := fs[temp := File(fs[temp].content + buf)];
        }
        hashed := hashed + buf;
        remaining := remaining - r;
      }
      assert start[..n] == hashed;
      return true, P.H(hashed);
    }

    /** A file of more than one chunk: chunk after chunk, the table growing as needed, then the hash of the hashes. */
    method ReceiveChunked(n: nat, announced: seq<Digest>, temp: Path, skip: bool)
      returns (ok: bool, hash: Digest, chunks: seq<Digest>)
      requires temp in fs && fs[temp] == File([]) && bufSize > 0
      modifies this`input, this`totalBytes, this`fs
      ensures ok <==> n <= |old(input)|
      ensures temp in fs && fs[temp].File? && fs == old(fs)[temp := fs[temp]]
      ensures ok ==> input == old(input)[n..] && totalBytes == old(totalBytes) + n
      ensures ok ==> chunks == ChunkHashes(P.H, P.chunk, old(input)[..n]) && hash == P.H(Concat(chunks))
      ensures ok ==> fs[temp] == File(if skip then [] else old(input)[..n])
    {
      hide ChunkHashes, Concat;
      ghost var start, total := input, totalBytes;
      var table := new ChunkTable(announced);
      var merkle: seq<byte> := [];
      var done := 0;
      SafeMode.NoChunks(P);
      assert n <= |start| ==> start[..n][0..] == start[..n];
      while done < n
        invariant fresh(table) && fresh(table.slots) && table.Valid()
        invariant done <= n && done <= |start| && input == start[done..] && totalBytes == total + done
        invariant temp in fs && fs == old(fs)[temp := File(if skip then [] else start[..done])]
        invariant ChunkedSoFar(P, start, n, done, table.Stored()) && merkle == Concat(table.Stored())
      {
        var remaining := n - done;
        var chunkBytes := if remaining < P.chunk then remaining else P.chunk;
        ghost var stored := table.Stored();
        ghost var before := fs;
        var got, chunkHash := Receive(chunkBytes, temp, skip);
        assert fs == old(fs)[temp := fs[temp]];
        if !got { return false, ZERO_DIGEST, []; }
        assert skip ==> fs[temp] == before[temp];
        NextChunk(P, start, n, done, chunkBytes, stored);
        SafeMode.ConcatSnoc(stored, chunkHash);
        table.Append(chunkHash);
        merkle := merkle + chunkHash;
        done := done + chunkBytes;
      }
      assert start[..n][n..] == [];
      chunks := table.slots[..table.num];
      return true, P.H(merkle), chunks;
    }

    /** The data of one entry: hashed, and copied to its temporary unless append mode skips it. */
    method ReceiveData(e: Entry, temp: Path, skip: bool) returns (ok: bool, filled: Entry)
      requires temp in fs && fs[temp] == File([]) && bufSize > 0
      modifies this`input, this`totalBytes, this`fs
      ensures ok <==> e.size <= |old(input)|
      ensures temp in fs && fs[temp].File? && fs == old(fs)[temp := fs[temp]]
      ensures ok ==> input == old(input)[e.size..] && totalBytes == old(totalBytes) + e.size
      ensures ok ==>
        filled == Received(P, e, old(input)[..e.size]) && fs[temp] == File(if skip then [] else old(input)[..e.size])
    {
      hide ChunkHashes, Concat;
      ok, filled := true, e;
      assert fs == fs[temp := fs[temp]];
      if e.size > 0 {
        if e.size > P.chunk {
          var hash, chunks;
          ok, hash, chunks := ReceiveChunked(e.size, e.chunks, temp, skip);
          filled := e.(hash := hash, chunks := chunks);
        } else {
          var hash;
          ok, hash := Receive(e.size, temp, skip);
          filled := e.(hash := hash);
          assert forall c: seq<byte> :: [] + c == c;
        }
      }
    }

    /** Draw the next temporary name and create and open its file. */
    method MakeTemp(at: Path) returns (drawn: Option<Name>)
      modifies this`fs, this`tape, this`openFiles, this`peak
      ensures drawn == Mkstemp(old(fs), at, old(tape), Names(entries))
      ensures drawn.None? ==> fs == old(fs)
      ensures peak <= if old(peak) > old(openFiles) then old(peak) else old(openFiles) + 1
      ensures drawn.Some? ==> tape == old(tape)[1..] && openFiles == old(openFiles) + 1 &&
                              Child(at, drawn.value) !in old(fs) && fs == old(fs)[Child(at, drawn.value) := File([])]
    {
      hide Names, Child;
      drawn := Mkstemp(fs, at, tape, Names(entries));
      if drawn.Some? {
        fs, tape, openFiles := fs[Child(at, drawn.value) := File([])], tape[1..], openFiles + 1;
        peak := if peak > openFiles then peak else openFiles;
      }
    }

    /** Receive into the temporary just made, and note the result in the entry; a failure removes the temporary. */
    method FillEntry(i: nat, name: Name, skip: bool, ghost before: FS) returns (ok: bool)
      requires i < |entries| && bufSize > 0
      requires Child(Components(dir), name) !in before && fs == before[Child(Components(dir), name) := File([])]
      modifies this`input, this`totalBytes, this`fs, this`entries
      ensures var e, temp := old(entries)[i], Child(Components(dir), name);
        && (ok <==> e.size <= |old(input)|)
        && (!ok ==> fs == before)
        && (ok ==> input == old(input)[e.size..] && totalBytes == old(totalBytes) + e.size &&
                   entries == old(entries)[i := Received(P, e.(temp := name), old(input)[..e.size])] &&
                   fs == before[temp := File(if skip then [] else old(input)[..e.size])])
    {
      hide Components, Received, Child;
      var temp, filled := Child(Components(dir), name), entries[i].(temp := name);
      ok, filled := ReceiveData(filled, temp, skip);
      assert fs == before[temp := fs[temp]];
      if ok {
        entries := entries[i := filled];
      } else {
        fs := Unlink(fs, temp);
      }
    }

    /** Phase 2 for one entry: look for the final path, draw and create the temporary, receive into it. */
    method TransferEntry(i: nat) returns (ok: bool)
      requires i < |entries| && bufSize > 0
      modifies this`input, this`totalBytes, this`fs, this`entries, this`tape, this`openFiles, this`peak
      ensures var e, at, drawn := old(entries)[i], Components(dir),
        Mkstemp(old(fs), Components(dir), old(tape), Names(old(entries)));
        && (ok <==> drawn.Some? && e.size <= |old(input)|)
        && (!ok ==> fs == old(fs))
        && peak <= (if old(peak) > old(openFiles) then old(peak) else old(openFiles) + 1)
        && (ok ==> input == old(input)[e.size..] && totalBytes == old(totalBytes) + e.size &&
                   tape == old(tape)[1..] && openFiles == old(openFiles) + 1 &&
                   entries == old(entries)[i := Received(P, e.(temp := drawn.value), old(input)[..e.size])] &&
                   fs == old(fs)[Child(at, drawn.value) :=
                     File(if Child(at, e.name) in old(fs) && mode == Append then [] else old(input)[..e.size])])
    {
      hide Components, Names, Received, Child, Mkstemp;
      ghost var before := fs;
      var skip := Child(Components(dir), entries[i].name) in fs && mode == Append;
      var drawn := MakeTemp(Components(dir));
      if drawn.None? { return false; }
      ok := FillEntry(i, drawn.value, skip, before);
    }

    method ReceiveEntry(i: nat) returns (ret: Return)
      requires phase == FileData && i == index < count == |entries| && bufSize > 0
      modifies this`input, this`totalBytes, this`fs, this`entries, this`tape, this`openFiles, this`peak, this`index
      ensures Matches(StepData(P, old(View())), ret, View())
      ensures ret == Continue ==> openFiles == old(openFiles) + 1
      ensures peak <= if old(peak) > old(openFiles) then old(peak) else old(openFiles) + 1
    {
      hide StepData, Components, Names, Received, Child, Mkstemp, Matches;
      ghost var before := View();
      var ok := TransferEntry(i);
      if ok { index := i + 1; }
      ret := if ok then Continue else Fail;
      EntryOutcome(P, before, ret, View());
    }

    /** Phase 2: the entries in order, in slices of at most 32 open files, all closed after each slice. */
    method HandleFileData() returns (ret: Return)
      requires phase == FileData && Ready(View()) && openFiles == 0 && peak <= MAX_OPEN_FILES && bufSize > 0
      modifies this
      ensures peak <= MAX_OPEN_FILES
      ensures Matches(Handler(P, old(View()), FileData), ret, View())
      ensures ret == Continue ==> phase == HashCount && Ready(View()) && openFiles == 0
    {
      hide StepData, Handler, Step;
      ghost var start := View();
      if count == 0 {
        EmptyBatchFails(P, start);
        return Fail;
      }
      var sliceStart := 0;
      while sliceStart < count
        invariant phase == FileData && received == 0 && count == |entries| == start.count > 0 && openFiles == 0 &&
          peak <= MAX_OPEN_FILES
        invariant index == if sliceStart < count then sliceStart else count
        invariant Handler(P, View(), FileData) == Handler(P, start, FileData)
      {
        var sliceEnd := if sliceStart + MAX_OPEN_FILES > count then count else sliceStart + MAX_OPEN_FILES;
        for i := sliceStart to sliceEnd
          invariant phase == FileData && received == 0 && count == |entries| == start.count && index == i
          invariant openFiles == i - sliceStart <= MAX_OPEN_FILES && peak <= MAX_OPEN_FILES
          invariant Handler(P, View(), FileData) == Handler(P, start, FileData)
        {
          StepIsData(P, View());
          HandlerStep(P, View(), FileData);
          var r := ReceiveEntry(i);
          if r != Continue { return r; }
        }
        openFiles := 0;
        sliceStart := sliceStart + MAX_OPEN_FILES;
      }
      DataEnds(P, View());
      phase := HashCount;
      return Continue;
    }

    /** Does safe mode accept the existing node? A directory cannot be read as a file and is not accepted. */
    method Verify(node: Node, e: Entry) returns (ok: bool)
      requires bufSize > 0
      ensures ok == SafeAccepts(P, node, e)
    {
      if node.Dir? { return false; }
      var failed;
      assert node.content[..|node.content|] == node.content;
      if |node.content| > P.chunk {
        ok, failed := SafeMode.VerifyChunked(P, |node.content|, node.content, e, bufSize, false);
      } else {
        ok, failed := SafeMode.VerifySmall(P, |node.content|, node.content, e, bufSize, false);
      }
    }

    /** A cross-checked entry is skipped, refused, or renamed to its final path. */
    method CommitEntry(e: Entry) returns (ok: bool)
      requires bufSize > 0
      modifies this`fs
      ensures (fs, ok) == Commit(P, old(View()), e)
    {
      hide SafeAccepts, Child, Components;
      var final, temp := Child(Components(dir), e.name), Child(Components(dir), e.temp);
      if final in fs && mode != Force {
        ok := true;
        if mode == Safe {
          ok := Verify(fs[final], e);
        }
        fs := Unlink(fs, temp);
      } else {
        match Rename(fs, temp, final)
        case None =>
          fs := Unlink(fs, temp);
          ok := false;
        case Some(renamed) =>
          fs := renamed;
          ok := true;
      }
    }

    /** Phase 3 for one entry: read its record, check it against what was announced and received, commit. */
    method ConfirmEntry(i: nat) returns (ret: Return)
      requires phase == FileHashes && i == index < count == |entries| && bufSize > 0
      modifies this
      ensures Matches(StepHashes(P, old(View())), ret, View()) && openFiles == old(openFiles) && peak == old(peak)
    {
      hide Decode, Commit;
      var r := ReadRecord();
      if r.None? { return Fail; }
      var e := entries[i];
      if r.value.name != e.name || r.value.size != e.size { return Fail; }
      if e.size > 0 && r.value.hash != e.hash { return Fail; }
      if |r.value.chunks| != |e.chunks| || r.value.chunks != e.chunks { return Fail; }
      CommitReads(P, View(), View().(input := old(input)), e);
      var ok := CommitEntry(e);
      if !ok { return Fail; }
      index := i + 1;
      return Continue;
    }

    /** Phase 3: one record per entry; the totals are updated when the batch is complete. */
    method HandleFileHashes() returns (ret: Return)
      requires phase == FileHashes && Ready(View()) && bufSize > 0
      modifies this
      ensures Matches(Handler(P, old(View()), FileHashes), ret, View()) && openFiles == old(openFiles) &&
        peak == old(peak)
      ensures ret == Continue ==> phase == Idle
    {
      hide StepHashes, Handler, Step;
      ghost var start := View();
      var fileReceived := 0;
      for i := received to count
        invariant phase == FileHashes && received == 0 && count == |entries| == start.count &&
          index == i == fileReceived
        invariant totalFiles == start.totalFiles && openFiles == old(openFiles) && peak == old(peak)
        invariant Handler(P, View(), FileHashes) == Handler(P, start, FileHashes)
      {
        StepIsHashes(P, View());
        HandlerStep(P, View(), FileHashes);
        var r := ConfirmEntry(i);
        if r != Continue { return r; }
        fileReceived := fileReceived + 1;
      }
      HashesEnd(P, View());
      received, totalFiles := received + fileReceived, totalFiles + fileReceived;
      phase := Idle;
      return Continue;
    }

    // -------------------------------------------------------------- the driver

    /** The dispatcher. */
    method ProcessLine() returns (ret: Return)
      requires Ready(View()) && openFiles == 0 && peak <= MAX_OPEN_FILES && bufSize > 0
      modifies this
      ensures peak <= MAX_OPEN_FILES
      ensures Matches(Call(P, old(View())), ret, View())
      ensures ret == Continue ==> Ready(View()) && openFiles == 0
    {
      hide StepVersion, StepMode, StepStatBytes, StepStatFiles, StepIdle, StepFileList, StepFileCount, StepHashCount;
      hide Handler;
      LinePhases(View());
      match phase
      case Version => ret := HandleVersion();
      case ModeLine => ret := HandleMode();
      case StatBytes => ret := HandleStatBytes();
      case StatFiles => ret := HandleStatFiles();
      case Idle => ret := HandleIdle();
      case ExpectFileList => ret := HandleFileList();
      case FileCount => ret := HandleFileCount();
      case Metadata => ret := HandleMetadata();
      case FileData => ret := HandleFileData();
      case HashCount => ret := HandleHashCount();
      case FileHashes => ret := HandleFileHashes();
      case Done => ret := Exit(false);
      case ExpectDir => ret := Fail;
    }

    /**
     * The driver loop: it stops on every finite stream, and where it stops is what the run of the
     * protocol says. All that is proved of runs is therefore true of this loop. Never are more
     * than 32 output files open.
     */
    method Drive() returns (ret: Return)
      requires Ready(View()) && openFiles == 0 && peak <= MAX_OPEN_FILES && bufSize > 0
      modifies this
      ensures peak <= MAX_OPEN_FILES
      ensures Matches(Run(P, old(View())), ret, View()) && ret != Continue
    {
      hide Run, Call;
      ghost var start := View();
      ret := ProcessLine();
      CallThenRun(P, start);
      while ret == Continue
        invariant ret == Continue ==> Ready(View()) && openFiles == 0 && Run(P, View()) == Run(P, start)
        invariant ret != Continue ==> Matches(Run(P, start), ret, View())
        invariant peak <= MAX_OPEN_FILES
        decreases ret == Continue, |input|, Rank(phase)
      {
        ghost var before := View();
        CallThenRun(P, before);
        ret := ProcessLine();
        if ret == Continue { CallProgress(P, before); }
      }
    }
  }

  /** The hashes stored are those of the chunks received, if the stream lasts for all `n` bytes. */
  ghost predicate ChunkedSoFar(P: Params, start: seq<byte>, n: nat, done: nat, stored: seq<Digest>) {
    done <= n <= |start| ==>
      stored + ChunkHashes(P.H, P.chunk, start[..n][done..]) == ChunkHashes(P.H, P.chunk, start[..n])
  }

  lemma NextChunk(P: Params, start: seq<byte>, n: nat, done: nat, chunkBytes: nat, stored: seq<Digest>)
    requires done < n && chunkBytes == Min(P.chunk, n - done) && done + chunkBytes <= |start|
    requires ChunkedSoFar(P, start, n, done, stored)
    ensures ChunkedSoFar(P, start, n, done + chunkBytes, stored + [P.H(start[done..][..chunkBytes])])
    ensures start[done..][chunkBytes..] == start[done + chunkBytes..]
    ensures start[..done] + start[done..][..chunkBytes] == start[..done + chunkBytes]
  {
    hide ChunkHashes;
    if n <= |start| {
      var data, h := start[..n], P.H(start[done..][..chunkBytes]);
      assert data[done..done + chunkBytes] == start[done..][..chunkBytes];
      SafeMode.ChunksFrom(P, data, done, chunkBytes);
      var rest := ChunkHashes(P.H, P.chunk, data[done + chunkBytes..]);
      assert stored + [h] + rest == stored + ([h] + rest);
    }
  }

  /** The three ways one entry's data step can go. */
  lemma StepDataIs(P: Params, rx: Rx)
    requires rx.phase == FileData && rx.index < rx.count == |rx.entries|
    ensures var e := rx.entries[rx.index]; var drawn := Mkstemp(rx.fs, Components(rx.dir), rx.tape, Names(rx.entries));
      var skip := Child(Components(rx.dir), e.name) in rx.fs && rx.mode == Append;
      StepData(P, rx) ==
        if drawn.None? || |rx.input| < e.size then Failed(rx.fs)
        else
          var data := rx.input[..e.size];
          Go(rx.(entries := rx.entries[rx.index := Received(P, e.(temp := drawn.value), data)], index := rx.index + 1,
                 totalBytes := rx.totalBytes + e.size, tape := rx.tape[1..], input := rx.input[e.size..],
                 fs := rx.fs[Child(Components(rx.dir), drawn.value) := File(if skip then [] else data)]))
  {
    hide Components, Names, Received, Child, Mkstemp;
  }

  /** What the object looks like after one entry's data, in either case. */
  ghost predicate EntryDone(P: Params, before: Rx, ret: Return, after: Rx) {
    before.phase == FileData && before.index < before.count == |before.entries| &&
    var drawn := Mkstemp(before.fs, Components(before.dir), before.tape, Names(before.entries));
    var e := before.entries[before.index];
    if drawn.None? || |before.input| < e.size then ret == Fail && after.fs == before.fs
    else
      var data := before.input[..e.size];
      var skip := Child(Components(before.dir), e.name) in before.fs && before.mode == Append;
      ret == Continue &&
      after == before.(entries := after.entries, index := before.index + 1, totalBytes := before.totalBytes + e.size,
                       tape := before.tape[1..], input := before.input[e.size..], fs := after.fs) &&
      after.entries == before.entries[before.index := Received(P, e.(temp := drawn.value), data)] &&
      after.fs == before.fs[Child(Components(before.dir), drawn.value) := File(if skip then [] else data)]
  }

  lemma EntryOutcome(P: Params, before: Rx, ret: Return, after: Rx)
    requires EntryDone(P, before, ret, after)
    ensures Matches(StepData(P, before), ret, after)
  {
    hide StepData, Components, Names, Received, Child, Mkstemp;
    StepDataIs(P, before);
  }

  /** A call of a handler is a step, then the rest of the call. */
  lemma HandlerStep(P: Params, rx: Rx, phase: Phase)
    requires rx.phase == phase
    ensures Handler(P, rx, phase) == if Step(P, rx).Go? then Handler(P, Step(P, rx).rx, phase) else Step(P, rx)
  {
    hide Step;
    if Step(P, rx).Go? { StepProgress(P, rx); }
  }

  lemma StepIsMetadata(P: Params, rx: Rx)
    requires rx.phase == Metadata
    ensures Step(P, rx) == StepMetadata(rx)
    ensures |rx.entries| < rx.count && StepMetadata(rx).Go? ==>
      var next := StepMetadata(rx).rx;
      next.phase == Metadata && next.count == rx.count && next.received == rx.received && next.index == rx.index &&
      next.fs == rx.fs && |next.entries| == |rx.entries| + 1
    ensures !StepMetadata(rx).Exited?
  {
    hide Decode;
  }

  lemma MetadataEnds(P: Params, rx: Rx)
    requires rx.phase == Metadata && |rx.entries| == rx.count
    ensures Handler(P, rx, Metadata) == Go(rx.(phase := FileData, index := 0))
  {
  }

  lemma StepIsData(P: Params, rx: Rx)
    requires rx.phase == FileData
    ensures Step(P, rx) == StepData(P, rx)
    ensures StepData(P, rx).Go? && rx.index < rx.count ==>
      StepData(P, rx).rx.phase == FileData && StepData(P, rx).rx.count == rx.count &&
        StepData(P, rx).rx.received == rx.received &&
      |StepData(P, rx).rx.entries| == |rx.entries|
    ensures rx.index < rx.count ==> !StepData(P, rx).Exited?
  {
    hide Components, Names, Received, Mkstemp;
  }

  lemma DataEnds(P: Params, rx: Rx)
    requires rx.phase == FileData && rx.index == rx.count == |rx.entries| > 0
    ensures Handler(P, rx, FileData) == Go(rx.(phase := HashCount))
  {
  }

  lemma EmptyBatchFails(P: Params, rx: Rx)
    requires rx.phase == FileData && rx.count == 0
    ensures Handler(P, rx, FileData) == Failed(rx.fs)
  {
  }

  lemma CommitReads(P: Params, a: Rx, b: Rx, e: Entry)
    requires a.fs == b.fs && a.mode == b.mode && a.dir == b.dir
    ensures Commit(P, a, e) == Commit(P, b, e)
  {
  }

  lemma StepIsHashes(P: Params, rx: Rx)
    requires rx.phase == FileHashes
    ensures Step(P, rx) == StepHashes(P, rx)
    ensures StepHashes(P, rx).Go? && rx.index < rx.count == |rx.entries| ==>
      var next := StepHashes(P, rx).rx;
      next.phase == FileHashes && next.count == rx.count && next.received == rx.received &&
      next.entries == rx.entries && next.index == rx.index + 1 && next.totalFiles == rx.totalFiles
    ensures !StepHashes(P, rx).Exited?
  {
    hide Decode, Commit, CrossChecked;
  }

  lemma HashesEnd(P: Params, rx: Rx)
    requires rx.phase == FileHashes && rx.index == rx.count
    ensures Handler(P, rx, FileHashes) ==
      Go(rx.(phase := Idle, received := rx.received + rx.index, totalFiles := rx.totalFiles + rx.index))
  {
  }

  /** The line handlers leave the object ready for the next call. */
  lemma LinePhases(rx: Rx)
    requires Ready(rx)
    ensures rx.phase == Version && StepVersion(rx).Go? ==> Ready(StepVersion(rx).rx)
    ensures rx.phase == ModeLine && StepMode(rx).Go? ==> Ready(StepMode(rx).rx)
    ensures rx.phase == StatBytes && StepStatBytes(rx).Go? ==> Ready(StepStatBytes(rx).rx)
    ensures rx.phase == StatFiles && StepStatFiles(rx).Go? ==> Ready(StepStatFiles(rx).rx)
    ensures rx.phase == Idle && StepIdle(rx).Go? ==> Ready(StepIdle(rx).rx)
    ensures rx.phase == ExpectFileList && StepFileList(rx).Go? ==> Ready(StepFileList(rx).rx)
    ensures rx.phase == FileCount && StepFileCount(rx).Go? ==> Ready(StepFileCount(rx).rx)
    ensures rx.phase == HashCount && StepHashCount(rx).Go? ==> Ready(StepHashCount(rx).rx)
  {
    hide ReadLine, CStr, ScanSize, ScanInt32, SkipSpaces, ParseMode, MkdirP, Components, Truncate, IsBlank, Ascii;
  }

  lemma CallThenRun(P: Params, rx: Rx)
    ensures Run(P, rx) == match Call(P, rx) case Go(next) => Run(P, next) case stopped => stopped
  {
    hide Step;
    if rx.phase in {Metadata, FileData, FileHashes} {
      HandlerThenRun(P, rx, rx.phase);
    }
  }

  /** A handler call that continues has read something or moved on to a later phase. */
  lemma CallProgress(P: Params, rx: Rx)
    requires Call(P, rx).Go?
    ensures var next := Call(P, rx).rx;
      |next.input| < |rx.input| || (next.input == rx.input && Rank(next.phase) < Rank(rx.phase))
  {
    hide Step;
    if rx.phase in {Metadata, FileData, FileHashes} {
      HandlerProgress(P, rx, rx.phase);
    } else if Step(P, rx).Go? {
      StepProgress(P, rx);
    }
  }

  lemma {:induction false} HandlerProgress(P: Params, rx: Rx, phase: Phase)
    requires rx.phase == phase && Handler(P, rx, phase).Go?
    ensures var next := Handler(P, rx, phase).rx;
      next.phase != phase &&
        (|next.input| < |rx.input| || (next.input == rx.input && Rank(next.phase) < Rank(rx.phase)))
    decreases |rx.input|, Rank(rx.phase), Left(rx)
  {
    hide Step;
    if Step(P, rx).Go? {
      StepProgress(P, rx);
      if Step(P, rx).rx.phase == phase {
        HandlerProgress(P, Step(P, rx).rx, phase);
      }
    }
  }
}
