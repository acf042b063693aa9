/** A sender's stream cut anywhere: the files left behind are those of a prefix of the files sent. */
module Truncation {
  import opened Bytes
  import opened Digests
  import opened Codec
  import opened FileSystem
  import opened Protocol
  import opened Snapshot
  import opened RoundTrip
  import opened Delivery
  import opened Landings

  // ---------------------------------------------------------------- after the last byte

  /** The regular files of a tree that are temporaries. */
  function TempFiles(fs: FS): set<Path> { set p | p in fs && fs[p].File? && IsTemp(p) }

  /** A temporary that is none of `temps` is left. */
  ghost predicate LeavesTemp(temps: set<Path>, after: FS) { exists p :: p in TempFiles(after) && p !in temps }

  lemma FilesWithTemp(fs: FS, temp: Path, node: Node)
    requires IsTemp(temp) && temp !in fs
    ensures Files(fs[temp := node]) == Files(fs)
  {
  }

  lemma FilesWithDirs(fs: FS, dir: Path)
    ensures Files(MkdirP(fs, dir).0) == Files(fs) && TempFiles(MkdirP(fs, dir).0) == TempFiles(fs)
  {
    MkdirPAdds(fs, dir);
  }

  /** With nothing left to read no step commits a file. */
  lemma DryStep(P: Params, rx: Rx)
    requires rx.input == [] && rx.phase != Done
    ensures !Step(P, rx).Exited? && Files(Destination(Step(P, rx))) == Files(rx.fs)
    ensures Step(P, rx).Go? ==> Step(P, rx).rx.input == [] && Step(P, rx).rx.phase != Done
  {
    hide ScanSize, ScanInt32, SkipSpaces, CStr, ParseMode, IdleLine, Commit, Received, Child, Components;
    if rx.phase == FileData && Step(P, rx).Go? && rx.index < rx.count {
      FilesWithTemp(rx.fs, Child(Components(rx.dir), rx.tape[0]),
        Step(P, rx).rx.fs[Child(Components(rx.dir), rx.tape[0])]);
    }
  }

  lemma {:induction false} DryRun(P: Params, rx: Rx)
    requires rx.input == [] && rx.phase != Done
    ensures Run(P, rx).Failed? && Files(Run(P, rx).fs) == Files(rx.fs)
    decreases Rank(rx.phase), Left(rx)
  {
    hide Step;
    DryStep(P, rx);
    if Step(P, rx).Go? {
      StepProgress(P, rx);
      DryRun(P, Step(P, rx).rx);
    }
  }

  /** Waiting for a line or for the first record of a phase, with nothing left to read. */
  predicate Dry(rx: Rx) {
    rx.input == [] &&
    (rx.phase in {ModeLine, StatBytes, StatFiles, Idle, FileCount} ||
     (rx.phase == Metadata && rx.entries == []) || (rx.phase == FileHashes && rx.index == 0))
  }

  /** The totals of an outcome stay within bounds. */
  ghost predicate Counted(o: Outcome, bytes: nat, files: nat) {
    match o
    case Failed(_) => true
    case Go(rx) => rx.totalBytes <= bytes && rx.totalFiles <= files
    case Exited(rx, _) => rx.totalBytes <= bytes && rx.totalFiles <= files
  }

  ghost predicate AlwaysCounted(P: Params, x: Rx, bytes: nat, files: nat) {
    forall k: nat :: Counted(After(P, x, k), bytes, files)
  }

  lemma CountedOn(P: Params, x: Rx, bytes: nat, files: nat)
    requires Counted(Go(x), bytes, files)
    requires if Step(P, x).Go? then AlwaysCounted(P, Step(P, x).rx, bytes, files) else Counted(Step(P, x), bytes, files)
    ensures AlwaysCounted(P, x, bytes, files)
  {
    hide Step, Counted;
    forall k: nat ensures Counted(After(P, x, k), bytes, files) {
      if k > 0 && Step(P, x).Go? {
        assert After(P, x, k) == After(P, Step(P, x).rx, k - 1);
      }
    }
  }

  lemma MoreCounted(P: Params, x: Rx, bytes: nat, files: nat, b: nat, f: nat)
    requires AlwaysCounted(P, x, bytes, files) && bytes <= b && files <= f
    ensures AlwaysCounted(P, x, b, f)
  {
    hide After;
  }

  /** Such a receiver gives up: nothing more is counted, and the destination stays as it is. */
  lemma DryFails(P: Params, rx: Rx)
    requires Dry(rx)
    ensures Run(P, rx) == Failed(rx.fs) && AlwaysCounted(P, rx, rx.totalBytes, rx.totalFiles)
    decreases if rx.phase in {Metadata, FileHashes} then 1 else 0
  {
    hide AlwaysCounted, ScanSize, ScanInt32, SkipSpaces, CStr, ParseMode, IdleLine, Commit;
    if Step(P, rx).Go? {
      var next := Step(P, rx).rx;
      if rx.phase == Metadata {
        assert Step(P, next) == Failed(rx.fs);
        CountedOn(P, next, rx.totalBytes, rx.totalFiles);
      } else {
        DryFails(P, next);
      }
    }
    CountedOn(P, rx, rx.totalBytes, rx.totalFiles);
  }

  // ---------------------------------------------------------------- one step on a cut stream

  /** The step on the cut stream stops reading mid-item: it gives up, or goes on with nothing left, no file touched. */
  ghost predicate Starves(P: Params, x: Rx) {
    match Step(P, x)
    case Go(next) => Dry(next) && Files(next.fs) == Files(x.fs) && TempFiles(next.fs) == TempFiles(x.fs) &&
                     next.totalBytes == x.totalBytes && next.totalFiles == x.totalFiles
    case Failed(fs) => Files(fs) == Files(x.fs) && TempFiles(fs) == TempFiles(x.fs)
    case Exited(_, _) => false
  }

  /** The step on the cut stream reads the same item, of `size` bytes, and does the same. */
  ghost predicate Agrees(P: Params, rx: Rx, cut: seq<byte>, size: nat) {
    size <= |cut| &&
    match Step(P, rx)
    case Go(next) => Step(P, rx.(input := cut)) == Go(next.(input := cut[size..])) && cut[size..] <= next.input
    case Failed(fs) => Step(P, rx.(input := cut)) == Failed(fs)
    case Exited(_, _) => false
  }

  /** The item ahead is read whole, or the cut receiver starves on it. */
  ghost predicate CutAt(P: Params, rx: Rx, cut: seq<byte>, size: nat) {
    if |cut| >= size then Agrees(P, rx, cut, size) else Starves(P, rx.(input := cut))
  }

  /** The bytes the receiver reads in its next step. */
  function ItemSize(P: Params, s: Sync): nat
    requires s.at <= |s.files|
  {
    match s.stage
    case AtIdle =>
      if s.rest == [] then 0
      else (match s.rest[0] case Enter(dir) => |DirectoryLine(dir)| + 1 case Batch(_, _) => |Ascii("FILE_LIST")| + 1)
    case AtCount => |CountLine(|s.files|)| + 1
    case AtMeta => if s.at < |s.files| then |Encode(MetaRecord(s.files[s.at]))| else 0
    case AtData => if s.at < |s.files| then |s.files[s.at].content| else 0
    case AtHashCount => |HashCountLine(|s.files|)| + 1
    case AtHashes => if s.at < |s.files| then RecordSize(P, s.files[s.at]) else 0
  }

  lemma CutLine(line: seq<byte>, rest: seq<byte>, cut: seq<byte>)
    requires cut <= line + [LF] + rest
    ensures |cut| > |line| ==> cut == line + [LF] + cut[|line| + 1..] && cut[|line| + 1..] <= rest
    ensures |cut| <= |line| ==> cut <= line
  {
    var whole := line + [LF] + rest;
    assert whole[..|line|] == line && whole[|line|] == LF && whole[|line| + 1..] == rest;
    if |cut| > |line| {
      assert cut == whole[..|cut|];
    }
  }

  /** The line the receiver is about to read from a synchronised stream. */
  ghost predicate LineAhead(rx: Rx, line: seq<byte>, rest: seq<byte>, size: nat) {
    rx.input == line + [LF] + rest && LF !in line && NUL !in line && |line| + 1 < size &&
    size == (if rx.phase == Idle then WIDE_LINE else SHORT_LINE) && rx.phase in {Idle, FileCount, HashCount}
  }

  lemma WholeLine(P: Params, rx: Rx, line: seq<byte>, rest: seq<byte>, size: nat, cut: seq<byte>)
    requires size > 1 && LineAhead(rx, line, rest, size) && |cut| > |line| && cut == line + [LF] + cut[|line| + 1..]
    requires cut[|line| + 1..] <= rest && !Step(P, rx).Exited?
    ensures Agrees(P, rx, cut, |line| + 1)
  {
    hide ReadLine, CStr, ScanSize, SkipSpaces, IsBlank, Truncate, Components, MkdirP;
    LineRead(line, rest, size);
    LineRead(line, cut[|line| + 1..], size);
  }

  lemma PartOfLine(P: Params, rx: Rx, line: seq<byte>, rest: seq<byte>, size: nat, cut: seq<byte>)
    requires size > 1 && LineAhead(rx, line, rest, size) && cut <= line
    requires rx.phase == Idle ==> line != [] && !IsSpace(line[0]) && cut != Ascii("END")
    ensures Starves(P, rx.(input := cut))
  {
    hide ReadLine, CStr, ScanSize, SkipSpaces, Components, MkdirP, Ascii, Truncate;
    if cut != [] {
      LineAtEnd(cut, size);
      assert CStr(cut) == cut;
      assert rx.phase == Idle ==> !IsSpace(cut[0]);
      var dir := if |cut| >= 11 then Components(Truncate(cut[11..], PATH_MAX - 1)) else [];
      FilesWithDirs(rx.fs, dir);
    }
  }

  lemma SomeLine(P: Params, rx: Rx, line: seq<byte>, rest: seq<byte>, size: nat, cut: seq<byte>)
    requires size > 1 && LineAhead(rx, line, rest, size) && cut <= rx.input && !Step(P, rx).Exited?
    requires rx.phase == Idle ==> line != [] && !IsSpace(line[0]) && line[0] != Ascii("END")[0]
    ensures CutAt(P, rx, cut, |line| + 1)
  {
    hide Step, Agrees, Starves, Ascii;
    CutLine(line, rest, cut);
    if |cut| > |line| {
      WholeLine(P, rx, line, rest, size, cut);
    } else {
      PartOfLine(P, rx, line, rest, size, cut);
    }
  }

  lemma SomeRecord(P: Params, rx: Rx, r: Record, rest: seq<byte>, cut: seq<byte>)
    requires Encodable(r) && rx.input == Encode(r) + rest && cut <= rx.input
    requires (rx.phase == Metadata && |rx.entries| < rx.count) ||
      (rx.phase == FileHashes && rx.index < rx.count && rx.index < |rx.entries|)
    ensures CutAt(P, rx, cut, |Encode(r)|)
  {
    hide Decode, Encode, CrossChecked, SafeAccepts, Child, Components, Encodable;
    RecordRoundTrip(r, rest);
    TruncatedRecord(r, rest, cut);
    if |cut| >= |Encode(r)| {
      assert cut[|Encode(r)|..] <= rest by {
        assert rest == (Encode(r) + rest)[|Encode(r)|..];
      }
      if rx.phase == FileHashes {
        assert Commit(P, rx.(input := cut), rx.entries[rx.index]) == Commit(P, rx, rx.entries[rx.index]);
      }
    }
  }

  lemma SomeData(P: Params, rx: Rx, data: seq<byte>, rest: seq<byte>, cut: seq<byte>)
    requires rx.phase == FileData && rx.index < rx.count == |rx.entries| && |data| == rx.entries[rx.index].size
    requires rx.input == data + rest && cut <= rx.input && Step(P, rx).Go?
    ensures CutAt(P, rx, cut, |data|)
  {
    hide Names, Child, Components, Received;
    TakeAppend(data, rest);
    if |cut| >= |data| {
      assert cut == data + cut[|data|..];
      assert rest == (data + rest)[|data|..];
      TakeAppend(data, cut[|data|..]);
    }
  }

  /** Between the entries of a phase and the next phase nothing is read. */
  lemma NoItem(P: Params, rx: Rx, cut: seq<byte>)
    requires cut <= rx.input
    requires (rx.phase == Metadata && |rx.entries| >= rx.count) ||
      (rx.phase in {FileData, FileHashes} && rx.index >= rx.count)
    ensures CutAt(P, rx, cut, 0)
  {
    assert cut[0..] == cut;
  }

  lemma CutStep(P: Params, s: Sync, rx: Rx, cut: seq<byte>)
    requires Synced(P, s, rx) && cut <= rx.input && (s.stage != AtIdle || s.rest != [])
    ensures s.at <= |s.files| && CutAt(P, rx, cut, ItemSize(P, s))
  {
    hide Synced, CutAt;
    match s.stage
    case AtIdle =>
      if s.rest[0].Enter? { CutEnter(P, s, rx, cut); } else { CutList(P, s, rx, cut); }
    case AtCount => CutCount(P, s, rx, cut);
    case AtMeta => CutMeta(P, s, rx, cut);
    case AtData => CutData(P, s, rx, cut);
    case AtHashCount => CutHashCount(P, s, rx, cut);
    case AtHashes => CutHashes(P, s, rx, cut);
  }

  lemma GoodEnter(s: Sync)
    requires Sendable(s) && s.stage == AtIdle && s.rest != []
    ensures s.at <= |s.files| && GoodDir(s.rest[0].dir)
  {
    hide NoClash, WellOrdered, IsDir;
    assert GoodCommand(s.rest[0]);
  }

  /** A directory line can be read back, and is not mistaken for another. */
  lemma DirectoryPlain(dir: Path)
    requires GoodDir(dir)
    ensures var l := DirectoryLine(dir);
      LF !in l && NUL !in l && |l| + 1 < WIDE_LINE && l != [] && !IsSpace(l[0]) && l[0] != Ascii("END")[0]
  {
    hide Join;
    JoinPlain(dir);
    Printable("DIRECTORY: ");
    assert Ascii("DIRECTORY: ")[0] == 68 && Ascii("END")[0] == 69;
  }

  lemma EnterAhead(P: Params, s: Sync, rx: Rx)
    requires Synced(P, s, rx) && s.stage == AtIdle && s.rest != [] && s.rest[0].Enter?
    ensures s.at <= |s.files| && rx.phase == Idle && GoodDir(s.rest[0].dir)
    ensures rx.input == DirectoryLine(s.rest[0].dir) + [LF] + Tail(P, s.rest[1..])
  {
    hide Sendable, FreshTape, Overlaid, Components, DirectoryLine, GoodDir;
    GoodEnter(s);
  }

  lemma CutEnter(P: Params, s: Sync, rx: Rx, cut: seq<byte>)
    requires Synced(P, s, rx) && cut <= rx.input && s.stage == AtIdle && s.rest != [] && s.rest[0].Enter?
    ensures s.at <= |s.files| && CutAt(P, rx, cut, ItemSize(P, s))
  {
    hide Synced, Step, CutAt, DirectoryLine, GoodDir, Tail, Ascii, IsSpace;
    EnterAhead(P, s, rx);
    SyncedStep(P, s, rx);
    DirectoryPlain(s.rest[0].dir);
    SomeLine(P, rx, DirectoryLine(s.rest[0].dir), Tail(P, s.rest[1..]), WIDE_LINE, cut);
  }

  lemma CutList(P: Params, s: Sync, rx: Rx, cut: seq<byte>)
    requires Synced(P, s, rx) && cut <= rx.input && s.stage == AtIdle && s.rest != [] && s.rest[0].Batch?
    ensures s.at <= |s.files| && CutAt(P, rx, cut, ItemSize(P, s))
  {
    hide Sendable, FreshTape, Overlaid, Components, BatchBytes, Step, CutAt, MetaPart, CountLine;
    Bounded(P, s, rx);
    SyncedStep(P, s, rx);
    assert Ascii("FILE_LIST")[0] == 70 && Ascii("END")[0] == 69;
    Printable("FILE_LIST");
    BatchLayout(P, Next(s, rx));
    SomeLine(P, rx, Ascii("FILE_LIST"), Unread(P, Next(s, rx)), WIDE_LINE, cut);
  }

  lemma CutCount(P: Params, s: Sync, rx: Rx, cut: seq<byte>)
    requires Synced(P, s, rx) && cut <= rx.input && s.stage == AtCount
    ensures s.at <= |s.files| && CutAt(P, rx, cut, ItemSize(P, s))
  {
    hide NoClash, FreshTape, Overlaid, GoodPlan, WellOrdered, Components, IsDir, Step, CutAt, MetaPart, Dec;
    SyncedStep(P, s, rx);
    DecPlain(|s.files|);
    DecLength64(|s.files|);
    Printable("FILES:");
    SomeLine(P, rx, CountLine(|s.files|), MetaPart(P, s.files, s.rest, 0), SHORT_LINE, cut);
  }

  lemma CutHashCount(P: Params, s: Sync, rx: Rx, cut: seq<byte>)
    requires Synced(P, s, rx) && cut <= rx.input && s.stage == AtHashCount
    ensures s.at <= |s.files| && CutAt(P, rx, cut, ItemSize(P, s))
  {
    hide NoClash, FreshTape, Overlaid, GoodPlan, WellOrdered, Components, IsDir, Step, CutAt, HashPart, Dec;
    hide ReceivedEntry, HeldFor;
    SyncedStep(P, s, rx);
    DecPlain(|s.files|);
    DecLength64(|s.files|);
    Printable("FILES:");
    Printable("HASH ");
    SomeLine(P, rx, HashCountLine(|s.files|), HashPart(P, s.files, s.rest, 0), SHORT_LINE, cut);
  }

  lemma CutMetaRecord(P: Params, files: seq<FileSpec>, rest: Plan, k: nat, rx: Rx, cut: seq<byte>)
    requires k < |files| && GoodFile(files[k]) && rx.input == MetaPart(P, files, rest, k) && cut <= rx.input
    requires rx.phase == Metadata && |rx.entries| < rx.count
    ensures CutAt(P, rx, cut, |Encode(MetaRecord(files[k]))|)
  {
    hide CutAt, MetaPart, Encode;
    MetaHead(P, files, rest, k);
    SomeRecord(P, rx, MetaRecord(files[k]), MetaPart(P, files, rest, k + 1), cut);
  }

  lemma MetaAhead(P: Params, s: Sync, rx: Rx)
    requires Synced(P, s, rx) && s.stage == AtMeta
    ensures s.at <= |s.files| && rx.input == MetaPart(P, s.files, s.rest, s.at)
    ensures |rx.entries| == s.at && rx.count == |s.files|
    ensures forall i :: 0 <= i < |s.files| ==> GoodFile(s.files[i])
  {
    hide NoClash, FreshTape, Overlaid, GoodPlan, WellOrdered, Components, IsDir, MetaPart, GoodDir;
  }

  lemma CutMeta(P: Params, s: Sync, rx: Rx, cut: seq<byte>)
    requires Synced(P, s, rx) && cut <= rx.input && s.stage == AtMeta
    ensures s.at <= |s.files| && CutAt(P, rx, cut, ItemSize(P, s))
  {
    hide Synced, CutAt, MetaPart, GoodFile;
    MetaAhead(P, s, rx);
    PositionFacts(P, s, rx);
    if s.at < |s.files| {
      CutMetaRecord(P, s.files, s.rest, s.at, rx, cut);
    } else {
      NoItem(P, rx, cut);
    }
  }

  lemma CutData(P: Params, s: Sync, rx: Rx, cut: seq<byte>)
    requires Synced(P, s, rx) && cut <= rx.input && s.stage == AtData
    ensures s.at <= |s.files| && CutAt(P, rx, cut, ItemSize(P, s))
  {
    hide NoClash, FreshTape, Overlaid, GoodPlan, WellOrdered, Components, IsDir, Step, CutAt, DataPart, ReceivedEntry;
    hide HeldFor;
    if s.at < |s.files| {
      SyncedStep(P, s, rx);
      DataHead(P, s.files, s.rest, s.at);
      SomeData(P, rx, s.files[s.at].content, DataPart(P, s.files, s.rest, s.at + 1), cut);
    } else {
      NoItem(P, rx, cut);
    }
  }

  lemma HashEncodable(P: Params, f: FileSpec)
    requires GoodFile(f)
    ensures Encodable(HashRecord(P, f))
  {
    hide FileDigest, FileTable;
    ChunkTableFits(P, f.content);
  }

  lemma HashesAhead(P: Params, s: Sync, rx: Rx)
    requires Synced(P, s, rx) && s.stage == AtHashes
    ensures s.at <= |s.files| && rx.input == HashPart(P, s.files, s.rest, s.at)
    ensures forall i :: 0 <= i < |s.files| ==> GoodFile(s.files[i])
  {
    hide NoClash, FreshTape, Overlaid, GoodPlan, WellOrdered, Components, IsDir, HashPart, ReceivedEntry, HeldFor;
    hide GoodDir;
  }

  lemma CutHashRecord(P: Params, files: seq<FileSpec>, rest: Plan, k: nat, rx: Rx, cut: seq<byte>)
    requires k < |files| && GoodFile(files[k]) && rx.input == HashPart(P, files, rest, k) && cut <= rx.input
    requires rx.phase == FileHashes && rx.index < rx.count && rx.index < |rx.entries|
    ensures CutAt(P, rx, cut, RecordSize(P, files[k]))
  {
    hide CutAt, HashPart, Encode, HashRecord, Encodable, GoodFile;
    HashHead(P, files, rest, k);
    HashEncodable(P, files[k]);
    SomeRecord(P, rx, HashRecord(P, files[k]), HashPart(P, files, rest, k + 1), cut);
  }

  lemma CutHashes(P: Params, s: Sync, rx: Rx, cut: seq<byte>)
    requires Synced(P, s, rx) && cut <= rx.input && s.stage == AtHashes
    ensures s.at <= |s.files| && CutAt(P, rx, cut, ItemSize(P, s))
  {
    hide Synced, CutAt, HashPart, GoodFile;
    HashesAhead(P, s, rx);
    PositionFacts(P, s, rx);
    if s.at < |s.files| {
      CutHashRecord(P, s.files, s.rest, s.at, rx, cut);
    } else {
      NoItem(P, rx, cut);
    }
  }

  // ---------------------------------------------------------------- runs on a cut stream

  /** The files still to come, before and after a step, and what the step placed. */
  lemma SentAhead(P: Params, s: Sync, rx: Rx)
    requires Synced(P, s, rx) && (s.stage != AtIdle || s.rest != [])
    requires s.stage == AtData && s.at < |s.files| ==> rx.tape != []
    requires s.stage == AtHashes && s.at < |s.files| ==> s.temps != [] && s.held != []
    ensures var to := Next(s, rx); var before, after := Sent(s.Remaining()), Sent(to.Remaining());
      if s.stage == AtHashes && s.at < |s.files| then
        before == [(Child(s.Dir(), s.files[s.at].name), s.files[s.at])] + after &&
        Files(to.dst) == Place(rx.mode, Files(s.dst), Child(s.Dir(), s.files[s.at].name), s.files[s.at].content)
      else before == after && Files(to.dst) == Files(s.dst)
  {
    hide Synced, Place, MkdirP, Child, Files, Sent, Located;
    Bounded(P, s, rx);
    if s.stage == AtIdle {
      IdleAhead(P, s, rx);
    } else if s.stage == AtHashes && s.at < |s.files| {
      FileAhead(s, rx);
      PlacedFiles(P, s, rx);
    } else {
      SameAhead(s, rx);
    }
  }

  lemma FileAhead(s: Sync, rx: Rx)
    requires s.stage == AtHashes && s.at < |s.files| && s.temps != [] && s.held != []
    ensures Sent(s.Remaining()) == [(Child(s.Dir(), s.files[s.at].name), s.files[s.at])] + Sent(Next(s, rx).Remaining())
  {
    hide Place, Child, Sent, Located;
    var to := Next(s, rx);
    assert s.Todo()[1..] == to.Todo();
    SentBatch(s.Dir(), s.Todo(), s.rest);
    SentBatch(to.Dir(), to.Todo(), to.rest);
  }

  lemma SameAhead(s: Sync, rx: Rx)
    requires s.stage != AtIdle && s.at <= |s.files| && (s.stage == AtHashes ==> s.at == |s.files|)
    requires s.stage == AtData && s.at < |s.files| ==> rx.tape != []
    ensures Sent(s.Remaining()) == Sent(Next(s, rx).Remaining()) && Next(s, rx).dst == s.dst
  {
    hide Child, Sent, Located;
    SentBatch(s.Dir(), s.Todo(), s.rest);
    if s.stage == AtHashes {
      assert s.Todo() == [];
      assert Located(s.Dir(), []) == [];
    }
  }

  lemma IdleAhead(P: Params, s: Sync, rx: Rx)
    requires Synced(P, s, rx) && s.stage == AtIdle && s.rest != []
    ensures s.at <= |s.files|
    ensures var to := Next(s, rx); Sent(s.Remaining()) == Sent(to.Remaining()) && Files(to.dst) == Files(s.dst)
  {
    hide Synced, MkdirP, Files;
    Bounded(P, s, rx);
    if s.rest[0].Enter? {
      FilesWithDirs(s.dst, s.rest[0].dir);
    } else {
      HereBatch(P, s, rx);
      assert Next(s, rx).Remaining() == [s.rest[0]] + s.rest[1..] == s.rest;
    }
  }

  lemma HereBatch(P: Params, s: Sync, rx: Rx)
    requires Synced(P, s, rx) && s.stage == AtIdle && s.rest != [] && s.rest[0].Batch?
    ensures s.current.Some? && s.rest[0].dir == s.current.value
  {
    hide NoClash, FreshTape, Overlaid, Components, IsDir, GoodPlan;
  }

  lemma SentBatch(dir: Path, files: seq<FileSpec>, rest: Plan)
    ensures Sent([Batch(dir, files)] + rest) == Located(dir, files) + Sent(rest)
    ensures files != [] ==> Located(dir, files) == [(Child(dir, files[0].name), files[0])] + Located(dir, files[1..])
  {
    assert ([Batch(dir, files)] + rest)[1..] == rest;
  }

  lemma PlacedFiles(P: Params, s: Sync, rx: Rx)
    requires Synced(P, s, rx) && s.stage == AtHashes && s.at < |s.files|
    ensures var p, c := Child(s.Dir(), s.files[s.at].name), s.files[s.at].content;
      Files(Place(rx.mode, s.dst, p, c)) == Place(rx.mode, Files(s.dst), p, c)
  {
    hide NoClash, FreshTape, Overlaid, Components, IsDir, GoodPlan, ReceivedEntry, HeldFor, Child, Unread;
    FinalPath(P, s, rx);
  }

  /** What is left behind: the files of `tree` with the first `m` of `files` laid over them. */
  ghost predicate LeftBehind(o: Outcome, mode: Mode, tree: FS, files: seq<(Path, FileSpec)>, m: nat) {
    m <= |files| && Files(Destination(o)) == Overlay(mode, tree, files[..m]) &&
    (o.Exited? ==> o.sawEnd && m == |files|)
  }

  lemma OneMore(o: Outcome, mode: Mode, tree: FS, p: Path, f: FileSpec, files: seq<(Path, FileSpec)>, m: nat)
    requires LeftBehind(o, mode, Place(mode, tree, p, f.content), files, m)
    ensures LeftBehind(o, mode, tree, [(p, f)] + files, m + 1)
  {
    hide Files, Place, Destination;
    var all := [(p, f)] + files;
    var taken := all[..m + 1];
    assert taken[1..] == files[..m] && taken[0] == (p, f);
    assert Overlay(mode, tree, taken) == Overlay(mode, Place(mode, tree, p, f.content), taken[1..]);
  }

  lemma NoneYet(o: Outcome, mode: Mode, tree: FS, files: seq<(Path, FileSpec)>)
    requires Files(Destination(o)) == tree && !o.Exited?
    ensures LeftBehind(o, mode, tree, files, 0)
  {
  }

  lemma CutEnd(P: Params, rx: Rx, cut: seq<byte>)
    requires rx.phase == Idle && rx.input == TRAILER && cut <= rx.input
    ensures var x := rx.(input := cut); var o := Run(P, x);
      Files(Destination(o)) == Files(rx.fs) && TempFiles(Destination(o)) == TempFiles(rx.fs) &&
      (o.Exited? <==> |cut| >= 3) && (o.Exited? ==> o.sawEnd) && AlwaysCounted(P, x, rx.totalBytes, rx.totalFiles)
  {
    hide ReadLine, CStr, MkdirP, Components, Step, AlwaysCounted;
    var x := rx.(input := cut);
    Printable("END");
    CutLine(Ascii("END"), [], cut);
    assert TRAILER + [] == TRAILER;
    assert Ascii("END")[0] == 69;
    if |cut| > 3 {
      assert cut == TRAILER;
      EndResult(P, x);
      CountedOn(P, x, rx.totalBytes, rx.totalFiles);
    } else if cut == Ascii("END") {
      EndAtEnd(P, x);
      CountedOn(P, x, rx.totalBytes, rx.totalFiles);
    } else {
      assert |cut| == 3 ==> cut == Ascii("END");
      PartOfLine(P, rx, Ascii("END"), [], WIDE_LINE, cut);
      StarvedRun(P, x);
    }
  }

  lemma EndAtEnd(P: Params, x: Rx)
    requires x.phase == Idle && x.input == Ascii("END")
    ensures Step(P, x) == Exited(x.(phase := Done, input := []), true)
  {
    hide ReadLine, CStr;
    Printable("END");
    LineAtEnd(Ascii("END"), WIDE_LINE);
    assert Ascii("END")[0] == 69 && Ascii("DIRECTORY: ")[0] == 68 && Ascii("FILE_LIST")[0] == 70;
  }

  lemma StarvedRun(P: Params, x: Rx)
    requires Starves(P, x)
    ensures Run(P, x).Failed? && Files(Run(P, x).fs) == Files(x.fs) && TempFiles(Run(P, x).fs) == TempFiles(x.fs)
    ensures AlwaysCounted(P, x, x.totalBytes, x.totalFiles)
  {
    hide Step, Dry, AlwaysCounted, Files, TempFiles;
    if Step(P, x).Go? {
      DryFails(P, Step(P, x).rx);
    }
    CountedOn(P, x, x.totalBytes, x.totalFiles);
  }

  lemma FilesHere(P: Params, s: Sync, rx: Rx)
    requires Synced(P, s, rx)
    ensures Files(rx.fs) == Files(s.dst)
  {
    hide NoClash, FreshTape, Components, IsDir, Unread, GoodPlan, WellOrdered, EntriesAt;
    OverlaidFiles(rx.fs, s.dst, s.Dir(), s.temps, s.held);
  }

  /** A synchronised receiver holds temporaries of its own exactly when the position says so. */
  lemma OverlaidTemps(fs: FS, dst: FS, dir: Path, temps: seq<Name>, held: seq<seq<byte>>)
    requires Overlaid(fs, dst, dir, temps, held)
    ensures LeavesTemp(TempFiles(dst), fs) <==> temps != []
  {
    hide IsTempName, Child;
    if temps != [] {
      assert TempHolds(fs, dst, Child(dir, temps[0]), held[0]);
      assert IsTemp(Child(dir, temps[0]));
      assert Child(dir, temps[0]) in TempFiles(fs);
    }
  }

  lemma TempsHere(P: Params, s: Sync, rx: Rx)
    requires Synced(P, s, rx)
    ensures LeavesTemp(TempFiles(s.dst), rx.fs) <==> s.temps != []
    ensures s.at <= |s.files| && (s.stage != AtIdle ==> s.files != [])
    ensures s.stage in {AtIdle, AtCount, AtMeta} ==> s.temps == []
    ensures s.stage == AtData ==> |s.temps| == s.at
    ensures s.stage == AtHashCount ==> |s.temps| == |s.files|
    ensures s.stage == AtHashes ==> |s.temps| == |s.files| - s.at
  {
    hide NoClash, FreshTape, Components, IsDir, Unread, GoodPlan, WellOrdered, Overlaid, ReceivedEntry, HeldFor;
    hide GoodDir, LeavesTemp;
    OverlaidTemps(rx.fs, s.dst, s.Dir(), s.temps, s.held);
  }

  // ---------------------------------------------------------------- what is still to come from a position

  /** Bytes from a position to the hash records of the batch under way, and to the end of its first file's data. */
  function ToHashes(s: Sync): nat
    requires s.at <= |s.files|
  {
    var line := |HashCountLine(|s.files|)| + 1;
    match s.stage
    case AtCount => |CountLine(|s.files|)| + 1 + |EncodeAll(MetaRecords(s.files))| + |Contents(s.files)| + line
    case AtMeta => |EncodeAll(MetaRecords(s.files[s.at..]))| + |Contents(s.files)| + line
    case AtData => |Contents(s.files[s.at..])| + line
    case AtHashCount => line
    case _ => 0
  }

  function ToFirst(s: Sync): nat
    requires s.at <= |s.files|
  {
    var first := if s.files == [] then 0 else |s.files[0].content|;
    match s.stage
    case AtCount => |CountLine(|s.files|)| + 1 + |EncodeAll(MetaRecords(s.files))| + first
    case AtMeta => |EncodeAll(MetaRecords(s.files[s.at..]))| + first
    case AtData => if s.at == 0 then first else 0
    case _ => 0
  }

  /** What `n` more bytes amount to from a position on. */
  function LandsAt(P: Params, mode: Mode, s: Sync, tree: FS, n: int): Landing
    requires s.at <= |s.files|
  {
    match s.stage
    case AtIdle => Lands(P, mode, tree, s.rest, n)
    case AtHashes => LandsIn(P, mode, tree, s.Dir(), s.files[s.at..], s.rest, n)
    case _ =>
      if n < ToHashes(s) then Landing(0, n >= ToFirst(s), false)
      else LandsIn(P, mode, tree, s.Dir(), s.files, s.rest, n - ToHashes(s))
  }

  lemma MetaLength(files: seq<FileSpec>, k: nat)
    requires k < |files|
    ensures |EncodeAll(MetaRecords(files[k..]))| == |Encode(MetaRecord(files[k]))| +
      |EncodeAll(MetaRecords(files[k + 1..]))|
  {
    hide Encode;
    assert MetaRecords(files[k..])[1..] == MetaRecords(files[k + 1..]);
  }

  lemma DataLength(files: seq<FileSpec>, k: nat)
    requires k < |files|
    ensures |Contents(files[k..])| == |files[k].content| + |Contents(files[k + 1..])|
  {
    assert files[k..][1..] == files[k + 1..];
  }

  /** An item that is read whole, other than a hash record, changes nothing of what the bytes amount to. */
  lemma LandsOn(P: Params, mode: Mode, s: Sync, rx: Rx, tree: FS, n: int)
    requires s.at <= |s.files| && (s.stage == AtIdle ==> s.rest != []) && n >= ItemSize(P, s)
    requires s.stage == AtIdle && s.rest[0].Batch? ==> s.rest[0].dir == s.Dir()
    requires s.stage == AtData && s.at < |s.files| ==> rx.tape != []
    requires s.stage == AtHashes ==> s.at == |s.files|
    ensures var to := Next(s, rx);
      to.at <= |to.files| && LandsAt(P, mode, to, tree, n - ItemSize(P, s)) == LandsAt(P, mode, s, tree, n)
  {
    hide LandsIn, Encode, DirectoryLine, Ascii, HashCountLine, CountLine, EncodeAll, Contents, RecordSize;
    var to := Next(s, rx);
    assert s.files[0..] == s.files && s.files[|s.files|..] == [];
    NothingEncoded();
    match s.stage
    case AtIdle =>
      assert s.rest[0].Batch? ==> HashesFrom(s.rest[0].files) == ItemSize(P, s) + ToHashes(to);
    case AtMeta => if s.at < |s.files| { MetaLength(s.files, s.at); }
    case AtData => if s.at < |s.files| { DataLength(s.files, s.at); }
    case AtHashes => NoFilesLand(P, mode, tree, s.Dir(), s.rest, n);
    case _ =>
  }

  lemma NothingEncoded()
    ensures EncodeAll(MetaRecords([])) == [] && Contents([]) == []
  {
  }

  lemma NoFilesLand(P: Params, mode: Mode, tree: FS, dir: Path, rest: Plan, n: int)
    ensures LandsIn(P, mode, tree, dir, [], rest, n) == Lands(P, mode, tree, rest, n)
  {
    hide Lands;
  }

  /** An item that is cut off: nothing more is laid, and the temporaries there are stay. */
  lemma LandsStarved(P: Params, mode: Mode, s: Sync, rx: Rx, tree: FS, n: nat)
    requires Synced(P, s, rx) && s.at <= |s.files| && n < ItemSize(P, s)
    ensures LandsAt(P, mode, s, tree, n) == Landing(0, s.temps != [], false)
  {
    hide Synced, Encode, DirectoryLine, Ascii, HashCountLine, CountLine, EncodeAll, Contents, RecordSize, Blocked;
    hide Place;
    TempsHere(P, s, rx);
    match s.stage
    case AtIdle =>
      if s.rest[0].Enter? {
        NothingLands(P, mode, tree, s.rest[1..], n - |CommandBytes(P, s.rest[0])|);
      } else {
        assert FirstData(s.rest[0].files) >= ItemSize(P, s);
        FirstDataWithin(s.rest[0].files);
      }
    case AtMeta => MetaLength(s.files, s.at);
    case AtData => DataLength(s.files, s.at);
    case _ =>
  }

  /** A hash record that is read whole: its file is laid, or safe mode blocks it. */
  lemma LandsFile(P: Params, mode: Mode, s: Sync, rx: Rx, tree: FS, n: int)
    requires s.stage == AtHashes && s.at < |s.files| && n >= RecordSize(P, s.files[s.at])
    requires s.temps != [] && s.held != []
    ensures var f := s.files[s.at]; var p := Child(s.Dir(), f.name); var l := LandsAt(P, mode, s, tree, n);
      if Blocked(P, mode, tree, p, f) then l == Landing(0, s.at + 1 < |s.files|, false)
      else var next := LandsAt(P, mode, Next(s, rx), Place(mode, tree, p, f.content), n - RecordSize(P, f));
           l == next.(laid := next.laid + 1)
  {
    hide Blocked, Place, RecordSize, Child, Lands;
    assert s.files[s.at..][1..] == s.files[s.at + 1..];
  }

  /** The plan names no temporary, and the destination has no directory in a file's place: its regular files decide. */
  lemma BlockedByFiles(P: Params, s: Sync, rx: Rx)
    requires Synced(P, s, rx) && s.stage == AtHashes && s.at < |s.files|
    ensures var f := s.files[s.at]; var p := Child(s.Dir(), f.name);
      Blocked(P, rx.mode, s.dst, p, f) == Blocked(P, rx.mode, Files(s.dst), p, f)
  {
    hide NoClash, FreshTape, Overlaid, Components, IsDir, GoodPlan, ReceivedEntry, HeldFor, Child, Unread, SafeAccepts;
    FinalPath(P, s, rx);
  }

  /** What the run from `x` comes to. */
  ghost predicate Amounts(P: Params, x: Rx, dst: FS, files: seq<(Path, FileSpec)>, l: Landing, bytes: nat, count: nat) {
    var o := Run(P, x);
    LeftBehind(o, x.mode, Files(dst), files, l.laid) && (LeavesTemp(TempFiles(dst), Destination(o)) <==> l.left) &&
    (o.Exited? <==> l.ended) && AlwaysCounted(P, x, bytes, count)
  }

  /** The item is cut off. */
  lemma StarvedAmounts(P: Params, s: Sync, rx: Rx, cut: seq<byte>)
    requires Synced(P, s, rx) && s.at <= |s.files| && |cut| < ItemSize(P, s) && Starves(P, rx.(input := cut))
    ensures Amounts(P, rx.(input := cut), s.dst, Sent(s.Remaining()), LandsAt(P, rx.mode, s, Files(s.dst), |cut|),
                    rx.totalBytes + BytesAhead(s), rx.totalFiles + FilesAhead(s))
  {
    hide Synced, Run, Starves, LandsAt, ItemSize, Files, TempFiles, AlwaysCounted, Sent, BytesAhead, FilesAhead;
    hide Overlay;
    var x := rx.(input := cut);
    StarvedRun(P, x);
    FilesHere(P, s, rx);
    TempsHere(P, s, rx);
    LandsStarved(P, rx.mode, s, rx, Files(s.dst), |cut|);
    NothingLaid(rx.mode, Files(s.dst), Sent(s.Remaining()));
    MoreCounted(P, x, x.totalBytes, x.totalFiles, rx.totalBytes + BytesAhead(s), rx.totalFiles + FilesAhead(s));
  }

  lemma NothingLaid(mode: Mode, tree: FS, files: seq<(Path, FileSpec)>)
    ensures Overlay(mode, tree, files[..0]) == tree
  {
    assert files[..0] == [];
  }

  /** Safe mode blocks the file whose record was just read. */
  lemma BlockedAmounts(P: Params, s: Sync, rx: Rx, cut: seq<byte>)
    requires Synced(P, s, rx) && s.stage == AtHashes && s.at < |s.files| &&
      Agrees(P, rx, cut, RecordSize(P, s.files[s.at]))
    requires Blocked(P, rx.mode, s.dst, Child(s.Dir(), s.files[s.at].name), s.files[s.at])
    ensures Amounts(P, rx.(input := cut), s.dst, Sent(s.Remaining()), LandsAt(P, rx.mode, s, Files(s.dst), |cut|),
                    rx.totalBytes + BytesAhead(s), rx.totalFiles + FilesAhead(s))
  {
    hide Synced, Step, LandsAt, Files, TempFiles, AlwaysCounted, Sent, BytesAhead, FilesAhead, Overlay, Blocked;
    hide RecordSize, Overlaid;
    hide Child;
    var x := rx.(input := cut);
    HashStep(P, s, rx);
    TempsHere(P, s, rx);
    BlockedByFiles(P, s, rx);
    LandsFile(P, rx.mode, s, rx, Files(s.dst), |cut|);
    OverlaidTemps(Step(P, rx).fs, s.dst, s.Dir(), s.temps[1..], s.held[1..]);
    NothingLaid(rx.mode, Files(s.dst), Sent(s.Remaining()));
    CountedOn(P, x, rx.totalBytes + BytesAhead(s), rx.totalFiles + FilesAhead(s));
  }

  /** The end of the plan: nothing is left to come but END. */
  lemma EndAmounts(P: Params, s: Sync, rx: Rx, cut: seq<byte>)
    requires Synced(P, s, rx) && cut <= rx.input && s.stage == AtIdle && s.rest == [] && s.at <= |s.files|
    ensures Amounts(P, rx.(input := cut), s.dst, Sent(s.Remaining()), LandsAt(P, rx.mode, s, Files(s.dst), |cut|),
                    rx.totalBytes + BytesAhead(s), rx.totalFiles + FilesAhead(s))
  {
    hide Synced, Run, TempFiles, Files, AlwaysCounted;
    PhaseMatches(P, s, rx);
    CutEnd(P, rx, cut);
    NothingLaid(rx.mode, Files(s.dst), Sent(s.Remaining()));
    SameTemps(TempFiles(s.dst), Destination(Run(P, rx.(input := cut))));
  }

  lemma SameTemps(temps: set<Path>, after: FS)
    requires TempFiles(after) == temps
    ensures !LeavesTemp(temps, after)
  {
  }

  /** The item is read whole and the run goes on as the uncut one does. */
  lemma OnwardAmounts(P: Params, s: Sync, rx: Rx, cut: seq<byte>, to: Sync, next: Rx, l: Landing)
    requires Synced(P, s, rx) && s.at <= |s.files| && (s.stage != AtIdle || s.rest != [])
    requires s.stage == AtHashes && s.at < |s.files| ==>
      !Blocked(P, rx.mode, s.dst, Child(s.Dir(), s.files[s.at].name), s.files[s.at])
    requires s.stage == AtData && s.at < |s.files| ==> rx.tape != []
    requires s.stage == AtHashes && s.at < |s.files| ==> s.temps != [] && s.held != []
    requires Agrees(P, rx, cut, ItemSize(P, s)) && Step(P, rx) == Go(next) && to == Next(s, rx) && Synced(P, to, next)
    requires l == LandsAt(P, rx.mode, to, Files(to.dst), |cut| - ItemSize(P, s)) &&
      TempFiles(to.dst) == TempFiles(s.dst)
    requires Amounts(P, next.(input := cut[ItemSize(P, s)..]), to.dst, Sent(to.Remaining()), l,
                     next.totalBytes + BytesAhead(to), next.totalFiles + FilesAhead(to))
    ensures Amounts(P, rx.(input := cut), s.dst, Sent(s.Remaining()), LandsAt(P, rx.mode, s, Files(s.dst), |cut|),
                    rx.totalBytes + BytesAhead(s), rx.totalFiles + FilesAhead(s))
  {
    hide Synced, Step, Next, LandsAt, Files, TempFiles, AlwaysCounted, Sent, BytesAhead, FilesAhead, Overlay, Blocked;
    hide RecordSize, ItemSize;
    hide Place, LeftBehind, LeavesTemp, Child;
    var x := rx.(input := cut);
    PhaseMatches(P, s, rx);
    PhaseMatches(P, to, next);
    NextStage(s, rx);
    TotalsKept(P, s, rx);
    SentAhead(P, s, rx);
    CountedOn(P, x, rx.totalBytes + BytesAhead(s), rx.totalFiles + FilesAhead(s));
    OneStep(P, x);
    if s.stage == AtHashes && s.at < |s.files| {
      HashItem(P, s);
      BlockedByFiles(P, s, rx);
      LandsFile(P, rx.mode, s, rx, Files(s.dst), |cut|);
      OneMore(Run(P, x), rx.mode, Files(s.dst), Child(s.Dir(), s.files[s.at].name), s.files[s.at],
        Sent(to.Remaining()), l.laid);
    } else {
      if s.stage == AtIdle && s.rest[0].Batch? { HereBatch(P, s, rx); }
      LandsOn(P, rx.mode, s, rx, Files(s.dst), |cut|);
    }
  }

  lemma OneStep(P: Params, x: Rx)
    requires Step(P, x).Go?
    ensures Run(P, x) == Run(P, Step(P, x).rx)
  {
    hide Step;
    StepProgress(P, x);
  }

  lemma HashItem(P: Params, s: Sync)
    requires s.stage == AtHashes && s.at < |s.files|
    ensures ItemSize(P, s) == RecordSize(P, s.files[s.at])
  {
    hide RecordSize;
  }

  /** What is placed is no temporary, and directories are none. */
  lemma TempsKept(P: Params, s: Sync, rx: Rx)
    requires Synced(P, s, rx) && s.at <= |s.files| && (s.stage != AtIdle || s.rest != [])
    requires s.stage == AtData && s.at < |s.files| ==> rx.tape != []
    requires s.stage == AtHashes && s.at < |s.files| ==> s.temps != [] && s.held != []
    ensures TempFiles(Next(s, rx).dst) == TempFiles(s.dst)
  {
    hide Synced, MkdirP, Child, TempFiles;
    if s.stage == AtIdle && s.rest[0].Enter? {
      FilesWithDirs(s.dst, s.rest[0].dir);
    } else if s.stage == AtHashes && s.at < |s.files| {
      PlacedIsNoTemp(P, s, rx);
    }
  }

  lemma PlacedIsNoTemp(P: Params, s: Sync, rx: Rx)
    requires Synced(P, s, rx) && s.stage == AtHashes && s.at < |s.files|
    ensures var p, c := Child(s.Dir(), s.files[s.at].name), s.files[s.at].content;
      TempFiles(Place(rx.mode, s.dst, p, c)) == TempFiles(s.dst)
  {
    hide NoClash, FreshTape, Overlaid, Components, IsDir, GoodPlan, ReceivedEntry, HeldFor, Child, Unread;
    FinalPath(P, s, rx);
  }

  /** Induction over the uncut run, the cut run following it until it starves. */
  lemma {:induction false} CutRun(P: Params, s: Sync, rx: Rx, cut: seq<byte>)
    requires Synced(P, s, rx) && cut <= rx.input && s.at <= |s.files|
    ensures Amounts(P, rx.(input := cut), s.dst, Sent(s.Remaining()), LandsAt(P, rx.mode, s, Files(s.dst), |cut|),
                    rx.totalBytes + BytesAhead(s), rx.totalFiles + FilesAhead(s))
    decreases |rx.input|, Rank(rx.phase), Left(rx)
  {
    hide Synced, Step, Next, Blocked, Sent, Starves, Amounts, ItemSize, LandsAt, BytesAhead, FilesAhead, RecordSize;
    if s.stage == AtIdle && s.rest == [] {
      EndAmounts(P, s, rx, cut);
      return;
    }
    CutStep(P, s, rx, cut);
    if |cut| < ItemSize(P, s) {
      StarvedAmounts(P, s, rx, cut);
    } else if s.stage == AtHashes && s.at < |s.files| &&
      Blocked(P, rx.mode, s.dst, Child(s.Dir(), s.files[s.at].name), s.files[s.at]) {
      HashItem(P, s);
      BlockedAmounts(P, s, rx, cut);
    } else {
      SyncedStep(P, s, rx);
      var to, next := Next(s, rx), Step(P, rx).rx;
      StepProgress(P, rx);
      Bounded(P, to, next);
      TempsKept(P, s, rx);
      TotalsKeptMode(P, s, rx);
      CutRun(P, to, next, cut[ItemSize(P, s)..]);
      OnwardAmounts(P, s, rx, cut, to, next, LandsAt(P, rx.mode, to, Files(to.dst), |cut| - ItemSize(P, s)));
    }
  }

  lemma TotalsKeptMode(P: Params, s: Sync, rx: Rx)
    requires Synced(P, s, rx) && Step(P, rx).Go?
    ensures Step(P, rx).rx.mode == rx.mode
  {
    hide Synced, Step;
    PhaseMatches(P, s, rx);
    StepFrame(P, rx);
  }

  // ---------------------------------------------------------------- a cut in the header

  lemma PartOfHeaderLine(P: Params, rx: Rx, line: seq<byte>, size: nat)
    requires rx.phase in {Version, ModeLine, StatBytes, StatFiles} && rx.input <= line && LF !in line && |line| < size
    requires size == if rx.phase == Version then VERSION_LINE else WIDE_LINE
    ensures Starves(P, rx)
  {
    hide ReadLine, CStr, ScanSize, ScanInt32, ParseMode;
    if rx.input != [] {
      LineAtEnd(rx.input, size);
    }
  }

  /** A stream cut inside the header changes nothing. */
  lemma HeaderCut(P: Params, fs: FS, tape: seq<Name>, dir: seq<byte>, mode: Mode, bytes: nat, files: nat,
      cut: seq<byte>)
    requires bytes < U64_LIMIT && files < U64_LIMIT
    requires cut <= Header(mode, bytes, files) && |cut| < |Header(mode, bytes, files)|
    ensures var x := Start(fs, tape, dir, cut); var o := Run(P, x);
      o.Failed? && Files(o.fs) == Files(fs) && TempFiles(o.fs) == TempFiles(fs) && AlwaysCounted(P, x, 0, 0)
  {
    hide Files, TempFiles, AlwaysCounted;
    hide Step, StatLine, ModeHeader, Header, Starves;
    var l3, l4 := StatLine(Ascii("STAT_BYTES:"), bytes), StatLine(Ascii("STAT_FILES:"), files);
    HeaderLayout(mode, bytes, files, []);
    assert Header(mode, bytes, files) + [] == Header(mode, bytes, files);
    var r3 := l4 + [LF] + [];
    var r2 := l3 + [LF] + r3;
    var r1 := ModeHeader(mode) + [LF] + r2;
    var rx0 := Start(fs, tape, dir, cut);
    VersionLiteral();
    CutLine(Ascii("VERSION: 0"), r1, cut);
    if |cut| <= 10 {
      PartOfHeaderLine(P, rx0, Ascii("VERSION: 0"), VERSION_LINE);
      StarvedRun(P, rx0);
      return;
    }
    var cut1 := cut[11..];
    var rx1 := rx0.(phase := ModeLine, input := cut1);
    VersionRead(rx0, cut1);
    assert Step(P, rx0) == Go(rx1) by { StepIs(P, rx0); }
    ModeLiteral(mode);
    CutLine(ModeHeader(mode), r2, cut1);
    if |cut1| <= |ModeHeader(mode)| {
      PartOfHeaderLine(P, rx1, ModeHeader(mode), WIDE_LINE);
      StarvedRun(P, rx1);
      CountedOn(P, rx0, 0, 0);
      return;
    }
    var cut2 := cut1[|ModeHeader(mode)| + 1..];
    var rx2 := rx1.(phase := StatBytes, mode := mode, input := cut2);
    ModeRead(rx1, mode, cut2);
    assert Step(P, rx1) == Go(rx2) by { StepIs(P, rx1); }
    StatCut(P, rx2, bytes, files, cut2);
    CountedOn(P, rx1, 0, 0);
    CountedOn(P, rx0, 0, 0);
  }

  lemma StepIs(P: Params, rx: Rx)
    ensures rx.phase == Version ==> Step(P, rx) == StepVersion(rx)
    ensures rx.phase == ModeLine ==> Step(P, rx) == StepMode(rx)
    ensures rx.phase == StatBytes ==> Step(P, rx) == StepStatBytes(rx)
  {
  }

  lemma StatPlain(literal: seq<byte>, n: nat)
    requires n < U64_LIMIT && |literal| < 100 && LF !in literal
    ensures LF !in StatLine(literal, n) && |StatLine(literal, n)| + 1 < WIDE_LINE
  {
    hide Dec;
    DecPlain(n);
    DecLength64(n);
  }

  lemma StatCut(P: Params, rx: Rx, bytes: nat, files: nat, cut: seq<byte>)
    requires bytes < U64_LIMIT && files < U64_LIMIT && rx.phase == StatBytes && rx.input == cut
    requires rx.totalBytes == 0 && rx.totalFiles == 0
    requires var l3, l4 := StatLine(Ascii("STAT_BYTES:"), bytes), StatLine(Ascii("STAT_FILES:"), files);
      cut <= l3 + [LF] + (l4 + [LF] + []) && |cut| < |l3| + |l4| + 2
    ensures Run(P, rx).Failed? && Files(Run(P, rx).fs) == Files(rx.fs) && TempFiles(Run(P, rx).fs) == TempFiles(rx.fs)
    ensures AlwaysCounted(P, rx, 0, 0)
  {
    hide Step, StatLine, Starves, Files, TempFiles, AlwaysCounted;
    var l3, l4 := StatLine(Ascii("STAT_BYTES:"), bytes), StatLine(Ascii("STAT_FILES:"), files);
    Printable("STAT_BYTES:");
    Printable("STAT_FILES:");
    StatPlain(Ascii("STAT_BYTES:"), bytes);
    StatPlain(Ascii("STAT_FILES:"), files);
    CutLine(l3, l4 + [LF] + [], cut);
    if |cut| <= |l3| {
      PartOfHeaderLine(P, rx, l3, WIDE_LINE);
      StarvedRun(P, rx);
    } else {
      var cut3 := cut[|l3| + 1..];
      var rx3 := rx.(phase := StatFiles, statBytes := bytes, input := cut3);
      StatBytesRead(rx, bytes, cut3);
      assert Step(P, rx) == Go(rx3) by { StepIs(P, rx); }
      CutLine(l4, [], cut3);
      PartOfHeaderLine(P, rx3, l4, WIDE_LINE);
      StarvedRun(P, rx3);
      CountedOn(P, rx, 0, 0);
    }
  }

  /** The counts of a run are those from the end of its header on. */
  lemma HeaderCounted(P: Params, fs: FS, tape: seq<Name>, dir: seq<byte>, mode: Mode, bytes: nat, files: nat,
      rest: seq<byte>, b: nat, f: nat)
    requires bytes < U64_LIMIT && files < U64_LIMIT
    requires AlwaysCounted(P, Greeted(fs, tape, dir, mode, bytes, files, rest), b, f)
    ensures AlwaysCounted(P, Start(fs, tape, dir, Header(mode, bytes, files) + rest), b, f)
  {
    hide Step, Header, AlwaysCounted;
    var rx1, rx2, rx3 := HeaderSteps(P, fs, tape, dir, mode, bytes, files, rest);
    CountedOn(P, rx3, b, f);
    CountedOn(P, rx2, b, f);
    CountedOn(P, rx1, b, f);
    CountedOn(P, Start(fs, tape, dir, Header(mode, bytes, files) + rest), b, f);
  }

  lemma GoodIsSubstantial(plan: Plan)
    requires GoodPlan(plan)
    ensures Substantial(plan)
  {
    forall i | 0 <= i < |plan| && plan[i].Batch? ensures plan[i].files != [] {
      assert GoodCommand(plan[i]);
    }
  }

  /** The run of a stream cut off in its header or after it, in terms of the bytes of the plan that arrived. */
  lemma Arrives(P: Params, fs: FS, tape: seq<Name>, dir: seq<byte>, mode: Mode, bytes: nat, files: nat, plan: Plan,
      cut: seq<byte>)
    requires Transferable(fs, tape, plan) && bytes < U64_LIMIT && files < U64_LIMIT
    requires cut <= Stream(P, mode, bytes, files, plan)
    ensures var x := Start(fs, tape, dir, cut); var o := Run(P, x);
      var l := Lands(P, mode, Files(fs), plan, |cut| - |Header(mode, bytes, files)|);
      LeftBehind(o, mode, Files(fs), Sent(plan), l.laid) && (LeavesTemp(TempFiles(fs), Destination(o)) <==> l.left) &&
      (o.Exited? <==> l.ended) && AlwaysCounted(P, x, PlanBytesIn(plan), PlanFileCount(plan))
  {
    hide Synced, Transferable, Run, LeftBehind, LeavesTemp, Header, PlanBytes, Sent, Lands, Files, TempFiles;
    hide AlwaysCounted;
    var header, body := Header(mode, bytes, files), PlanBytes(P, plan) + TRAILER;
    var x := Start(fs, tape, dir, cut);
    if |cut| < |header| {
      assert cut <= header;
      HeaderCut(P, fs, tape, dir, mode, bytes, files, cut);
      NothingLands(P, mode, Files(fs), plan, |cut| - |header|);
      NoneYet(Run(P, x), mode, Files(fs), Sent(plan));
      SameTemps(TempFiles(fs), Destination(Run(P, x)));
      MoreCounted(P, x, 0, 0, PlanBytesIn(plan), PlanFileCount(plan));
    } else {
      var rest := cut[|header|..];
      assert cut == header + rest && rest <= body by {
        assert (header + body)[..|cut|] == cut && (header + body)[|header|..] == body;
      }
      HeaderRun(P, fs, tape, dir, mode, bytes, files, rest);
      OpeningSynced(P, fs, tape, dir, mode, bytes, files, plan);
      var rx := Greeted(fs, tape, dir, mode, bytes, files, body);
      CutRun(P, Opening(fs, plan), rx, rest);
      assert rx.(input := rest) == Greeted(fs, tape, dir, mode, bytes, files, rest);
      HeaderCounted(P, fs, tape, dir, mode, bytes, files, rest, PlanBytesIn(plan), PlanFileCount(plan));
    }
  }

  /**
   * Truncation. Whatever byte prefix of a sender's stream arrives, the files left behind are the old ones with those
   * files laid over them whose hash records have arrived, up to the first that safe mode blocks. END is reported if
   * and only if nothing is blocked and at most the last newline is missing. A temporary is left behind if and only if
   * the last byte read lies in a batch after its first file's data and before the end of its last hash record. At no
   * moment have more files or bytes been counted than the plan holds.
   */
  lemma Truncated(P: Params, fs: FS, tape: seq<Name>, dir: seq<byte>, mode: Mode, bytes: nat, files: nat, plan: Plan,
      cut: seq<byte>)
    requires Transferable(fs, tape, plan) && bytes < U64_LIMIT && files < U64_LIMIT
    requires cut <= Stream(P, mode, bytes, files, plan)
    ensures var x := Start(fs, tape, dir, cut); var o := Run(P, x);
      var tree, n := Files(fs), |cut| - |Header(mode, bytes, files)|;
      LeftBehind(o, mode, tree, Sent(plan), Laid(P, mode, tree, plan, n)) &&
      (o.Exited? <==> FirstBlocked(P, mode, tree, Sent(plan)) == |Sent(plan)| && n >= |PlanBytes(P, plan)| + 3) &&
      (LeavesTemp(TempFiles(fs), Destination(o)) <==>
        exists i: nat :: BatchOpen(P, plan, i, LastRead(P, mode, tree, plan, n))) &&
      AlwaysCounted(P, x, PlanBytesIn(plan), PlanFileCount(plan))
  {
    hide Run, LeftBehind, LeavesTemp, Header, Sent, Lands, Laid, LastRead, BatchOpen, FirstBlocked, PlanBytes;
    hide Files, TempFiles, AlwaysCounted, Stream, WellOrdered, NoClash, FreshTape, GoodPlan;
    Arrives(P, fs, tape, dir, mode, bytes, files, plan, cut);
    GoodIsSubstantial(plan);
    LandsPlainly(P, mode, Files(fs), plan, |cut| - |Header(mode, bytes, files)|);
  }
}
