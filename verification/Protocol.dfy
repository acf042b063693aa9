/** The receiver as a value: its state, one step on the head of the stream, and whole runs. */
module Protocol {
  import opened Bytes
  import opened Digests
  import opened Codec
  import opened FileSystem

  const MAX_FILES: nat := 1024
  const PATH_MAX: nat := 4096
  const WIDE_LINE: nat := PATH_MAX + 128
  const SHORT_LINE: nat := 128
  const VERSION_LINE: nat := 64

  datatype Settings = Settings(H: HashFn, chunk: nat)

  /** The hash function and the (positive) chunk size shared by all parties. */
  type Params = s: Settings | s.chunk > 0 witness Settings((x: seq<byte>) => ZERO_DIGEST, 1)

  datatype Mode = Append | Safe | Force

  datatype Phase =
    | Idle | Version | ModeLine | StatBytes | StatFiles | ExpectDir | ExpectFileList
    | FileCount | Metadata | FileData | HashCount | FileHashes | Done

  datatype Entry = Entry(name: Name, size: nat, hash: Digest, chunks: seq<Digest>, temp: Name)

  /**
   * The receiver, the destination and the unread stream. `index` is the loop position inside the
   * data and hash phases; `tape` lists the names the coming `mkstemp` calls will draw.
   */
  datatype Rx = Rx(
    phase: Phase, mode: Mode, dir: seq<byte>,
    count: nat, entries: seq<Entry>, capacity: nat, index: nat, received: nat,
    totalFiles: nat, totalBytes: nat, statBytes: nat, statFiles: nat,
    fs: FS, tape: seq<Name>, input: seq<byte>)

  /** Continue, give up (return -1), or leave through exit(0) after END or after an empty line. */
  datatype Outcome = Go(rx: Rx) | Failed(fs: FS) | Exited(rx: Rx, sawEnd: bool)

  function Start(fs: FS, tape: seq<Name>, dir: seq<byte>, input: seq<byte>): Rx {
    Rx(Version, Append, dir, 0, [], 0, 0, 0, 0, 0, 0, 0, fs, tape, input)
  }

  function FilePath(rx: Rx, name: Name): Path { Child(Components(rx.dir), name) }

  function TempPath(rx: Rx, e: Entry): Path { Child(Components(rx.dir), e.temp) }

  function Names(entries: seq<Entry>): (r: set<Name>)
    ensures forall i :: 0 <= i < |entries| ==> entries[i].name in r
  {
    set i | 0 <= i < |entries| :: entries[i].name
  }

  // ---------------------------------------------------------------- header lines

  function StepVersion(rx: Rx): (o: Outcome)
    ensures o.Go? ==> |o.rx.input| < |rx.input|
  {
    match ReadLine(rx.input, VERSION_LINE)
    case None => Failed(rx.fs)
    case Some((raw, rest)) =>
      if ScanInt32(CStr(raw), Ascii("VERSION:")) == Some(0)
      then Go(rx.(phase := ModeLine, input := rest)) else Failed(rx.fs)
  }

  function ParseMode(word: seq<byte>): Option<Mode> {
    if word == Ascii("append") then Some(Append)
    else if word == Ascii("safe") then Some(Safe)
    else if word == Ascii("force") then Some(Force)
    else None
  }

  function StepMode(rx: Rx): (o: Outcome)
    ensures o.Go? ==> |o.rx.input| < |rx.input|
  {
    match ReadLine(rx.input, WIDE_LINE)
    case None => Failed(rx.fs)
    case Some((raw, rest)) =>
      var line := CStr(raw);
      if !(Ascii("MODE: ") <= line) then Failed(rx.fs)
      else match ParseMode(line[6..])
           case None => Failed(rx.fs)
           case Some(m) => Go(rx.(phase := StatBytes, mode := m, input := rest))
  }

  function StepStatBytes(rx: Rx): (o: Outcome)
    ensures o.Go? ==> |o.rx.input| < |rx.input|
  {
    match ReadLine(rx.input, WIDE_LINE)
    case None => Failed(rx.fs)
    case Some((raw, rest)) =>
      match ScanSize(CStr(raw), Ascii("STAT_BYTES:"))
      case None => Failed(rx.fs)
      case Some(n) => Go(rx.(phase := StatFiles, statBytes := n, input := rest))
  }

  function StepStatFiles(rx: Rx): (o: Outcome)
    ensures o.Go? ==> |o.rx.input| < |rx.input|
  {
    match ReadLine(rx.input, WIDE_LINE)
    case None => Failed(rx.fs)
    case Some((raw, rest)) =>
      match ScanSize(CStr(raw), Ascii("STAT_FILES:"))
      case None => Failed(rx.fs)
      case Some(n) => Go(rx.(phase := Idle, statFiles := n, input := rest))
  }

  function Truncate(s: seq<byte>, n: nat): seq<byte> { if |s| <= n then s else s[..n] }

  function StepIdle(rx: Rx): (o: Outcome)
    ensures o.Go? ==> |o.rx.input| < |rx.input|
  {
    match ReadLine(rx.input, WIDE_LINE)
    case None => Failed(rx.fs)
    case Some((raw, rest)) => IdleLine(rx.(input := rest), CStr(raw))
  }

  /** Between batches: an empty line, a directory, the start of a batch, or END. */
  function IdleLine(rx: Rx, line: seq<byte>): (o: Outcome)
    ensures o.Go? ==> o.rx.input == rx.input
  {
    if IsBlank(line) then Go(rx.(phase := Done))
    else if Ascii("DIRECTORY: ") <= line then
      var dir := Truncate(line[11..], PATH_MAX - 1);
      var (made, ok) := MkdirP(rx.fs, Components(dir));
      if ok then Go(rx.(dir := dir, fs := made)) else Failed(made)
    else if Ascii("FILE_LIST") <= line then Go(rx.(phase := FileCount))
    else if line == Ascii("END") then Exited(rx.(phase := Done), true)
    else Failed(rx.fs)
  }

  function StepFileList(rx: Rx): (o: Outcome)
    ensures o.Go? ==> |o.rx.input| < |rx.input|
  {
    match ReadLine(rx.input, SHORT_LINE)
    case None => Failed(rx.fs)
    case Some((raw, rest)) =>
      if CStr(raw) == Ascii("FILE_LIST") then Go(rx.(phase := FileCount, input := rest)) else Failed(rx.fs)
  }

  function StepFileCount(rx: Rx): (o: Outcome)
    ensures o.Go? ==> |o.rx.input| < |rx.input|
  {
    match ReadLine(rx.input, SHORT_LINE)
    case None => Failed(rx.fs)
    case Some((raw, rest)) =>
      match ScanSize(CStr(raw), Ascii("FILES:"))
      case None => Failed(rx.fs)
      case Some(n) =>
        if n > MAX_FILES then Failed(rx.fs)
        else Go(rx.(phase := Metadata, count := n, received := 0, entries := [], index := 0,
                    capacity := if rx.capacity < n then n else rx.capacity, input := rest))
  }

  // ---------------------------------------------------------------- the three phases of a batch

  /** Phase 1, one entry; past the last one the data phase starts without reading anything. */
  function StepMetadata(rx: Rx): (o: Outcome)
    ensures o.Go? ==> |o.rx.input| < |rx.input| || (o.rx.input == rx.input && o.rx.phase == FileData)
  {
    if |rx.entries| >= rx.count then Go(rx.(phase := FileData, index := 0))
    else
      match Decode(rx.input)
      case None => Failed(rx.fs)
      case Some((r, rest)) =>
        Go(rx.(entries := rx.entries + [Entry(r.name, r.size, r.hash, r.chunks, [])], input := rest))
  }

  /** The entry after its data was read: hash, and chunk table when it exceeds one chunk, are computed ones. */
  function Received(P: Params, e: Entry, data: seq<byte>): (r: Entry)
    ensures r.name == e.name && r.size == e.size && r.temp == e.temp
  {
    if |data| == 0 then e
    else if |data| > P.chunk then
      e.(hash := FileDigest(P.H, P.chunk, data), chunks := ChunkHashes(P.H, P.chunk, data))
    else e.(hash := P.H(data))
  }

  /** Phase 2, one entry: draw a temporary, copy the data into it unless append mode skips the file. */
  function StepData(P: Params, rx: Rx): (o: Outcome)
    ensures o.Go? ==> |o.rx.input| <= |rx.input|
    ensures o.Go? && |o.rx.input| == |rx.input| ==> o.rx.input == rx.input
    ensures o.Go? ==>
      o.rx.phase == HashCount ||
        (o.rx.phase == rx.phase && o.rx.count == rx.count && rx.index < rx.count && o.rx.index == rx.index + 1)
  {
    if rx.count == 0 || |rx.entries| != rx.count then Failed(rx.fs)
    else if rx.index >= rx.count then Go(rx.(phase := HashCount))
    else
      var e := rx.entries[rx.index];
      var skip := rx.mode == Append && FilePath(rx, e.name) in rx.fs;
      match Mkstemp(rx.fs, Components(rx.dir), rx.tape, Names(rx.entries))
      case None => Failed(rx.fs)
      case Some(temp) =>
        match Take(rx.input, e.size)
        case None => Failed(rx.fs)
        case Some((data, rest)) =>
          Go(rx.(entries := rx.entries[rx.index := Received(P, e.(temp := temp), data)],
                 index := rx.index + 1,
                 totalBytes := rx.totalBytes + e.size,
                 fs := rx.fs[Child(Components(rx.dir), temp) := File(if skip then [] else data)],
                 tape := rx.tape[1..],
                 input := rest))
  }

  function StepHashCount(rx: Rx): (o: Outcome)
    ensures o.Go? ==> |o.rx.input| < |rx.input|
  {
    match ReadLine(rx.input, SHORT_LINE)
    case None => Failed(rx.fs)
    case Some((raw, rest)) =>
      var line := CStr(raw);
      if !(Ascii("HASH") <= line) then Failed(rx.fs)
      else
        match ScanSize(SkipSpaces(line[4..]), Ascii("FILES:"))
        case None => Failed(rx.fs)
        case Some(n) =>
          if n > MAX_FILES then Failed(rx.fs)
          else Go(rx.(phase := FileHashes, index := 0, input := rest))
  }

  /** The hash record confirms what was announced and what was received. */
  predicate CrossChecked(e: Entry, r: Record) {
    r.name == e.name && r.size == e.size && (e.size > 0 ==> r.hash == e.hash) && r.chunks == e.chunks
  }

  /** The verdict of the safe-mode verifiers on an existing node. */
  predicate SafeAccepts(P: Params, node: Node, e: Entry) {
    node.File? && |node.content| == e.size &&
    e.hash == FileDigest(P.H, P.chunk, node.content) &&
    (|node.content| > P.chunk ==> e.chunks == ChunkHashes(P.H, P.chunk, node.content))
  }

  /** What becomes of a verified entry: discarded, or moved to its final path in one rename. */
  function Commit(P: Params, rx: Rx, e: Entry): (FS, bool) {
    var final, temp := FilePath(rx, e.name), TempPath(rx, e);
    if final in rx.fs && rx.mode != Force then
      (Unlink(rx.fs, temp), rx.mode == Append || SafeAccepts(P, rx.fs[final], e))
    else
      match Rename(rx.fs, temp, final)
      case None => (Unlink(rx.fs, temp), false)
      case Some(renamed) => (renamed, true)
  }

  /** Phase 3, one entry; past the last one the totals are updated and the receiver is idle again. */
  function StepHashes(P: Params, rx: Rx): (o: Outcome)
    ensures o.Go? ==> |o.rx.input| < |rx.input| || (o.rx.input == rx.input && o.rx.phase == Idle)
  {
    if rx.index >= rx.count || rx.index >= |rx.entries| then
      Go(rx.(phase := Idle, received := rx.received + rx.index, totalFiles := rx.totalFiles + rx.index))
    else
      match Decode(rx.input)
      case None => Failed(rx.fs)
      case Some((r, rest)) =>
        var e := rx.entries[rx.index];
        if !CrossChecked(e, r) then Failed(rx.fs)
        else
          var (fs, ok) := Commit(P, rx, e);
          if ok then Go(rx.(index := rx.index + 1, fs := fs, input := rest)) else Failed(fs)
  }

  // ---------------------------------------------------------------- runs

  function Step(P: Params, rx: Rx): Outcome {
    match rx.phase
    case Version => StepVersion(rx)
    case ModeLine => StepMode(rx)
    case StatBytes => StepStatBytes(rx)
    case StatFiles => StepStatFiles(rx)
    case Idle => StepIdle(rx)
    case ExpectFileList => StepFileList(rx)
    case FileCount => StepFileCount(rx)
    case Metadata => StepMetadata(rx)
    case FileData => StepData(P, rx)
    case HashCount => StepHashCount(rx)
    case FileHashes => StepHashes(P, rx)
    case Done => Exited(rx, false)
    case ExpectDir => Failed(rx.fs)
  }

  function Rank(phase: Phase): nat {
    match phase
    case Metadata => 5
    case FileData => 4
    case HashCount => 3
    case FileHashes => 2
    case Idle => 1
    case _ => 0
  }

  function Left(rx: Rx): nat {
    if rx.phase.FileData? && rx.index < rx.count then rx.count - rx.index else 0
  }

  /** Every step that continues makes progress: bytes, else a later phase, else a later entry. */
  lemma StepProgress(P: Params, rx: Rx)
    requires Step(P, rx).Go?
    ensures var next := Step(P, rx).rx;
      |next.input| < |rx.input| ||
      (next.input == rx.input && (Rank(next.phase) < Rank(rx.phase) ||
                                  (next.phase == rx.phase && Left(next) < Left(rx))))
  {
  }

  /** The driver loop: step until the receiver gives up or leaves. */
  function Run(P: Params, rx: Rx): (o: Outcome)
    ensures !o.Go?
    decreases |rx.input|, Rank(rx.phase), Left(rx)
  {
    match Step(P, rx)
    case Go(next) => StepProgress(P, rx); Run(P, next)
    case stopped => stopped
  }

  /** Stepping for as long as the receiver stays in one phase: what one call of a handler amounts to. */
  function Handler(P: Params, rx: Rx, phase: Phase): Outcome
    decreases |rx.input|, Rank(rx.phase), Left(rx)
  {
    if rx.phase != phase then Go(rx)
    else match Step(P, rx)
         case Go(next) => StepProgress(P, rx); Handler(P, next, phase)
         case stopped => stopped
  }

  /** Running on after a handler call is the same as running. */
  lemma {:induction false} HandlerThenRun(P: Params, rx: Rx, phase: Phase)
    ensures Run(P, rx) == match Handler(P, rx, phase) case Go(next) => Run(P, next) case stopped => stopped
    decreases |rx.input|, Rank(rx.phase), Left(rx)
  {
    if rx.phase == phase && Step(P, rx).Go? {
      StepProgress(P, rx);
      HandlerThenRun(P, Step(P, rx).rx, phase);
    }
  }

  /** The first `k` steps of a run (fewer when it stops earlier). */
  function After(P: Params, rx: Rx, k: nat): Outcome
    decreases k
  {
    if k == 0 then Go(rx)
    else match Step(P, rx)
         case Go(next) => After(P, next, k - 1)
         case stopped => stopped
  }

  /** One step further; a run that has stopped stays where it is. */
  lemma {:induction false} AfterNext(P: Params, start: Rx, k: nat)
    ensures After(P, start, k + 1) == match After(P, start, k) case Go(rx) => Step(P, rx) case stopped => stopped
    decreases k
  {
    hide Step;
    if k > 0 && Step(P, start).Go? {
      AfterNext(P, Step(P, start).rx, k - 1);
    } else if k == 0 && Step(P, start).Go? {
      assert After(P, Step(P, start).rx, 0) == Step(P, start);
    }
  }

  /** Running on from any moment of a run is the same as running. */
  lemma {:induction false} RunFrom(P: Params, rx: Rx, k: nat)
    requires After(P, rx, k).Go?
    ensures Run(P, rx) == Run(P, After(P, rx, k).rx)
    decreases k
  {
    hide Step;
    if k > 0 {
      StepProgress(P, rx);
      RunFrom(P, Step(P, rx).rx, k - 1);
    }
  }

  /** A run is its steps up to some moment. */
  lemma {:induction false} RunIsAfter(P: Params, rx: Rx) returns (k: nat)
    ensures After(P, rx, k) == Run(P, rx)
    decreases |rx.input|, Rank(rx.phase), Left(rx)
  {
    hide Step;
    k := 1;
    if Step(P, rx).Go? {
      StepProgress(P, rx);
      var rest := RunIsAfter(P, Step(P, rx).rx);
      k := rest + 1;
    } else {
      assert After(P, rx, 1) == Step(P, rx);
    }
  }

  /** The destination at a moment of a run. */
  function Destination(o: Outcome): FS {
    match o
    case Go(rx) => rx.fs
    case Failed(fs) => fs
    case Exited(rx, _) => rx.fs
  }
}
