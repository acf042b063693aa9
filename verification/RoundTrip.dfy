/** The receiver run on a sender's stream, step by step, and the destination it leaves. */
module RoundTrip {
  import opened Bytes
  import opened Digests
  import opened Codec
  import opened FileSystem
  import opened Protocol
  import opened Snapshot

  // ---------------------------------------------------------------- temporaries beside a destination

  /** `fs` is `dst` plus the temporaries `temps` of directory `dir`, holding `held`. */
  ghost predicate Overlaid(fs: FS, dst: FS, dir: Path, temps: seq<Name>, held: seq<seq<byte>>) {
    |temps| == |held| &&
    (forall i :: 0 <= i < |temps| ==> IsTempName(temps[i])) &&
    (forall i, j :: 0 <= i < j < |temps| ==> temps[i] != temps[j]) &&
    (forall i :: 0 <= i < |temps| ==> TempHolds(fs, dst, Child(dir, temps[i]), held[i])) &&
    (forall p :: p in dst ==> p in fs && fs[p] == dst[p]) &&
    (forall p :: p in fs && p !in dst ==> p != [] && Parent(p) == dir && Leaf(p) in temps)
  }

  ghost predicate TempHolds(fs: FS, dst: FS, temp: Path, content: seq<byte>) {
    temp !in dst && temp in fs && fs[temp] == File(content)
  }

  lemma AddTemp(fs: FS, dst: FS, dir: Path, temps: seq<Name>, held: seq<seq<byte>>, t: Name, c: seq<byte>)
    requires Overlaid(fs, dst, dir, temps, held) && IsTempName(t) && Child(dir, t) !in fs
    ensures Overlaid(fs[Child(dir, t) := File(c)], dst, dir, temps + [t], held + [c])
  {
    hide Child, IsTempName;
    var at, more := Child(dir, t), fs[Child(dir, t) := File(c)];
    forall i | 0 <= i < |temps| ensures temps[i] != t && TempHolds(more, dst, Child(dir, temps[i]), held[i]) {
      assert TempHolds(fs, dst, Child(dir, temps[i]), held[i]);
    }
    assert TempHolds(more, dst, at, c);
    assert forall p :: p in more && p !in dst && p != at ==> p in fs;
    assert t in temps + [t];
    assert forall n :: n in temps ==> n in temps + [t];
  }

  lemma DropTemp(fs: FS, dst: FS, dir: Path, temps: seq<Name>, held: seq<seq<byte>>)
    requires Overlaid(fs, dst, dir, temps, held) && temps != []
    ensures Overlaid(fs - {Child(dir, temps[0])}, dst, dir, temps[1..], held[1..])
  {
    hide Child, IsTempName;
    var at, less := Child(dir, temps[0]), fs - {Child(dir, temps[0])};
    forall i | 0 < i < |temps| ensures TempHolds(less, dst, Child(dir, temps[i]), held[i]) {
      assert TempHolds(fs, dst, Child(dir, temps[i]), held[i]);
    }
    assert TempHolds(fs, dst, at, held[0]);
    forall p | p in less && p !in dst ensures p != [] && Parent(p) == dir && Leaf(p) in temps[1..] {
      ChildOfParent(p);
    }
  }

  lemma WriteThrough(fs: FS, dst: FS, dir: Path, temps: seq<Name>, held: seq<seq<byte>>, p: Path, node: Node)
    requires Overlaid(fs, dst, dir, temps, held) && !IsTemp(p)
    ensures Overlaid(fs[p := node], dst[p := node], dir, temps, held)
  {
    hide Child, IsTempName;
    forall i | 0 <= i < |temps| ensures TempHolds(fs[p := node], dst[p := node], Child(dir, temps[i]), held[i]) {
      assert TempHolds(fs, dst, Child(dir, temps[i]), held[i]);
    }
  }

  lemma NotTemporary(fs: FS, dst: FS, dir: Path, temps: seq<Name>, held: seq<seq<byte>>, p: Path)
    requires Overlaid(fs, dst, dir, temps, held) && !IsTemp(p)
    ensures p in fs <==> p in dst
  {
  }

  lemma NoTemps(fs: FS, dst: FS, dir: Path)
    requires Overlaid(fs, dst, dir, [], [])
    ensures fs == dst
  {
  }

  lemma OverlaidFiles(fs: FS, dst: FS, dir: Path, temps: seq<Name>, held: seq<seq<byte>>)
    requires Overlaid(fs, dst, dir, temps, held)
    ensures Files(fs) == Files(dst)
  {
  }

  // ---------------------------------------------------------------- positions in a stream

  datatype Stage = AtIdle | AtCount | AtMeta | AtData | AtHashCount | AtHashes

  /**
   * Where sender and receiver are: the destination so far (without temporaries), the directory
   * announced last, the batch under way, the position in its current phase, the commands after it,
   * and the temporaries that exist, with what they hold.
   */
  datatype Sync = Sync(
    stage: Stage, dst: FS, current: Option<Path>, files: seq<FileSpec>, at: nat, rest: Plan,
    temps: seq<Name>, held: seq<seq<byte>>)
  {
    function Dir(): Path { if current.Some? then current.value else [] }

    function Todo(): seq<FileSpec> { if stage == AtHashes && at <= |files| then files[at..] else files }

    /** What is still to be deployed. */
    function Remaining(): Plan { if stage == AtIdle then rest else [Batch(Dir(), Todo())] + rest }

    function TempsNeeded(): nat {
      PlanFileCount(rest) +
      match stage
      case AtCount => |files|
      case AtMeta => |files|
      case AtData => if at <= |files| then |files| - at else 0
      case _ => 0
    }
  }

  function Tail(P: Params, rest: Plan): seq<byte> { PlanBytes(P, rest) + TRAILER }

  function HashPart(P: Params, files: seq<FileSpec>, rest: Plan, k: nat): seq<byte>
    requires k <= |files|
  {
    EncodeAll(HashRecords(P, files[k..])) + Tail(P, rest)
  }

  function HashCountPart(P: Params, files: seq<FileSpec>, rest: Plan): seq<byte> {
    HashCountLine(|files|) + [LF] + HashPart(P, files, rest, 0)
  }

  function DataPart(P: Params, files: seq<FileSpec>, rest: Plan, k: nat): seq<byte>
    requires k <= |files|
  {
    Contents(files[k..]) + HashCountPart(P, files, rest)
  }

  function MetaPart(P: Params, files: seq<FileSpec>, rest: Plan, k: nat): seq<byte>
    requires k <= |files|
  {
    EncodeAll(MetaRecords(files[k..])) + DataPart(P, files, rest, 0)
  }

  /** The bytes the receiver has still to read. */
  function Unread(P: Params, s: Sync): seq<byte>
    requires s.at <= |s.files|
  {
    match s.stage
    case AtIdle => Tail(P, s.rest)
    case AtCount => CountLine(|s.files|) + [LF] + MetaPart(P, s.files, s.rest, 0)
    case AtMeta => MetaPart(P, s.files, s.rest, s.at)
    case AtData => DataPart(P, s.files, s.rest, s.at)
    case AtHashCount => HashCountPart(P, s.files, s.rest)
    case AtHashes => HashPart(P, s.files, s.rest, s.at)
  }

  ghost predicate HeldFor(mode: Mode, dst: FS, dir: Path, f: FileSpec, held: seq<byte>) {
    held == f.content || (mode == Append && Child(dir, f.name) in dst)
  }

  function MetaEntry(f: FileSpec): Entry { Entry(f.name, |f.content|, ZERO_DIGEST, [], []) }

  ghost predicate EntriesAt(P: Params, s: Sync, rx: Rx)
    requires s.at <= |s.files|
  {
    match s.stage
    case AtMeta => |rx.entries| == s.at && forall j :: 0 <= j < s.at ==> rx.entries[j] == MetaEntry(s.files[j])
    case AtData =>
      |rx.entries| == |s.files| && rx.index == s.at == |s.temps| == |s.held| &&
      (forall j :: s.at <= j < |s.files| ==> rx.entries[j] == MetaEntry(s.files[j])) &&
      (forall j :: 0 <= j < s.at ==> rx.entries[j] == ReceivedEntry(P, s.files[j], s.temps[j]) &&
                                     HeldFor(rx.mode, s.dst, s.Dir(), s.files[j], s.held[j]))
    case AtHashCount =>
      |rx.entries| == |s.files| == |s.temps| == |s.held| &&
      (forall j :: 0 <= j < |s.files| ==> rx.entries[j] == ReceivedEntry(P, s.files[j], s.temps[j]) &&
                                          HeldFor(rx.mode, s.dst, s.Dir(), s.files[j], s.held[j]))
    case AtHashes =>
      |rx.entries| == |s.files| && rx.index == s.at && |s.files| - s.at == |s.temps| == |s.held| &&
      (forall j :: s.at <= j < |s.files| ==> rx.entries[j] == ReceivedEntry(P, s.files[j], s.temps[j - s.at]) &&
                                             HeldFor(rx.mode, s.dst, s.Dir(), s.files[j], s.held[j - s.at]))
    case _ => true
  }

  function PhaseOf(stage: Stage): Phase {
    match stage
    case AtIdle => Idle
    case AtCount => FileCount
    case AtMeta => Metadata
    case AtData => FileData
    case AtHashCount => HashCount
    case AtHashes => FileHashes
  }

  /** The plan side of the relation: what is left to send makes sense for the destination. */
  ghost predicate Sendable(s: Sync) {
    s.at <= |s.files| && GoodPlan(s.rest) && WellOrdered(s.rest, s.current) &&
    NoClash(s.dst, [Batch(s.Dir(), s.files)] + s.rest) &&
    (s.current.Some? ==> IsDir(s.dst, s.current.value)) &&
    (s.stage != AtIdle ==> s.current.Some? && GoodCommand(Batch(s.Dir(), s.files))) &&
    (s.stage in {AtIdle, AtCount, AtMeta} ==> s.temps == [] && s.held == []) &&
    (s.stage == AtIdle ==> s.files == [])
  }

  /** The receiver is where the sender's stream says it is. */
  ghost predicate Synced(P: Params, s: Sync, rx: Rx) {
    Sendable(s) &&
    rx.phase == PhaseOf(s.stage) && rx.input == Unread(P, s) &&
    (s.current.Some? ==> Components(rx.dir) == s.current.value) &&
    FreshTape(rx.tape, rx.fs, s.TempsNeeded()) &&
    Overlaid(rx.fs, s.dst, s.Dir(), s.temps, s.held) &&
    (s.stage != AtIdle && s.stage != AtCount ==> rx.count == |s.files|) &&
    EntriesAt(P, s, rx)
  }

  /** The position after the next step. */
  function Next(s: Sync, rx: Rx): Sync
    requires s.at <= |s.files| && (s.stage == AtIdle ==> s.rest != [])
    requires s.stage == AtData && s.at < |s.files| ==> rx.tape != []
    requires s.stage == AtHashes && s.at < |s.files| ==> s.temps != [] && s.held != []
  {
    match s.stage
    case AtIdle =>
      (match s.rest[0]
       case Enter(dir) => s.(dst := MkdirP(s.dst, dir).0, current := Some(dir), rest := s.rest[1..])
       case Batch(_, files) => s.(stage := AtCount, files := files, at := 0, rest := s.rest[1..]))
    case AtCount => s.(stage := AtMeta, at := 0)
    case AtMeta =>
      if s.at < |s.files| then s.(at := s.at + 1) else s.(stage := AtData, at := 0)
    case AtData =>
      if s.at < |s.files| then
        var f := s.files[s.at];
        var skip := rx.mode == Append && Child(s.Dir(), f.name) in s.dst;
        s.(at := s.at + 1, temps := s.temps + [rx.tape[0]], held := s.held + [if skip then [] else f.content])
      else s.(stage := AtHashCount, at := 0)
    case AtHashCount => s.(stage := AtHashes, at := 0)
    case AtHashes =>
      if s.at < |s.files| then
        var f := s.files[s.at];
        s.(dst := Place(rx.mode, s.dst, Child(s.Dir(), f.name), f.content), at := s.at + 1,
           temps := s.temps[1..], held := s.held[1..])
      else s.(stage := AtIdle, files := [], at := 0)
  }

  // ---------------------------------------------------------------- lines

  /** A line of the sender is read whole and the newline with it. */
  lemma LineRead(line: seq<byte>, rest: seq<byte>, size: nat)
    requires size > 1 && LF !in line && NUL !in line && |line| + 1 < size
    ensures ReadLine(line + [LF] + rest, size) == Some((line, rest)) && CStr(line) == line
  {
    LineFramed(line, rest, size);
  }

  lemma DecPlain(n: nat)
    ensures LF !in Dec(n) && NUL !in Dec(n)
  {
    forall i | 0 <= i < |Dec(n)| ensures Dec(n)[i] != LF && Dec(n)[i] != NUL {
      assert IsDigit(Dec(n)[i]);
    }
  }

  lemma CountRead(n: nat, rest: seq<byte>)
    requires n < U64_LIMIT
    ensures ReadLine(CountLine(n) + [LF] + rest, SHORT_LINE) == Some((CountLine(n), rest))
    ensures CStr(CountLine(n)) == CountLine(n) && ScanSize(CountLine(n), Ascii("FILES:")) == Some(n)
  {
    DecPlain(n);
    DecLength64(n);
    LineRead(CountLine(n), rest, SHORT_LINE);
    HeaderRoundTrip(Ascii("FILES:"), n);
  }

  lemma HashCountRead(n: nat, rest: seq<byte>)
    requires n < U64_LIMIT
    ensures ReadLine(HashCountLine(n) + [LF] + rest, SHORT_LINE) == Some((HashCountLine(n), rest))
    ensures CStr(HashCountLine(n)) == HashCountLine(n) && Ascii("HASH") <= HashCountLine(n)
    ensures ScanSize(SkipSpaces(HashCountLine(n)[4..]), Ascii("FILES:")) == Some(n)
  {
    DecPlain(n);
    DecLength64(n);
    LineRead(HashCountLine(n), rest, SHORT_LINE);
    CountRead(n, rest);
    HashLiteral(n);
  }

  lemma HashLiteral(n: nat)
    ensures Ascii("HASH") <= HashCountLine(n) && SkipSpaces(HashCountLine(n)[4..]) == CountLine(n)
  {
    hide Dec;
    var line := HashCountLine(n);
    assert line[4..] == [32] + CountLine(n);
    assert ([32] + CountLine(n))[1..] == CountLine(n);
    assert CountLine(n)[0] == 70;
  }

  lemma {:induction false} JoinPlain(dir: Path)
    requires forall i :: 0 <= i < |dir| ==> GoodDirName(dir[i])
    ensures LF !in Join(dir) && NUL !in Join(dir)
  {
    if |dir| > 1 {
      JoinPlain(Parent(dir));
    }
  }

  lemma DirectoryRead(dir: Path, rest: seq<byte>)
    requires GoodDir(dir)
    ensures ReadLine(DirectoryLine(dir) + [LF] + rest, WIDE_LINE) == Some((DirectoryLine(dir), rest))
    ensures CStr(DirectoryLine(dir)) == DirectoryLine(dir) && !IsBlank(DirectoryLine(dir))
    ensures Ascii("DIRECTORY: ") <= DirectoryLine(dir)
    ensures Truncate(DirectoryLine(dir)[11..], PATH_MAX - 1) == Join(dir) && Components(Join(dir)) == dir
  {
    hide Join, ReadLine, CStr;
    JoinPlain(dir);
    Printable("DIRECTORY: ");
    LineRead(DirectoryLine(dir), rest, WIDE_LINE);
    assert !IsSpace(DirectoryLine(dir)[0]);
    assert DirectoryLine(dir)[11..] == Join(dir);
    ComponentsOfJoin(dir);
  }

  // ---------------------------------------------------------------- the destination along the way

  /** `later` needs no directory and no file that `plan` does not need. */
  ghost predicate Within(later: Plan, plan: Plan) {
    (forall q :: PlanDir(later, q) ==> PlanDir(plan, q)) && (forall p :: PlanFile(later, p) ==> PlanFile(plan, p))
  }

  lemma WithinShifted(later: Plan, plan: Plan, k: nat)
    requires |later| + k <= |plan|
    requires forall i :: 0 <= i < |later| ==>
      later[i].dir == plan[i + k].dir && forall p :: InBatchOf(later[i], p) ==> InBatchOf(plan[i + k], p)
    ensures Within(later, plan)
  {
    hide Above;
    forall q | PlanDir(later, q) ensures PlanDir(plan, q) {
      var i :| 0 <= i < |later| && Above(q, later[i].dir);
      assert Above(q, plan[i + k].dir);
    }
    forall p | PlanFile(later, p) ensures PlanFile(plan, p) {
      var i :| 0 <= i < |later| && InBatchOf(later[i], p);
      assert InBatchOf(plan[i + k], p);
    }
  }

  /** Filling in what the plan needs, as the plan needs it, keeps the rest of the plan free of clashes. */
  lemma NoClashKept(dst: FS, after: FS, plan: Plan, later: Plan)
    requires NoClash(dst, plan) && Within(later, plan) && IsDir(after, [])
    requires forall p :: p in after ==>
      (p in dst && after[p].Dir? == dst[p].Dir?) || (after[p].Dir? && PlanDir(plan, p)) ||
        (after[p].File? && PlanFile(plan, p))
    ensures NoClash(after, later)
  {
    hide PlanDir, PlanFile;
  }

  lemma LeafOfAncestor(q: Path, dir: Path)
    requires Above(q, dir) && q != [] && GoodDir(dir)
    ensures !IsTempName(Leaf(q))
  {
    assert GoodDirName(dir[|q| - 1]);
  }

  lemma FreshAfterDir(tape: seq<Name>, fs: FS, needed: nat, dir: Path)
    requires FreshTape(tape, fs, needed) && GoodDir(dir)
    ensures FreshTape(tape, MkdirP(fs, dir).0, needed)
  {
    hide IsTempName, GoodDir;
    var made := MkdirP(fs, dir).0;
    MkdirPAdds(fs, dir);
    forall p, i | p in made && p != [] && 0 <= i < |tape| ensures Leaf(p) != tape[i] {
      if p !in fs {
        LeafOfAncestor(p, dir);
      }
    }
  }

  lemma FreshAfterWrite(tape: seq<Name>, fs: FS, needed: nat, p: Path, node: Node)
    requires FreshTape(tape, fs, needed) && (p in fs || p == [] || !IsTempName(Leaf(p)))
    ensures FreshTape(tape, fs[p := node], needed)
  {
    hide IsTempName;
  }

  /** Drawing a name and creating its file leaves the remaining names fresh. */
  lemma FreshAfterDraw(tape: seq<Name>, fs: FS, needed: nat, dir: Path, node: Node)
    requires FreshTape(tape, fs, needed) && needed > 0
    ensures FreshTape(tape[1..], fs[Child(dir, tape[0]) := node], needed - 1)
    ensures IsTempName(tape[0]) && Child(dir, tape[0]) !in fs
  {
    hide IsTempName, Child;
  }

  lemma FreshAfterDrop(tape: seq<Name>, fs: FS, needed: nat, p: Path)
    requires FreshTape(tape, fs, needed)
    ensures FreshTape(tape, fs - {p}, needed)
  {
  }

  /** The directory of the command exists afterwards, and nothing clashes with the commands after it. */
  lemma EnterDestination(dst: FS, here: Path, plan: Plan)
    requires plan != [] && plan[0].Enter? && NoClash(dst, [Batch(here, [])] + plan)
    ensures var dir := plan[0].dir; var made := MkdirP(dst, dir).0;
      MkdirP(dst, dir).1 && IsDir(made, dir) && NoClash(made, [Batch(dir, [])] + plan[1..])
  {
    hide Above;
    var dir := plan[0].dir;
    var before, later := [Batch(here, [])] + plan, [Batch(dir, [])] + plan[1..];
    forall q | Above(q, dir) ensures PlanDir(before, q) {
      assert before[1].dir == dir;
    }
    MkdirPSucceeds(dst, dir);
    MkdirPAdds(dst, dir);
    assert Above(dir, dir) by { SelfAbove(dir); }
    WithinShifted(later, before, 1);
    NoClashKept(dst, MkdirP(dst, dir).0, before, later);
  }

  lemma SelfAbove(p: Path)
    ensures Above(p, p) && Above([], p)
  {
  }

  // ---------------------------------------------------------------- steps

  ghost predicate StepsTo(P: Params, rx: Rx, to: Sync) {
    Step(P, rx).Go? && Synced(P, to, Step(P, rx).rx)
  }

  /** What one step does on a DIRECTORY line. */
  lemma EnterResult(P: Params, rx: Rx, dir: Path, rest: seq<byte>)
    requires rx.phase == Idle && rx.input == DirectoryLine(dir) + [LF] + rest && GoodDir(dir)
    requires MkdirP(rx.fs, dir).1
    ensures Step(P, rx) == Go(rx.(dir := Join(dir), fs := MkdirP(rx.fs, dir).0, input := rest))
  {
    hide ReadLine, IsBlank, Truncate, CStr, MkdirP, DirectoryLine, Components, GoodDir;
    DirectoryRead(dir, rest);
  }

  lemma EnterStep(P: Params, s: Sync, rx: Rx)
    requires Synced(P, s, rx) && s.stage == AtIdle && s.rest != [] && s.rest[0].Enter?
    ensures StepsTo(P, rx, Next(s, rx))
  {
    hide NoClash, FreshTape, MkdirP, Overlaid, DirectoryLine, Components, GoodDir, IsDir, Step;
    var dir, to := s.rest[0].dir, Next(s, rx);
    assert PlanBytes(P, s.rest) + TRAILER == DirectoryLine(dir) + [LF] + Tail(P, to.rest);
    assert GoodCommand(s.rest[0]);
    NoTemps(rx.fs, s.dst, s.Dir());
    EnterDestination(s.dst, s.Dir(), s.rest);
    EnterResult(P, rx, dir, Tail(P, to.rest));
    FreshAfterDir(rx.tape, rx.fs, s.TempsNeeded(), dir);
    NothingHeld(to.dst, dir);
    DirectoryRead(dir, Tail(P, to.rest));
  }

  lemma NothingHeld(dst: FS, dir: Path)
    ensures Overlaid(dst, dst, dir, [], [])
  {
  }

  lemma BatchLayout(P: Params, s: Sync)
    requires s.at == 0
    ensures BatchBytes(P, s.files) + PlanBytes(P, s.rest) + TRAILER ==
      Ascii("FILE_LIST") + [LF] + (CountLine(|s.files|) + [LF] + MetaPart(P, s.files, s.rest, 0))
  {
    hide Ascii, Dec, CountLine, HashCountLine, EncodeAll, Contents, PlanBytes;
    assert s.files[0..] == s.files;
  }

  lemma ListLineRead(rest: seq<byte>)
    ensures ReadLine(Ascii("FILE_LIST") + [LF] + rest, WIDE_LINE) == Some((Ascii("FILE_LIST"), rest))
    ensures var l := Ascii("FILE_LIST"); CStr(l) == l && !IsBlank(l) && !(Ascii("DIRECTORY: ") <= l)
  {
    hide ReadLine, CStr;
    Printable("FILE_LIST");
    LineRead(Ascii("FILE_LIST"), rest, WIDE_LINE);
    assert Ascii("FILE_LIST")[0] == 70 && Ascii("DIRECTORY: ")[0] == 68;
  }

  lemma ListResult(P: Params, rx: Rx, rest: seq<byte>)
    requires rx.phase == Idle && rx.input == Ascii("FILE_LIST") + [LF] + rest
    ensures Step(P, rx) == Go(rx.(phase := FileCount, input := rest))
  {
    hide ReadLine, IsBlank, CStr;
    ListLineRead(rest);
  }

  lemma ListStep(P: Params, s: Sync, rx: Rx)
    requires Synced(P, s, rx) && s.stage == AtIdle && s.rest != [] && s.rest[0].Batch?
    ensures StepsTo(P, rx, Next(s, rx))
  {
    hide NoClash, FreshTape, Overlaid, Components, GoodDir, IsDir, BatchBytes, Step, Ascii, MetaPart;
    var to := Next(s, rx);
    BatchLayout(P, to);
    assert rx.input == Ascii("FILE_LIST") + [LF] + Unread(P, to);
    ListResult(P, rx, Unread(P, to));
    assert GoodCommand(s.rest[0]);
    assert [s.rest[0]] + s.rest[1..] == s.rest;
    ListDestination(s.dst, s.Dir(), s.rest);
  }

  lemma ListDestination(dst: FS, here: Path, plan: Plan)
    requires plan != [] && plan[0].Batch? && plan[0].dir == here && NoClash(dst, [Batch(here, [])] + plan)
    ensures NoClash(dst, plan)
  {
    hide NoClash;
    WithinShifted(plan, [Batch(here, [])] + plan, 1);
    SameClash(dst, [Batch(here, [])] + plan, plan);
  }

  lemma CountStep(P: Params, s: Sync, rx: Rx)
    requires Synced(P, s, rx) && s.stage == AtCount
    ensures StepsTo(P, rx, Next(s, rx))
  {
    hide NoClash, FreshTape, ReadLine, ScanSize, CStr, Overlaid, Components, IsDir, CountLine, MetaPart;
    CountRead(|s.files|, MetaPart(P, s.files, s.rest, 0));
  }

  lemma MetaHead(P: Params, files: seq<FileSpec>, rest: Plan, k: nat)
    requires k < |files| && GoodFile(files[k])
    ensures MetaPart(P, files, rest, k) == Encode(MetaRecord(files[k])) + MetaPart(P, files, rest, k + 1)
    ensures Decode(MetaPart(P, files, rest, k)) == Some((MetaRecord(files[k]), MetaPart(P, files, rest, k + 1)))
  {
    hide Encode, Decode, DataPart;
    var records := MetaRecords(files[k..]);
    assert records[1..] == MetaRecords(files[k + 1..]);
    assert files[k..][1..] == files[k + 1..];
    RecordRoundTrip(MetaRecord(files[k]), MetaPart(P, files, rest, k + 1));
  }

  lemma MetaSendable(s: Sync, rx: Rx)
    requires Sendable(s) && s.stage == AtMeta
    ensures s.at <= |s.files| <= MAX_FILES && Sendable(Next(s, rx))
    ensures forall i :: 0 <= i < |s.files| ==> GoodFile(s.files[i])
    ensures s.temps == [] && s.held == []
  {
    hide NoClash, GoodDir, GoodPlan, WellOrdered;
  }

  lemma MetaResult(P: Params, rx: Rx, r: Record, rest: seq<byte>)
    requires rx.phase == Metadata && |rx.entries| < rx.count && Decode(rx.input) == Some((r, rest))
    ensures Step(P, rx) == Go(rx.(entries := rx.entries + [Entry(r.name, r.size, r.hash, r.chunks, [])], input := rest))
  {
    hide Decode;
  }

  lemma MetaStep(P: Params, s: Sync, rx: Rx)
    requires Synced(P, s, rx) && s.stage == AtMeta && s.at < |s.files|
    ensures StepsTo(P, rx, Next(s, rx))
  {
    hide Sendable, FreshTape, Decode, Overlaid, Components, MetaPart, DataPart, PlanFileCount, Step, EntriesAt;
    MetaSendable(s, rx);
    MetaHead(P, s.files, s.rest, s.at);
    MetaListed(P, s, rx);
    MetaResult(P, rx, MetaRecord(s.files[s.at]), MetaPart(P, s.files, s.rest, s.at + 1));
    MetaListed(P, Next(s, rx), Step(P, rx).rx);
  }

  /** In the metadata phase the entries are the announcements read so far. */
  lemma MetaListed(P: Params, s: Sync, rx: Rx)
    requires s.stage == AtMeta && s.at <= |s.files|
    ensures EntriesAt(P, s, rx) <==> rx.entries == seq(s.at, j requires 0 <= j < |s.files| => MetaEntry(s.files[j]))
  {
  }

  lemma MetaDone(P: Params, s: Sync, rx: Rx)
    requires Synced(P, s, rx) && s.stage == AtMeta && s.at == |s.files|
    ensures StepsTo(P, rx, Next(s, rx))
  {
    hide Sendable, FreshTape, Decode, Overlaid, Components, MetaPart, DataPart, PlanFileCount;
    MetaSendable(s, rx);
    MetaEnd(P, s.files, s.rest);
  }

  lemma MetaEnd(P: Params, files: seq<FileSpec>, rest: Plan)
    ensures MetaPart(P, files, rest, |files|) == DataPart(P, files, rest, 0)
  {
    assert files[|files|..] == [];
  }

  lemma DataHead(P: Params, files: seq<FileSpec>, rest: Plan, k: nat)
    requires k < |files|
    ensures Take(DataPart(P, files, rest, k), |files[k].content|) ==
      Some((files[k].content, DataPart(P, files, rest, k + 1)))
  {
    hide HashCountPart;
    assert files[k..][1..] == files[k + 1..];
    assert DataPart(P, files, rest, k) == files[k].content + DataPart(P, files, rest, k + 1);
    TakeAppend(files[k].content, DataPart(P, files, rest, k + 1));
  }

  lemma DataEnd(P: Params, files: seq<FileSpec>, rest: Plan)
    ensures DataPart(P, files, rest, |files|) == HashCountPart(P, files, rest)
  {
    assert files[|files|..] == [];
  }

  lemma NamesAreGood(files: seq<FileSpec>, entries: seq<Entry>)
    requires |files| == |entries| && forall j :: 0 <= j < |files| ==>
      entries[j].name == files[j].name && GoodFile(files[j])
    ensures forall n :: n in Names(entries) ==> !IsTempName(n)
  {
  }

  lemma DataStepDraws(P: Params, s: Sync, rx: Rx)
    requires Synced(P, s, rx) && s.stage == AtData && s.at < |s.files|
    ensures rx.tape != [] && Mkstemp(rx.fs, Components(rx.dir), rx.tape, Names(rx.entries)) == Some(rx.tape[0])
    ensures IsTempName(rx.tape[0]) && Child(s.Dir(), rx.tape[0]) !in rx.fs
    ensures Components(rx.dir) == s.Dir()
    ensures FilePath(rx, s.files[s.at].name) in rx.fs <==> Child(s.Dir(), s.files[s.at].name) in s.dst
  {
    hide NoClash, Unread, GoodDir, PlanFileCount, Child, Components;
    assert GoodFile(s.files[s.at]);
    FreshAfterDraw(rx.tape, rx.fs, s.TempsNeeded(), s.Dir(), Dir);
    NamesAreGood(s.files, rx.entries);
    NotTemporary(rx.fs, s.dst, s.Dir(), s.temps, s.held, FilePath(rx, s.files[s.at].name));
  }

  lemma DataResult(P: Params, s: Sync, rx: Rx)
    requires Synced(P, s, rx) && s.stage == AtData && s.at < |s.files| && rx.tape != []
    ensures var f, to := s.files[s.at], Next(s, rx); var temp := rx.tape[0];
      Step(P, rx) == Go(rx.(entries := rx.entries[s.at := ReceivedEntry(P, f, temp)], index := s.at + 1,
        totalBytes := rx.totalBytes + |f.content|, fs := rx.fs[Child(s.Dir(), temp) := File(to.held[s.at])],
        tape := rx.tape[1..], input := DataPart(P, s.files, s.rest, s.at + 1)))
  {
    hide Sendable, FreshTape, Overlaid, Mkstemp, Take, DataPart, Child, Components, PlanFileCount, Received, HeldFor;
    hide Names;
    DataStepDraws(P, s, rx);
    DataHead(P, s.files, s.rest, s.at);
  }

  lemma DataStep(P: Params, s: Sync, rx: Rx)
    requires Synced(P, s, rx) && s.stage == AtData && s.at < |s.files|
    ensures rx.tape != [] && StepsTo(P, rx, Next(s, rx))
  {
    hide NoClash, GoodPlan, WellOrdered, GoodCommand, FreshTape, Overlaid, Step, DataPart, Child, Components, IsDir;
    hide PlanFileCount, ReceivedEntry, EntriesAt;
    DataStepDraws(P, s, rx);
    DataResult(P, s, rx);
    var f, to := s.files[s.at], Next(s, rx);
    DataEntered(P, s, rx, to, Step(P, rx).rx, rx.tape[0]);
    AddTemp(rx.fs, s.dst, s.Dir(), s.temps, s.held, rx.tape[0], to.held[s.at]);
    FreshAfterDraw(rx.tape, rx.fs, s.TempsNeeded(), s.Dir(), File(to.held[s.at]));
  }

  /** One more entry received, with its temporary and what that holds. */
  lemma DataEntered(P: Params, s: Sync, rx: Rx, to: Sync, next: Rx, temp: Name)
    requires s.stage == AtData && s.at < |s.files| && EntriesAt(P, s, rx)
    requires rx.tape != [] && temp == rx.tape[0] && to == Next(s, rx)
    requires next.entries == rx.entries[s.at := ReceivedEntry(P, s.files[s.at], temp)] && next.index == s.at + 1 &&
      next.mode == rx.mode
    ensures EntriesAt(P, to, next)
    ensures |s.temps| == |s.held| == s.at && |rx.entries| == |s.files|
  {
    hide Child, ReceivedEntry;
  }

  lemma DataDone(P: Params, s: Sync, rx: Rx)
    requires Synced(P, s, rx) && s.stage == AtData && s.at == |s.files|
    ensures StepsTo(P, rx, Next(s, rx))
  {
    hide NoClash, FreshTape, Overlaid, Components, GoodDir, IsDir, PlanFileCount, ReceivedEntry, GoodPlan, WellOrdered;
    DataEnd(P, s.files, s.rest);
  }

  lemma HashCountStep(P: Params, s: Sync, rx: Rx)
    requires Synced(P, s, rx) && s.stage == AtHashCount
    ensures StepsTo(P, rx, Next(s, rx))
  {
    hide NoClash, FreshTape, ReadLine, ScanSize, SkipSpaces, CStr, Overlaid, Components, IsDir, HashCountLine;
    hide HashPart, ReceivedEntry, PlanFileCount;
    HashCountRead(|s.files|, HashPart(P, s.files, s.rest, 0));
  }

  lemma ChunkTableFits(P: Params, c: seq<byte>)
    ensures |FileTable(P.H, P.chunk, c)| <= |c|
  {
    ChunksFit(c, P.chunk);
  }

  lemma {:induction false} ChunksFit(c: seq<byte>, size: nat)
    requires size > 0
    ensures |Chunks(c, size)| <= |c|
    decreases |c|
  {
    if |c| > size {
      ChunksFit(c[size..], size);
    }
  }

  lemma HashHead(P: Params, files: seq<FileSpec>, rest: Plan, k: nat)
    requires k < |files| && GoodFile(files[k])
    ensures Decode(HashPart(P, files, rest, k)) == Some((HashRecord(P, files[k]), HashPart(P, files, rest, k + 1)))
    ensures HashPart(P, files, rest, k) == Encode(HashRecord(P, files[k])) + HashPart(P, files, rest, k + 1)
  {
    hide Encode, Decode, Tail, FileDigest, FileTable;
    var records := HashRecords(P, files[k..]);
    assert records[1..] == HashRecords(P, files[k + 1..]);
    assert files[k..][1..] == files[k + 1..];
    ChunkTableFits(P, files[k].content);
    assert HashPart(P, files, rest, k) == Encode(HashRecord(P, files[k])) + HashPart(P, files, rest, k + 1);
    RecordRoundTrip(HashRecord(P, files[k]), HashPart(P, files, rest, k + 1));
  }

  /** The hash record of a file confirms what the receiver computed from its bytes. */
  lemma RecordConfirms(P: Params, f: FileSpec, temp: Name)
    ensures CrossChecked(ReceivedEntry(P, f, temp), HashRecord(P, f))
  {
  }

  lemma HashesDone(P: Params, s: Sync, rx: Rx)
    requires Synced(P, s, rx) && s.stage == AtHashes && s.at == |s.files|
    ensures StepsTo(P, rx, Next(s, rx))
    ensures Step(P, rx).rx.totalFiles == rx.totalFiles + |s.files|
  {
    hide FreshTape, Overlaid, Components, GoodDir, Tail, NoClash, ReceivedEntry;
    assert s.files[|s.files|..] == [];
    assert rx.input == Tail(P, s.rest);
    var plan, later := [Batch(s.Dir(), s.files)] + s.rest, [Batch(s.Dir(), [])] + s.rest;
    WithinShifted(later, plan, 0);
    SameClash(s.dst, plan, later);
  }

  lemma SameClash(dst: FS, plan: Plan, later: Plan)
    requires NoClash(dst, plan) && Within(later, plan)
    ensures NoClash(dst, later)
  {
    NoClashKept(dst, dst, plan, later);
  }

  /** A file the plan names: it is no temporary, no directory, and its directory is there. */
  lemma FinalPath(P: Params, s: Sync, rx: Rx)
    requires Sendable(s) && s.stage == AtHashes && s.at < |s.files|
    ensures var p := Child(s.Dir(), s.files[s.at].name);
      !IsTemp(p) && PlanFile([Batch(s.Dir(), s.files)] + s.rest, p) && (p in s.dst ==> s.dst[p].File?)
  {
    hide Child, PlanDir;
    var plan, p := [Batch(s.Dir(), s.files)] + s.rest, Child(s.Dir(), s.files[s.at].name);
    assert GoodFile(s.files[s.at]);
    assert plan[0] == Batch(s.Dir(), s.files);
    assert InBatchOf(plan[0], p);
  }

  lemma VerdictIgnoresTemp(P: Params, node: Node, f: FileSpec, temp: Name)
    ensures SafeAccepts(P, node, ReceivedEntry(P, f, temp)) == SafeAccepts(P, node, ReceivedEntry(P, f, []))
  {
    hide FileDigest, ChunkHashes;
  }

  /**
   * Dropping the first temporary, with or without placing its file, in the destination and in the file system
   * alike.
   */
  lemma DropAndPlace(tape: seq<Name>, fs: FS, s: Sync, p: Path, node: Node)
    requires Overlaid(fs, s.dst, s.Dir(), s.temps, s.held) && s.temps != [] && !IsTemp(p)
    ensures var less := fs - {Child(s.Dir(), s.temps[0])};
      Overlaid(less, s.dst, s.Dir(), s.temps[1..], s.held[1..]) &&
      Overlaid(less[p := node], s.dst[p := node], s.Dir(), s.temps[1..], s.held[1..]) &&
      (forall n :: FreshTape(tape, fs, n) ==> FreshTape(tape, less, n) && FreshTape(tape, less[p := node], n))
  {
    hide FreshTape, Child, Overlaid;
    var temp := Child(s.Dir(), s.temps[0]);
    HeldFirst(fs, s.dst, s.Dir(), s.temps, s.held);
    DropTemp(fs, s.dst, s.Dir(), s.temps, s.held);
    WriteThrough(fs - {temp}, s.dst, s.Dir(), s.temps[1..], s.held[1..], p, node);
    forall n | FreshTape(tape, fs, n)
      ensures FreshTape(tape, fs - {temp}, n) && FreshTape(tape, (fs - {temp})[p := node], n)
    {
      FreshAfterDrop(tape, fs, n, temp);
      FreshAfterWrite(tape, fs - {temp}, n, p, node);
    }
  }

  lemma HeldFirst(fs: FS, dst: FS, dir: Path, temps: seq<Name>, held: seq<seq<byte>>)
    requires Overlaid(fs, dst, dir, temps, held) && temps != []
    ensures held != [] && Child(dir, temps[0]) in fs && fs[Child(dir, temps[0])] == File(held[0])
  {
    hide Child;
    assert TempHolds(fs, dst, Child(dir, temps[0]), held[0]);
  }

  lemma SameNode(fs: FS, dst: FS, dir: Path, temps: seq<Name>, held: seq<seq<byte>>, p: Path)
    requires Overlaid(fs, dst, dir, temps, held) && !IsTemp(p)
    ensures p in fs <==> p in dst
    ensures p in dst ==> fs[p] == dst[p]
  {
  }

  /** The commit of a synchronised entry: the file is placed, or safe mode blocks; its temporary is gone. */
  lemma CommitResult(P: Params, s: Sync, rx: Rx)
    requires Synced(P, s, rx) && s.stage == AtHashes && s.at < |s.files|
    ensures var f, e := s.files[s.at], rx.entries[s.at]; var p := Child(s.Dir(), f.name);
      var (fs, ok) := Commit(P, rx, e);
      ok == !Blocked(P, rx.mode, s.dst, p, f) &&
      Overlaid(fs, if ok then Place(rx.mode, s.dst, p, f.content) else s.dst, s.Dir(), s.temps[1..], s.held[1..]) &&
      forall n :: FreshTape(rx.tape, rx.fs, n) ==> FreshTape(rx.tape, fs, n)
  {
    hide NoClash, GoodPlan, WellOrdered, GoodCommand, FreshTape, Overlaid, Components, IsDir, PlanFileCount, Unread;
    hide Child, Received, SafeAccepts;
    var f, e := s.files[s.at], rx.entries[s.at];
    var p, temp := Child(s.Dir(), f.name), Child(s.Dir(), s.temps[0]);
    assert e == ReceivedEntry(P, f, s.temps[0]);
    FinalPath(P, s, rx);
    SameNode(rx.fs, s.dst, s.Dir(), s.temps, s.held, p);
    HeldFirst(rx.fs, s.dst, s.Dir(), s.temps, s.held);
    DropAndPlace(rx.tape, rx.fs, s, p, File(f.content));
    if p in s.dst {
      VerdictIgnoresTemp(P, s.dst[p], f, s.temps[0]);
    }
  }

  lemma HashResult(P: Params, s: Sync, rx: Rx)
    requires Synced(P, s, rx) && s.stage == AtHashes && s.at < |s.files|
    ensures var (fs, ok) := Commit(P, rx, rx.entries[s.at]);
      Step(P, rx) ==
        if ok then Go(rx.(index := s.at + 1, fs := fs, input := HashPart(P, s.files, s.rest, s.at + 1))) else Failed(fs)
  {
    hide NoClash, FreshTape, Overlaid, Components, GoodDir, IsDir, PlanFileCount, HashPart, Decode, Commit;
    hide CrossChecked, ReceivedEntry, HashRecord;
    assert GoodFile(s.files[s.at]);
    HashHead(P, s.files, s.rest, s.at);
    RecordConfirms(P, s.files[s.at], s.temps[0]);
    assert rx.entries[s.at] == ReceivedEntry(P, s.files[s.at], s.temps[0]);
  }

  lemma PlacedDestination(s: Sync, mode: Mode)
    requires Sendable(s) && s.stage == AtHashes && s.at < |s.files|
    ensures var f := s.files[s.at]; var after := Place(mode, s.dst, Child(s.Dir(), f.name), f.content);
      NoClash(after, [Batch(s.Dir(), s.files)] + s.rest) && IsDir(after, s.Dir()) &&
      forall p :: p in s.dst ==> p in after
  {
    hide Child, PlanDir, Above;
    var plan, p := [Batch(s.Dir(), s.files)] + s.rest, Child(s.Dir(), s.files[s.at].name);
    assert plan[0] == Batch(s.Dir(), s.files);
    assert InBatchOf(plan[0], p);
    assert PlanFile(plan, p);
    assert Above(s.Dir(), plan[0].dir) by { SelfAbove(s.Dir()); }
    assert PlanDir(plan, s.Dir()) by { NeededDir(plan, s.Dir()); }
    NeededRoot(plan);
    NoClashKept(s.dst, Place(mode, s.dst, p, s.files[s.at].content), plan, plan);
  }

  lemma NeededDir(plan: Plan, q: Path)
    requires plan != [] && Above(q, plan[0].dir)
    ensures PlanDir(plan, q)
  {
  }

  lemma NeededRoot(plan: Plan)
    requires plan != []
    ensures PlanDir(plan, [])
  {
    assert Above([], plan[0].dir);
  }

  lemma HashStep(P: Params, s: Sync, rx: Rx)
    requires Synced(P, s, rx) && s.stage == AtHashes && s.at < |s.files|
    ensures var f := s.files[s.at];
      if Blocked(P, rx.mode, s.dst, Child(s.Dir(), f.name), f)
      then Step(P, rx).Failed? && Files(Step(P, rx).fs) == Files(s.dst) && s.temps != [] && s.held != [] &&
           Overlaid(Step(P, rx).fs, s.dst, s.Dir(), s.temps[1..], s.held[1..])
      else StepsTo(P, rx, Next(s, rx))
  {
    hide NoClash, FreshTape, Overlaid, Components, GoodDir, IsDir, PlanFileCount, HashPart, Commit, Step, Child;
    hide Blocked, ReceivedEntry, Place;
    CommitResult(P, s, rx);
    HashResult(P, s, rx);
    PlacedDestination(s, rx.mode);
    var f, to := s.files[s.at], Next(s, rx);
    if Blocked(P, rx.mode, s.dst, Child(s.Dir(), f.name), f) {
      OverlaidFiles(Step(P, rx).fs, s.dst, s.Dir(), s.temps[1..], s.held[1..]);
    }
  }

  // ---------------------------------------------------------------- runs

  lemma EndResult(P: Params, rx: Rx)
    requires rx.phase == Idle && rx.input == TRAILER
    ensures Step(P, rx) == Exited(rx.(phase := Done, input := []), true)
  {
    hide ReadLine, CStr;
    Printable("END");
    LineRead(Ascii("END"), [], WIDE_LINE);
    assert Ascii("END") + [LF] + [] == TRAILER;
    assert Ascii("END")[0] == 69 && Ascii("DIRECTORY: ")[0] == 68 && Ascii("FILE_LIST")[0] == 70;
  }

  /** The step a synchronised receiver takes, and the position it takes it to. */
  lemma SyncedStep(P: Params, s: Sync, rx: Rx)
    requires Synced(P, s, rx)
    requires s.stage != AtIdle || s.rest != []
    requires s.stage == AtHashes && s.at < |s.files| ==>
      !Blocked(P, rx.mode, s.dst, Child(s.Dir(), s.files[s.at].name), s.files[s.at])
    ensures s.stage == AtData && s.at < |s.files| ==> rx.tape != []
    ensures s.stage == AtHashes && s.at < |s.files| ==> s.temps != [] && s.held != []
    ensures StepsTo(P, rx, Next(s, rx))
  {
    hide Sendable, FreshTape, Overlaid, Unread, Step, Synced, Blocked;
    Bounded(P, s, rx);
    match s.stage
    case AtIdle =>
      if s.rest[0].Enter? { EnterStep(P, s, rx); } else { ListStep(P, s, rx); }
    case AtCount => CountStep(P, s, rx);
    case AtMeta =>
      if s.at < |s.files| { MetaStep(P, s, rx); } else { MetaDone(P, s, rx); }
    case AtData =>
      if s.at < |s.files| { DataStep(P, s, rx); } else { DataDone(P, s, rx); }
    case AtHashCount => HashCountStep(P, s, rx);
    case AtHashes =>
      if s.at < |s.files| { HashStep(P, s, rx); } else { HashesDone(P, s, rx); }
  }

  lemma Bounded(P: Params, s: Sync, rx: Rx)
    requires Synced(P, s, rx)
    ensures s.at <= |s.files|
    ensures s.stage == AtHashes ==> |s.temps| == |s.held| == |s.files| - s.at
    ensures s.stage == AtIdle ==> s.files == []
  {
    hide NoClash, FreshTape, Overlaid, Components, GoodDir, IsDir, Unread;
  }

  /** The next position has the same verdict ahead of it. */
  lemma SameVerdict(P: Params, s: Sync, rx: Rx)
    requires Synced(P, s, rx)
    requires s.stage != AtIdle || s.rest != []
    requires s.stage == AtHashes && s.at < |s.files| ==>
      !Blocked(P, rx.mode, s.dst, Child(s.Dir(), s.files[s.at].name), s.files[s.at])
    requires s.stage == AtData && s.at < |s.files| ==> rx.tape != []
    ensures var to := Next(s, rx);
      Deploy(P, rx.mode, to.dst, to.Remaining()) == Deploy(P, rx.mode, s.dst, s.Remaining())
  {
    hide NoClash, FreshTape, Overlaid, Components, GoodDir, IsDir, Unread, Blocked, Place, MkdirP, Child, GoodPlan;
    var to := Next(s, rx);
    if s.stage == AtIdle {
      if s.rest[0].Batch? {
        assert to.Remaining() == [s.rest[0]] + s.rest[1..] == s.rest;
      }
    } else if s.stage == AtHashes && s.at < |s.files| {
      assert s.Todo()[1..] == to.Todo();
      BatchVerdict(P, rx.mode, s.dst, s.Dir(), s.Todo(), s.rest);
      BatchVerdict(P, rx.mode, to.dst, to.Dir(), to.Todo(), to.rest);
    } else if s.stage == AtHashes {
      assert s.Todo() == [];
      BatchVerdict(P, rx.mode, s.dst, s.Dir(), s.Todo(), s.rest);
    } else {
      assert to.Todo() == s.Todo();
    }
  }

  lemma BatchVerdict(P: Params, mode: Mode, dst: FS, dir: Path, files: seq<FileSpec>, rest: Plan)
    ensures Deploy(P, mode, dst, [Batch(dir, files)] + rest) ==
      var (placed, ok) := DeployFiles(P, mode, dst, dir, files);
        if ok then Deploy(P, mode, placed, rest) else (placed, false)
  {
    assert ([Batch(dir, files)] + rest)[1..] == rest;
  }

  /** What a step outside the header leaves alone, and how it counts. */
  lemma StepFrame(P: Params, rx: Rx)
    requires Step(P, rx).Go? && rx.phase in {Idle, FileCount, Metadata, FileData, HashCount, FileHashes}
    ensures var next := Step(P, rx).rx;
      next.mode == rx.mode && next.statBytes == rx.statBytes && next.statFiles == rx.statFiles &&
      (if rx.phase == FileData && rx.index < rx.count && rx.index < |rx.entries|
       then next.totalBytes == rx.totalBytes + rx.entries[rx.index].size else next.totalBytes == rx.totalBytes) &&
      (if rx.phase == FileHashes && next.phase == Idle
       then next.totalFiles == rx.totalFiles + rx.index else next.totalFiles == rx.totalFiles)
  {
    hide ReadLine, ScanSize, SkipSpaces, CStr, IsBlank, Truncate, Components, MkdirP, Decode, Mkstemp, Commit;
    hide CrossChecked, Received;
  }

  function BytesAhead(s: Sync): nat {
    PlanBytesIn(s.rest) +
    match s.stage
    case AtCount => BytesIn(s.files)
    case AtMeta => BytesIn(s.files)
    case AtData => if s.at <= |s.files| then BytesIn(s.files[s.at..]) else 0
    case _ => 0
  }

  function FilesAhead(s: Sync): nat { PlanFileCount(s.rest) + if s.stage == AtIdle then 0 else |s.files| }

  lemma PositionFacts(P: Params, s: Sync, rx: Rx)
    requires Synced(P, s, rx)
    ensures s.at <= |s.files| && rx.phase == PhaseOf(s.stage)
    ensures s.stage in {AtData, AtHashes} ==> rx.index == s.at && rx.count == |s.files| == |rx.entries|
    ensures s.stage == AtData && s.at < |s.files| ==> rx.entries[s.at].size == |s.files[s.at].content|
    ensures s.stage == AtIdle ==> s.files == []
  {
    hide NoClash, FreshTape, Overlaid, Components, GoodCommand, IsDir, Unread, GoodPlan, WellOrdered, ReceivedEntry;
    hide HeldFor;
  }

  /** Nothing is lost between the totals received and the files still ahead. */
  lemma TotalsKept(P: Params, s: Sync, rx: Rx)
    requires Synced(P, s, rx) && Step(P, rx).Go?
    requires s.stage != AtIdle || s.rest != []
    requires s.stage == AtData && s.at < |s.files| ==> rx.tape != []
    requires s.stage == AtHashes && s.at < |s.files| ==>
      s.temps != [] && s.held != [] && Step(P, rx).rx.phase == FileHashes
    requires s.stage == AtHashes && s.at == |s.files| ==> Step(P, rx).rx.phase == Idle
    ensures var next, to := Step(P, rx).rx, Next(s, rx);
      next.totalBytes + BytesAhead(to) == rx.totalBytes + BytesAhead(s) &&
      next.totalFiles + FilesAhead(to) == rx.totalFiles + FilesAhead(s) &&
      next.mode == rx.mode && next.statBytes == rx.statBytes && next.statFiles == rx.statFiles
  {
    hide Synced, Place, MkdirP, Child, Step;
    PositionFacts(P, s, rx);
    StepFrame(P, rx);
    assert s.files[0..] == s.files;
    if s.stage == AtData {
      if s.at < |s.files| {
        assert s.files[s.at..][1..] == s.files[s.at + 1..];
      } else {
        assert s.files[s.at..] == [];
      }
    }
  }

  /** The phase a position prescribes is the phase the receiver is in. */
  lemma PhaseMatches(P: Params, s: Sync, rx: Rx)
    requires Synced(P, s, rx)
    ensures rx.phase == PhaseOf(s.stage)
    ensures s.stage == AtIdle && s.rest == [] ==> rx.input == TRAILER && rx.fs == s.dst && s.Remaining() == []
  {
    hide NoClash, FreshTape, Components, GoodDir, IsDir;
    if s.stage == AtIdle && s.rest == [] {
      NoTemps(rx.fs, s.dst, s.Dir());
      assert [] + TRAILER == TRAILER;
    }
  }

  /** What a run that started from `rx`, with `ahead` bytes and files to come, should end in. */
  ghost predicate EndsWell(o: Outcome, rx: Rx, final: FS, bytes: nat, files: nat) {
    o.Exited? && o.sawEnd && o.rx.fs == final && o.rx.mode == rx.mode &&
    o.rx.totalBytes == rx.totalBytes + bytes && o.rx.totalFiles == rx.totalFiles + files &&
    o.rx.statBytes == rx.statBytes && o.rx.statFiles == rx.statFiles
  }

  /** The run from a synchronised position: END with the deployed destination, or safe mode gives up where it blocks. */
  lemma {:induction false} SyncedRun(P: Params, s: Sync, rx: Rx)
    requires Synced(P, s, rx)
    ensures var (final, ok) := Deploy(P, rx.mode, s.dst, s.Remaining());
      if ok then EndsWell(Run(P, rx), rx, final, BytesAhead(s), FilesAhead(s))
      else Run(P, rx).Failed? && Files(Run(P, rx).fs) == Files(final)
    decreases |rx.input|, Rank(rx.phase), Left(rx)
  {
    hide Synced, Step, Deploy, Next, Blocked, BytesAhead, FilesAhead;
    PhaseMatches(P, s, rx);
    Bounded(P, s, rx);
    if s.stage == AtIdle && s.rest == [] {
      EndResult(P, rx);
      NothingAhead(P, rx.mode, s);
    } else if s.stage == AtHashes && s.at < |s.files| &&
      Blocked(P, rx.mode, s.dst, Child(s.Dir(), s.files[s.at].name), s.files[s.at]) {
      HashStep(P, s, rx);
      BlockedVerdict(P, rx.mode, s);
    } else {
      SyncedStep(P, s, rx);
      var to := Next(s, rx);
      SameVerdict(P, s, rx);
      PhaseMatches(P, to, Step(P, rx).rx);
      NextStage(s, rx);
      TotalsKept(P, s, rx);
      StepProgress(P, rx);
      SyncedRun(P, to, Step(P, rx).rx);
    }
  }

  lemma NothingAhead(P: Params, mode: Mode, s: Sync)
    requires s.stage == AtIdle && s.rest == []
    ensures Deploy(P, mode, s.dst, s.Remaining()) == (s.dst, true) && BytesAhead(s) == 0 && FilesAhead(s) == 0
  {
  }

  lemma BlockedVerdict(P: Params, mode: Mode, s: Sync)
    requires s.stage == AtHashes && s.at < |s.files| &&
      Blocked(P, mode, s.dst, Child(s.Dir(), s.files[s.at].name), s.files[s.at])
    ensures Deploy(P, mode, s.dst, s.Remaining()) == (s.dst, false)
  {
    BatchVerdict(P, mode, s.dst, s.Dir(), s.Todo(), s.rest);
  }

  lemma NextStage(s: Sync, rx: Rx)
    requires s.at <= |s.files| && (s.stage == AtIdle ==> s.rest != [])
    requires s.stage == AtData && s.at < |s.files| ==> rx.tape != []
    requires s.stage == AtHashes && s.at < |s.files| ==> s.temps != [] && s.held != []
    ensures s.stage == AtHashes ==> Next(s, rx).stage == if s.at < |s.files| then AtHashes else AtIdle
  {
  }
}
