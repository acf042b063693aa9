/** What a sender puts on the wire for a plan of directories and batches, and what it should do to a destination. */
module Snapshot {
  import opened Bytes
  import opened Digests
  import opened Codec
  import opened FileSystem
  import opened Protocol

  datatype FileSpec = FileSpec(name: Name, content: seq<byte>)

  /** Announce a directory, or send one batch of the files of the directory announced last. */
  datatype Command = Enter(dir: Path) | Batch(dir: Path, files: seq<FileSpec>)

  type Plan = seq<Command>

  // ---------------------------------------------------------------- the bytes

  function MetaRecord(f: FileSpec): Record { Record(f.name, |f.content|, ZERO_DIGEST, []) }

  function HashRecord(P: Params, f: FileSpec): Record {
    Record(f.name, |f.content|, FileDigest(P.H, P.chunk, f.content), FileTable(P.H, P.chunk, f.content))
  }

  function MetaRecords(files: seq<FileSpec>): (r: seq<Record>)
    ensures |r| == |files| && forall i :: 0 <= i < |r| ==> r[i] == MetaRecord(files[i])
  {
    seq(|files|, i requires 0 <= i < |files| => MetaRecord(files[i]))
  }

  function HashRecords(P: Params, files: seq<FileSpec>): (r: seq<Record>)
    ensures |r| == |files| && forall i :: 0 <= i < |r| ==> r[i] == HashRecord(P, files[i])
  {
    seq(|files|, i requires 0 <= i < |files| => HashRecord(P, files[i]))
  }

  function Contents(files: seq<FileSpec>): seq<byte> {
    if files == [] then [] else files[0].content + Contents(files[1..])
  }

  function DirectoryLine(dir: Path): seq<byte> { Ascii("DIRECTORY: ") + Join(dir) }

  function CountLine(n: nat): seq<byte> { Ascii("FILES:") + [32] + Dec(n) }

  function HashCountLine(n: nat): seq<byte> { Ascii("HASH ") + CountLine(n) }

  function ModeWord(mode: Mode): seq<byte> {
    match mode
    case Append => Ascii("append")
    case Safe => Ascii("safe")
    case Force => Ascii("force")
  }

  function BatchBytes(P: Params, files: seq<FileSpec>): seq<byte> {
    Ascii("FILE_LIST") + [LF] + CountLine(|files|) + [LF] + EncodeAll(MetaRecords(files)) +
    Contents(files) + HashCountLine(|files|) + [LF] + EncodeAll(HashRecords(P, files))
  }

  function CommandBytes(P: Params, cmd: Command): seq<byte> {
    match cmd
    case Enter(dir) => DirectoryLine(dir) + [LF]
    case Batch(_, files) => BatchBytes(P, files)
  }

  function PlanBytes(P: Params, plan: Plan): seq<byte> {
    if plan == [] then [] else CommandBytes(P, plan[0]) + PlanBytes(P, plan[1..])
  }

  function Header(mode: Mode, bytes: nat, files: nat): seq<byte> {
    Ascii("VERSION: 0") + [LF] + Ascii("MODE: ") + ModeWord(mode) + [LF] +
    Ascii("STAT_BYTES:") + [32] + Dec(bytes) + [LF] + Ascii("STAT_FILES:") + [32] + Dec(files) + [LF]
  }

  const TRAILER: seq<byte> := Ascii("END") + [LF]

  function Stream(P: Params, mode: Mode, bytes: nat, files: nat, plan: Plan): seq<byte> {
    Header(mode, bytes, files) + (PlanBytes(P, plan) + TRAILER)
  }

  // ---------------------------------------------------------------- sums

  function BytesIn(files: seq<FileSpec>): nat {
    if files == [] then 0 else |files[0].content| + BytesIn(files[1..])
  }

  function PlanBytesIn(plan: Plan): nat {
    if plan == [] then 0
    else (match plan[0] case Enter(_) => 0 case Batch(_, files) => BytesIn(files)) + PlanBytesIn(plan[1..])
  }

  function PlanFileCount(plan: Plan): nat {
    if plan == [] then 0
    else (match plan[0] case Enter(_) => 0 case Batch(_, files) => |files|) + PlanFileCount(plan[1..])
  }

  // ---------------------------------------------------------------- the intended effect

  /** The entry the receiver holds for a file it received intact. */
  function ReceivedEntry(P: Params, f: FileSpec, temp: Name): Entry {
    Received(P, Entry(f.name, |f.content|, ZERO_DIGEST, [], temp), f.content)
  }

  /** Safe mode stops at an existing path that its verifiers do not accept. */
  predicate Blocked(P: Params, mode: Mode, dst: FS, p: Path, f: FileSpec) {
    mode == Safe && p in dst && !SafeAccepts(P, dst[p], ReceivedEntry(P, f, []))
  }

  function Place(mode: Mode, dst: FS, p: Path, content: seq<byte>): FS {
    if p in dst && mode != Force then dst else dst[p := File(content)]
  }

  function DeployFiles(P: Params, mode: Mode, dst: FS, dir: Path, files: seq<FileSpec>): (FS, bool)
    decreases files
  {
    if files == [] then (dst, true)
    else
      var p := Child(dir, files[0].name);
      if Blocked(P, mode, dst, p, files[0]) then (dst, false)
      else DeployFiles(P, mode, Place(mode, dst, p, files[0].content), dir, files[1..])
  }

  /** File by file in order, until safe mode blocks. */
  function Deploy(P: Params, mode: Mode, dst: FS, plan: Plan): (FS, bool)
    decreases plan
  {
    if plan == [] then (dst, true)
    else
      match plan[0]
      case Enter(dir) => Deploy(P, mode, MkdirP(dst, dir).0, plan[1..])
      case Batch(dir, files) =>
        var (placed, ok) := DeployFiles(P, mode, dst, dir, files);
        if ok then Deploy(P, mode, placed, plan[1..]) else (placed, false)
  }

  /** The files of a batch with their destination paths. */
  function Located(dir: Path, files: seq<FileSpec>): (r: seq<(Path, FileSpec)>)
    ensures |r| == |files| && forall i :: 0 <= i < |r| ==> r[i] == (Child(dir, files[i].name), files[i])
  {
    seq(|files|, i requires 0 <= i < |files| => (Child(dir, files[i].name), files[i]))
  }

  /** The files of a plan in the order they are sent. */
  function Sent(plan: Plan): (r: seq<(Path, FileSpec)>)
    ensures forall i :: 0 <= i < |r| ==> r[i].0 != []
  {
    if plan == [] then []
    else
      match plan[0]
      case Enter(_) => Sent(plan[1..])
      case Batch(dir, files) => Located(dir, files) + Sent(plan[1..])
  }

  /** One file after the other laid over a tree: existing files win, except in force mode. */
  function Overlay(mode: Mode, tree: FS, files: seq<(Path, FileSpec)>): FS
    decreases files
  {
    if files == [] then tree else Overlay(mode, Place(mode, tree, files[0].0, files[0].1.content), files[1..])
  }

  predicate DistinctPaths(files: seq<(Path, FileSpec)>) {
    forall i, j :: 0 <= i < j < |files| ==> files[i].0 != files[j].0
  }

  predicate IsSent(files: seq<(Path, FileSpec)>, p: Path) {
    exists i :: 0 <= i < |files| && files[i].0 == p
  }

  /** What `Overlay` means path by path, when no path is sent twice. */
  lemma {:induction false} OverlayAt(mode: Mode, tree: FS, files: seq<(Path, FileSpec)>)
    requires DistinctPaths(files)
    ensures forall i :: 0 <= i < |files| ==>
      files[i].0 in Overlay(mode, tree, files) &&
      Overlay(mode, tree, files)[files[i].0] ==
        if files[i].0 in tree && mode != Force then tree[files[i].0] else File(files[i].1.content)
    ensures forall p :: (forall i :: 0 <= i < |files| ==> files[i].0 != p) ==>
      (p in Overlay(mode, tree, files) <==> p in tree) && (p in tree ==> Overlay(mode, tree, files)[p] == tree[p])
    decreases files
  {
    if files != [] {
      var p0, placed := files[0].0, Place(mode, tree, files[0].0, files[0].1.content);
      OverlayAt(mode, placed, files[1..]);
      assert forall i :: 0 < i < |files| ==> files[i] == files[1..][i - 1];
      forall i | 0 <= i < |files|
        ensures files[i].0 in Overlay(mode, tree, files) &&
          Overlay(mode, tree, files)[files[i].0] ==
            if files[i].0 in tree && mode != Force then tree[files[i].0] else File(files[i].1.content)
      {
        if i > 0 { assert files[i] == files[1..][i - 1]; }
      }
      forall p | forall i :: 0 <= i < |files| ==> files[i].0 != p
        ensures (p in Overlay(mode, tree, files) <==> p in tree) &&
          (p in tree ==> Overlay(mode, tree, files)[p] == tree[p])
      {
        assert p != p0;
        assert forall i :: 0 <= i < |files[1..]| ==> files[1..][i].0 != p;
      }
    }
  }

  // ---------------------------------------------------------------- well-formedness

  predicate GoodFileName(n: Name) {
    IsComponent(n) && NUL !in n && |n| <= NAME_MAX && !IsTempName(n)
  }

  predicate GoodDirName(n: Name) {
    IsComponent(n) && NUL !in n && LF !in n && !IsTempName(n)
  }

  predicate GoodDir(dir: Path) {
    (forall i :: 0 <= i < |dir| ==> GoodDirName(dir[i])) && |Join(dir)| < PATH_MAX
  }

  predicate GoodFile(f: FileSpec) { GoodFileName(f.name) && |f.content| < U64_LIMIT }

  predicate GoodCommand(cmd: Command) {
    GoodDir(cmd.dir) &&
    (cmd.Batch? ==> 0 < |cmd.files| <= MAX_FILES && forall i :: 0 <= i < |cmd.files| ==> GoodFile(cmd.files[i]))
  }

  /** Every batch belongs to the directory announced last. */
  predicate WellOrdered(plan: Plan, current: Option<Path>) {
    plan == [] ||
    match plan[0]
    case Enter(dir) => WellOrdered(plan[1..], Some(dir))
    case Batch(dir, _) => current == Some(dir) && WellOrdered(plan[1..], current)
  }

  predicate GoodPlan(plan: Plan) { forall i :: 0 <= i < |plan| ==> GoodCommand(plan[i]) }

  ghost predicate PlanDir(plan: Plan, q: Path) {
    exists i :: 0 <= i < |plan| && Above(q, plan[i].dir)
  }

  predicate InBatchOf(cmd: Command, p: Path) {
    cmd.Batch? && exists j :: 0 <= j < |cmd.files| && p == Child(cmd.dir, cmd.files[j].name)
  }

  ghost predicate PlanFile(plan: Plan, p: Path) {
    exists i :: 0 <= i < |plan| && InBatchOf(plan[i], p)
  }

  /** No path is needed as a directory and as a file, neither by the plan nor by the destination. */
  ghost predicate NoClash(dst: FS, plan: Plan) {
    IsDir(dst, []) &&
    (forall p :: PlanDir(plan, p) && p in dst ==> dst[p].Dir?) &&
    (forall p :: PlanFile(plan, p) && p in dst ==> dst[p].File?) &&
    (forall p :: PlanFile(plan, p) ==> !PlanDir(plan, p))
  }

  /** The names `mkstemp` will draw: enough, well-formed, different, and not in use. */
  ghost predicate FreshTape(tape: seq<Name>, dst: FS, needed: nat) {
    needed <= |tape| &&
    (forall i :: 0 <= i < |tape| ==> IsTempName(tape[i])) &&
    (forall i, j :: 0 <= i < j < |tape| ==> tape[i] != tape[j]) &&
    (forall p, i :: p in dst && p != [] && 0 <= i < |tape| ==> Leaf(p) != tape[i])
  }
}
