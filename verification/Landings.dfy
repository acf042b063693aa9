/** Where a sender's stream may be cut, and what each cut amounts to: files laid, temporaries left, END reached. */
module Landings {
  import opened Bytes
  import opened Digests
  import opened Codec
  import opened FileSystem
  import opened Protocol
  import opened Snapshot

  // ---------------------------------------------------------------- places in a batch

  /** Bytes of a batch before its data. */
  function HeadLength(files: seq<FileSpec>): nat {
    |Ascii("FILE_LIST")| + 1 + |CountLine(|files|)| + 1 + |EncodeAll(MetaRecords(files))|
  }

  /** Where the data of the first file ends: from here on a temporary exists. */
  function FirstData(files: seq<FileSpec>): nat {
    HeadLength(files) + if files == [] then 0 else |files[0].content|
  }

  /** Where the hash records begin. */
  function HashesFrom(files: seq<FileSpec>): nat {
    HeadLength(files) + |Contents(files)| + |HashCountLine(|files|)| + 1
  }

  function RecordSize(P: Params, f: FileSpec): nat { |Encode(HashRecord(P, f))| }

  function RecordSizes(P: Params, files: seq<FileSpec>): nat {
    if files == [] then 0 else RecordSize(P, files[0]) + RecordSizes(P, files[1..])
  }

  lemma RecordNotEmpty(P: Params, f: FileSpec)
    ensures RecordSize(P, f) > 0
  {
    hide HashRecord;
  }

  lemma {:induction false} HashesLength(P: Params, files: seq<FileSpec>)
    ensures |EncodeAll(HashRecords(P, files))| == RecordSizes(P, files)
  {
    hide Encode, HashRecord;
    if files != [] {
      assert HashRecords(P, files)[1..] == HashRecords(P, files[1..]);
      HashesLength(P, files[1..]);
    }
  }

  lemma BatchLengthIs(P: Params, files: seq<FileSpec>)
    ensures |BatchBytes(P, files)| == HashesFrom(files) + RecordSizes(P, files)
  {
    hide Encode, HashRecord, EncodeAll, Contents, CountLine, HashCountLine, Ascii;
    HashesLength(P, files);
  }

  lemma FirstDataWithin(files: seq<FileSpec>)
    ensures 0 < FirstData(files) < HashesFrom(files)
  {
    hide EncodeAll, CountLine, HashCountLine, Ascii, MetaRecords;
  }

  // ---------------------------------------------------------------- what a cut amounts to

  /** Files laid, whether a temporary is left, whether the receiver exits on END. */
  datatype Landing = Landing(laid: nat, left: bool, ended: bool)

  /** When `n` bytes of a plan's stream (its commands, then END) arrive, over a tree of regular files. */
  function Lands(P: Params, mode: Mode, tree: FS, plan: Plan, n: int): Landing
    decreases |plan|, 0
  {
    if plan == [] then Landing(0, false, n >= 3)
    else
      match plan[0]
      case Enter(_) => Lands(P, mode, tree, plan[1..], n - |CommandBytes(P, plan[0])|)
      case Batch(dir, files) =>
        if n < HashesFrom(files) then Landing(0, n >= FirstData(files), false)
        else LandsIn(P, mode, tree, dir, files, plan[1..], n - HashesFrom(files))
  }

  /** The same from the hash records of `files` on. */
  function LandsIn(P: Params, mode: Mode, tree: FS, dir: Path, files: seq<FileSpec>, rest: Plan, n: int): Landing
    decreases |rest|, |files| + 1
  {
    if files == [] then Lands(P, mode, tree, rest, n)
    else
      var f, p := files[0], Child(dir, files[0].name);
      if n < RecordSize(P, f) then Landing(0, true, false)
      else if Blocked(P, mode, tree, p, f) then Landing(0, |files| > 1, false)
      else
        var l := LandsIn(P, mode, Place(mode, tree, p, f.content), dir, files[1..], rest, n - RecordSize(P, f));
        l.(laid := l.laid + 1)
  }

  lemma {:induction false} NothingLands(P: Params, mode: Mode, tree: FS, plan: Plan, n: int)
    requires n < 0
    ensures Lands(P, mode, tree, plan, n) == Landing(0, false, false)
    decreases |plan|
  {
    hide CommandBytes, HashesFrom, FirstData;
    if plan != [] && plan[0].Enter? {
      NothingLands(P, mode, tree, plan[1..], n - |CommandBytes(P, plan[0])|);
    }
  }

  // ---------------------------------------------------------------- the same, place by place

  /** Where the hash record of each file ends, in the order the files are sent, for a plan that starts at `at`. */
  function RecordEnds(P: Params, plan: Plan, at: int): seq<int> {
    if plan == [] then []
    else
      match plan[0]
      case Enter(_) => RecordEnds(P, plan[1..], at + |CommandBytes(P, plan[0])|)
      case Batch(_, files) =>
        BatchEnds(P, files, at + HashesFrom(files)) + RecordEnds(P, plan[1..], at + |BatchBytes(P, files)|)
  }

  function BatchEnds(P: Params, files: seq<FileSpec>, at: int): (ends: seq<int>)
    ensures |ends| == |files|
  {
    if files == [] then [] else [at + RecordSize(P, files[0])] + BatchEnds(P, files[1..], at + RecordSize(P, files[0]))
  }

  /** How many of the places are reached by `n`. */
  function Reached(ends: seq<int>, n: int): (k: nat)
    ensures k <= |ends|
  {
    if ends == [] || ends[0] > n then 0 else 1 + Reached(ends[1..], n)
  }

  predicate Ascending(ends: seq<int>) { forall i, j :: 0 <= i < j < |ends| ==> ends[i] < ends[j] }

  /** The places reached are those at or before `n`. */
  lemma {:induction false} ReachedIs(ends: seq<int>, n: int)
    requires Ascending(ends)
    ensures forall i :: 0 <= i < |ends| ==> (i < Reached(ends, n) <==> ends[i] <= n)
  {
    if ends != [] && ends[0] <= n {
      ReachedIs(ends[1..], n);
      forall i | 0 <= i < |ends| ensures i < Reached(ends, n) <==> ends[i] <= n {
        if i > 0 { assert ends[i] == ends[1..][i - 1]; }
      }
    }
  }

  /** The first file that safe mode blocks (all of them if there is none), the ones before it having been laid. */
  function FirstBlocked(P: Params, mode: Mode, tree: FS, files: seq<(Path, FileSpec)>): (k: nat)
    ensures k <= |files|
    decreases files
  {
    if files == [] || Blocked(P, mode, tree, files[0].0, files[0].1) then 0
    else 1 + FirstBlocked(P, mode, Place(mode, tree, files[0].0, files[0].1.content), files[1..])
  }

  /** When no path is sent twice, that is the first file blocked by the tree as it was. */
  lemma {:induction false} FirstBlockedIs(P: Params, mode: Mode, tree: FS, files: seq<(Path, FileSpec)>)
    requires DistinctPaths(files)
    ensures var k := FirstBlocked(P, mode, tree, files);
      (forall i :: 0 <= i < k ==> !Blocked(P, mode, tree, files[i].0, files[i].1)) &&
      (k < |files| ==> Blocked(P, mode, tree, files[k].0, files[k].1))
    decreases files
  {
    hide SafeAccepts;
    if files != [] && !Blocked(P, mode, tree, files[0].0, files[0].1) {
      var rest, placed := files[1..], Place(mode, tree, files[0].0, files[0].1.content);
      assert forall i :: 0 < i < |files| ==> files[i] == rest[i - 1] && files[i].0 != files[0].0;
      FirstBlockedIs(P, mode, placed, rest);
    }
  }

  lemma {:induction false} OnlySafeBlocks(P: Params, mode: Mode, tree: FS, files: seq<(Path, FileSpec)>)
    requires mode != Safe
    ensures FirstBlocked(P, mode, tree, files) == |files|
    decreases files
  {
    if files != [] {
      OnlySafeBlocks(P, mode, Place(mode, tree, files[0].0, files[0].1.content), files[1..]);
    }
  }

  /** Between the first file's data and the last hash record of some batch, for a plan that starts at `at`. */
  predicate InWindow(P: Params, plan: Plan, at: int, n: int) {
    plan != [] &&
    match plan[0]
    case Enter(_) => InWindow(P, plan[1..], at + |CommandBytes(P, plan[0])|, n)
    case Batch(_, files) =>
      at + FirstData(files) <= n < at + |BatchBytes(P, files)| || InWindow(P, plan[1..], at + |BatchBytes(P, files)|, n)
  }

  /** Where the commands of a plan start and end. */
  function StartOf(P: Params, plan: Plan, i: nat): nat
    requires i <= |plan|
  {
    |PlanBytes(P, plan[..i])|
  }

  /**
   * Command `i` is a batch, and byte `n` lies after its first file's data and before the end of its last hash
   * record.
   */
  ghost predicate BatchOpen(P: Params, plan: Plan, i: nat, n: int) {
    i < |plan| && plan[i].Batch? && StartOf(P, plan, i) + FirstData(plan[i].files) <= n < StartOf(P, plan, i + 1)
  }

  predicate Substantial(plan: Plan) { forall i :: 0 <= i < |plan| && plan[i].Batch? ==> plan[i].files != [] }

  lemma {:induction false} EndsCount(P: Params, plan: Plan, at: int)
    ensures |RecordEnds(P, plan, at)| == |Sent(plan)|
  {
    hide CommandBytes, BatchBytes, HashesFrom, BatchEnds;
    if plan != [] {
      match plan[0]
      case Enter(_) => EndsCount(P, plan[1..], at + |CommandBytes(P, plan[0])|);
      case Batch(_, files) => EndsCount(P, plan[1..], at + |BatchBytes(P, files)|);
    }
  }

  lemma {:induction false} BatchEndsWithin(P: Params, files: seq<FileSpec>, at: int)
    ensures Ascending(BatchEnds(P, files, at))
    ensures forall i :: 0 <= i < |files| ==> at < BatchEnds(P, files, at)[i] <= at + RecordSizes(P, files)
    ensures files != [] ==> BatchEnds(P, files, at)[|files| - 1] == at + RecordSizes(P, files)
  {
    hide RecordSize;
    if files != [] {
      RecordNotEmpty(P, files[0]);
      BatchEndsWithin(P, files[1..], at + RecordSize(P, files[0]));
    }
  }

  /** The records end one after the other, all of them after the plan's start and by its end. */
  lemma {:induction false} EndsAscend(P: Params, plan: Plan, at: int)
    ensures Ascending(RecordEnds(P, plan, at))
    ensures forall i :: 0 <= i < |RecordEnds(P, plan, at)| ==>
      at < RecordEnds(P, plan, at)[i] <= at + |PlanBytes(P, plan)|
  {
    hide BatchBytes, HashesFrom, BatchEnds, RecordSizes, DirectoryLine;
    if plan != [] {
      match plan[0]
      case Enter(_) => EndsAscend(P, plan[1..], at + |CommandBytes(P, plan[0])|);
      case Batch(_, files) =>
        BatchLengthIs(P, files);
        BatchEndsWithin(P, files, at + HashesFrom(files));
        EndsAscend(P, plan[1..], at + |BatchBytes(P, files)|);
    }
  }

  /** What `Lands` says, place by place. */
  ghost predicate LandsAs(P: Params, mode: Mode, tree: FS, plan: Plan, at: int, n: int, l: Landing) {
    var ends, k := RecordEnds(P, plan, at), FirstBlocked(P, mode, tree, Sent(plan));
    l.laid == Min(k, Reached(ends, n)) &&
    (l.left <==> InWindow(P, plan, at, if k < |ends| && ends[k] <= n then ends[k] else n)) &&
    (l.ended <==> k == |ends| && n >= at + |PlanBytes(P, plan)| + 3)
  }

  /** The ends of the records still to come in a batch, and of those after it. */
  function EndsFrom(P: Params, files: seq<FileSpec>, rest: Plan, at: int): seq<int> {
    BatchEnds(P, files, at) + RecordEnds(P, rest, at + RecordSizes(P, files))
  }

  ghost predicate LandsInAs(P: Params, mode: Mode, tree: FS, dir: Path, files: seq<FileSpec>, rest: Plan, at: int,
      n: int, l: Landing) {
    var ends, k := EndsFrom(P, files, rest, at), FirstBlocked(P, mode, tree, Located(dir, files) + Sent(rest));
    var stop := if k < |ends| && ends[k] <= n then ends[k] else n;
    var close := at + RecordSizes(P, files);
    l.laid == Min(k, Reached(ends, n)) &&
    (l.left <==> stop < close || InWindow(P, rest, close, stop)) &&
    (l.ended <==> k == |ends| && n >= close + |PlanBytes(P, rest)| + 3)
  }

  lemma {:induction false} NoWindowBefore(P: Params, plan: Plan, at: int, n: int)
    requires n <= at
    ensures !InWindow(P, plan, at, n)
  {
    hide CommandBytes, BatchBytes, FirstData;
    if plan != [] {
      match plan[0]
      case Enter(_) => NoWindowBefore(P, plan[1..], at + |CommandBytes(P, plan[0])|, n);
      case Batch(_, files) =>
        FirstDataWithin(files);
        NoWindowBefore(P, plan[1..], at + |BatchBytes(P, files)|, n);
    }
  }

  lemma {:induction false} LandsExactly(P: Params, mode: Mode, tree: FS, plan: Plan, at: int, n: int)
    requires Substantial(plan)
    ensures LandsAs(P, mode, tree, plan, at, n, Lands(P, mode, tree, plan, n - at))
    decreases |plan|, 1
  {
    hide CommandBytes, Blocked, Place, FirstData, HashesFrom, BatchBytes, BatchEnds;
    if plan != [] {
      assert forall i :: 0 <= i < |plan[1..]| ==> plan[1..][i] == plan[i + 1];
      match plan[0]
      case Enter(_) => LandsExactly(P, mode, tree, plan[1..], at + |CommandBytes(P, plan[0])|, n);
      case Batch(dir, files) =>
        BatchLands(P, mode, tree, plan, at, n);
    }
  }

  /** The first lines of what `RecordEnds`, `Sent` and `InWindow` say of a plan that starts with a batch. */
  lemma BatchFirst(P: Params, plan: Plan, at: int)
    requires plan != [] && plan[0].Batch? && plan[0].files != []
    ensures var files := plan[0].files; var begin := at + HashesFrom(files);
      at + |BatchBytes(P, files)| == begin + RecordSizes(P, files) &&
      RecordEnds(P, plan, at) == EndsFrom(P, files, plan[1..], begin) &&
      Sent(plan) == Located(plan[0].dir, files) + Sent(plan[1..]) &&
      |PlanBytes(P, plan)| == |BatchBytes(P, files)| + |PlanBytes(P, plan[1..])| &&
      |RecordEnds(P, plan, at)| == |Sent(plan)| > 0 &&
      (forall i :: 0 <= i < |RecordEnds(P, plan, at)| ==> begin < RecordEnds(P, plan, at)[i])
  {
    hide CommandBytes, BatchBytes, RecordSizes, HashesFrom, Located;
    var files := plan[0].files;
    BatchLengthIs(P, files);
    PlanHead(P, plan);
    EndsCount(P, plan, at);
    BatchEndsWithin(P, files, at + HashesFrom(files));
    EndsAscend(P, plan, at);
    assert RecordEnds(P, plan, at)[0] == BatchEnds(P, files, at + HashesFrom(files))[0];
  }

  /** A cut before the hash records of the first batch. */
  lemma BatchBefore(P: Params, mode: Mode, tree: FS, plan: Plan, at: int, n: int)
    requires plan != [] && plan[0].Batch? && plan[0].files != [] && n < at + HashesFrom(plan[0].files)
    ensures LandsAs(P, mode, tree, plan, at, n, Landing(0, n - at >= FirstData(plan[0].files), false))
  {
    hide PlanBytes, BatchBytes, RecordSizes, FirstData, HashesFrom, RecordEnds, Sent, FirstBlocked, Located, EndsFrom;
    var files := plan[0].files;
    FirstDataWithin(files);
    BatchFirst(P, plan, at);
    NoWindowBefore(P, plan[1..], at + |BatchBytes(P, files)|, n);
  }

  /** From the hash records of the first batch on. */
  lemma BatchAfter(P: Params, mode: Mode, tree: FS, plan: Plan, at: int, n: int, l: Landing)
    requires plan != [] && plan[0].Batch? && plan[0].files != []
    requires var begin := at + HashesFrom(plan[0].files);
      n >= begin && LandsInAs(P, mode, tree, plan[0].dir, plan[0].files, plan[1..], begin, n, l)
    ensures LandsAs(P, mode, tree, plan, at, n, l)
  {
    hide PlanBytes, BatchBytes, RecordSizes, FirstData, HashesFrom, RecordEnds, Sent, FirstBlocked, Located, EndsFrom;
    hide Reached;
    FirstDataWithin(plan[0].files);
    BatchFirst(P, plan, at);
  }

  lemma {:induction false} BatchLands(P: Params, mode: Mode, tree: FS, plan: Plan, at: int, n: int)
    requires plan != [] && plan[0].Batch? && plan[0].files != [] && Substantial(plan[1..])
    ensures LandsAs(P, mode, tree, plan, at, n, Lands(P, mode, tree, plan, n - at))
    decreases |plan|, 0
  {
    hide LandsAs, LandsInAs, LandsIn, FirstData, HashesFrom;
    var files := plan[0].files;
    if n - at < HashesFrom(files) {
      BatchBefore(P, mode, tree, plan, at, n);
    } else {
      LandsInExactly(P, mode, tree, plan[0].dir, files, plan[1..], at + HashesFrom(files), n);
      BatchAfter(P, mode, tree, plan, at, n, Lands(P, mode, tree, plan, n - at));
    }
  }

  lemma PlanHead(P: Params, plan: Plan)
    requires plan != []
    ensures |PlanBytes(P, plan)| == |CommandBytes(P, plan[0])| + |PlanBytes(P, plan[1..])|
    ensures plan[0].Batch? ==> |CommandBytes(P, plan[0])| == |BatchBytes(P, plan[0].files)|
  {
    hide BatchBytes, DirectoryLine;
  }

  lemma {:induction false} LandsInExactly(P: Params, mode: Mode, tree: FS, dir: Path, files: seq<FileSpec>,
      rest: Plan, at: int, n: int)
    requires Substantial(rest) && n >= at
    ensures LandsInAs(P, mode, tree, dir, files, rest, at, n, LandsIn(P, mode, tree, dir, files, rest, n - at))
    decreases |rest|, 2 * |files| + 3
  {
    hide CommandBytes, Blocked, Place, FirstData, HashesFrom, RecordSize, InWindow, PlanBytes;
    if files == [] {
      LandsExactly(P, mode, tree, rest, at, n);
      EndsAscend(P, rest, at);
      EndsCount(P, rest, at);
      assert Located(dir, files) + Sent(rest) == Sent(rest);
      assert EndsFrom(P, files, rest, at) == RecordEnds(P, rest, at);
    } else {
      FileLands(P, mode, tree, dir, files, rest, at, n);
    }
  }

  /** The first of the files of a batch still to come. */
  lemma FileFirst(P: Params, mode: Mode, tree: FS, dir: Path, files: seq<FileSpec>, rest: Plan, at: int)
    requires files != []
    ensures var f, p := files[0], Child(dir, files[0].name); var next := at + RecordSize(P, f);
      var ends, all := EndsFrom(P, files, rest, at), Located(dir, files) + Sent(rest);
      at < next && |ends| == |all| > 0 && ends[0] == next && ends[1..] == EndsFrom(P, files[1..], rest, next) &&
      at + RecordSizes(P, files) == next + RecordSizes(P, files[1..]) &&
      (RecordSizes(P, files[1..]) > 0 <==> |files| > 1) &&
      FirstBlocked(P, mode, tree, all) ==
        if Blocked(P, mode, tree, p, f) then 0
        else 1 + FirstBlocked(P, mode, Place(mode, tree, p, f.content), Located(dir, files[1..]) + Sent(rest))
  {
    hide Blocked, Place, RecordSize, RecordEnds, Located, Sent, Child, EndsFrom, FirstBlocked;
    LocatedCons(dir, files, rest);
    SizesLeft(P, files);
    RecordNotEmpty(P, files[0]);
    EndsFromCons(P, files, rest, at);
    BlockedCons(P, mode, tree, Located(dir, files) + Sent(rest));
  }

  lemma EndsFromCons(P: Params, files: seq<FileSpec>, rest: Plan, at: int)
    requires files != []
    ensures var ends, next := EndsFrom(P, files, rest, at), at + RecordSize(P, files[0]);
      |ends| == |files| + |Sent(rest)| && ends[0] == next && ends[1..] == EndsFrom(P, files[1..], rest, next)
  {
    hide RecordSize, RecordEnds, Sent;
    EndsCount(P, rest, at + RecordSizes(P, files));
  }

  lemma BlockedCons(P: Params, mode: Mode, tree: FS, files: seq<(Path, FileSpec)>)
    requires files != []
    ensures FirstBlocked(P, mode, tree, files) ==
      if Blocked(P, mode, tree, files[0].0, files[0].1) then 0
      else 1 + FirstBlocked(P, mode, Place(mode, tree, files[0].0, files[0].1.content), files[1..])
  {
    hide Blocked, Place;
  }

  /** A cut inside its record, and a cut beyond it when safe mode blocks the file. */
  lemma FileStops(P: Params, mode: Mode, tree: FS, dir: Path, files: seq<FileSpec>, rest: Plan, at: int, n: int)
    requires files != [] && n >= at
    ensures n < at + RecordSize(P, files[0]) ==>
      LandsInAs(P, mode, tree, dir, files, rest, at, n, Landing(0, true, false))
    ensures n >= at + RecordSize(P, files[0]) && Blocked(P, mode, tree, Child(dir, files[0].name), files[0]) ==>
      LandsInAs(P, mode, tree, dir, files, rest, at, n, Landing(0, |files| > 1, false))
  {
    hide Blocked, Place, RecordSize, RecordEnds, Located, Sent, Child, EndsFrom, FirstBlocked, RecordSizes, PlanBytes;
    hide InWindow;
    FileFirst(P, mode, tree, dir, files, rest, at);
    var close := at + RecordSizes(P, files);
    NoWindowBefore(P, rest, close, close);
    EndsFromAscend(P, files, rest, at);
  }

  lemma EndsFromAscend(P: Params, files: seq<FileSpec>, rest: Plan, at: int)
    ensures forall i :: 0 <= i < |EndsFrom(P, files, rest, at)| ==> at < EndsFrom(P, files, rest, at)[i]
    ensures files != [] ==> forall i :: 0 <= i < |EndsFrom(P, files, rest, at)| ==>
      at + RecordSize(P, files[0]) <= EndsFrom(P, files, rest, at)[i]
  {
    hide RecordSize, RecordEnds;
    var own := BatchEnds(P, files, at);
    BatchEndsWithin(P, files, at);
    EndsAscend(P, rest, at + RecordSizes(P, files));
    if files != [] {
      assert own[0] == at + RecordSize(P, files[0]) <= at + RecordSizes(P, files);
      assert forall i :: 0 <= i < |own| ==> own[0] <= own[i];
    }
  }

  /** One file laid, and what the files after it amount to. */
  lemma FileGoes(P: Params, mode: Mode, tree: FS, dir: Path, files: seq<FileSpec>, rest: Plan, at: int, n: int,
      l: Landing)
    requires files != [] && n >= at + RecordSize(P, files[0]) &&
      !Blocked(P, mode, tree, Child(dir, files[0].name), files[0])
    requires LandsInAs(P, mode, Place(mode, tree, Child(dir, files[0].name), files[0].content), dir, files[1..], rest,
                       at + RecordSize(P, files[0]), n, l)
    ensures LandsInAs(P, mode, tree, dir, files, rest, at, n, l.(laid := l.laid + 1))
  {
    hide Blocked, Place, RecordSize, RecordEnds, Located, Sent, Child, EndsFrom, FirstBlocked, RecordSizes, PlanBytes;
    hide InWindow;
    FileFirst(P, mode, tree, dir, files, rest, at);
    var ends := EndsFrom(P, files, rest, at);
    assert forall i :: 0 < i < |ends| ==> ends[i] == ends[1..][i - 1];
  }

  lemma {:induction false} FileLands(P: Params, mode: Mode, tree: FS, dir: Path, files: seq<FileSpec>, rest: Plan,
      at: int, n: int)
    requires files != [] && Substantial(rest) && n >= at
    ensures LandsInAs(P, mode, tree, dir, files, rest, at, n, LandsIn(P, mode, tree, dir, files, rest, n - at))
    decreases |rest|, 2 * |files| + 2
  {
    hide Blocked, Place, RecordSize, LandsInAs, Child, Lands;
    var f, p, next := files[0], Child(dir, files[0].name), at + RecordSize(P, files[0]);
    FileStops(P, mode, tree, dir, files, rest, at, n);
    if n >= next && !Blocked(P, mode, tree, p, f) {
      LandsInExactly(P, mode, Place(mode, tree, p, f.content), dir, files[1..], rest, next, n);
      FileGoes(P, mode, tree, dir, files, rest, at, n,
        LandsIn(P, mode, Place(mode, tree, p, f.content), dir, files[1..], rest, n - next));
    }
  }

  lemma LocatedCons(dir: Path, files: seq<FileSpec>, rest: Plan)
    requires files != []
    ensures var all := Located(dir, files) + Sent(rest);
      all[0] == (Child(dir, files[0].name), files[0]) && all[1..] == Located(dir, files[1..]) + Sent(rest)
  {
    hide Child, Sent;
  }

  /** More records of the batch remain exactly when more of its files do. */
  lemma SizesLeft(P: Params, files: seq<FileSpec>)
    requires files != []
    ensures RecordSizes(P, files) == RecordSize(P, files[0]) + RecordSizes(P, files[1..])
    ensures RecordSizes(P, files[1..]) > 0 <==> |files| > 1
  {
    hide RecordSize;
    if |files| > 1 { RecordNotEmpty(P, files[1]); }
  }

  /**
   * The files laid by byte `n` of a plan: those whose hash record has arrived, up to the first that safe mode
   * blocks.
   */
  function Laid(P: Params, mode: Mode, tree: FS, plan: Plan, n: int): nat {
    Min(FirstBlocked(P, mode, tree, Sent(plan)), Reached(RecordEnds(P, plan, 0), n))
  }

  /** How far the receiver has read then: `n` bytes, or only to the record of a blocked file. */
  function LastRead(P: Params, mode: Mode, tree: FS, plan: Plan, n: int): int {
    var ends, k := RecordEnds(P, plan, 0), FirstBlocked(P, mode, tree, Sent(plan));
    if k < |ends| && ends[k] <= n then ends[k] else n
  }

  /** All of it, place by place. */
  lemma LandsPlainly(P: Params, mode: Mode, tree: FS, plan: Plan, n: int)
    requires Substantial(plan)
    ensures var l := Lands(P, mode, tree, plan, n);
      l.laid == Laid(P, mode, tree, plan, n) &&
      (l.left <==> exists i: nat :: BatchOpen(P, plan, i, LastRead(P, mode, tree, plan, n))) &&
      (l.ended <==> FirstBlocked(P, mode, tree, Sent(plan)) == |Sent(plan)| && n >= |PlanBytes(P, plan)| + 3)
  {
    hide Lands, RecordEnds, FirstBlocked, Reached, InWindow, BatchOpen, PlanBytes, Sent;
    LandsExactly(P, mode, tree, plan, 0, n);
    EndsCount(P, plan, 0);
    WindowIsOpen(P, plan, LastRead(P, mode, tree, plan, n));
  }

  // ---------------------------------------------------------------- windows by command

  /** A place is in a window of the plan if and only if one of its batches is open there. */
  lemma {:induction false} WindowIsOpen(P: Params, plan: Plan, n: int)
    ensures InWindow(P, plan, 0, n) <==> exists i: nat :: BatchOpen(P, plan, i, n)
  {
    hide InWindow;
    assert plan[0..] == plan;
    StartsAtZero(P, plan);
    if InWindow(P, plan, 0, n) {
      var i := OpenFrom(P, plan, 0, n);
    }
    if i: nat :| BatchOpen(P, plan, i, n) {
      OpenIsWindow(P, plan, 0, i, n);
    }
  }

  lemma StartsAtZero(P: Params, plan: Plan)
    ensures StartOf(P, plan, 0) == 0
  {
  }

  lemma {:induction false} BytesSnoc(P: Params, plan: Plan, c: Command)
    ensures |PlanBytes(P, plan + [c])| == |PlanBytes(P, plan)| + |CommandBytes(P, c)|
  {
    hide CommandBytes;
    if plan == [] {
      assert [] + [c] == [c];
      assert PlanBytes(P, [c]) == CommandBytes(P, c) + PlanBytes(P, []);
    } else {
      assert (plan + [c])[0] == plan[0] && (plan + [c])[1..] == plan[1..] + [c];
      BytesSnoc(P, plan[1..], c);
    }
  }

  lemma StartOfNext(P: Params, plan: Plan, i: nat)
    requires i < |plan|
    ensures StartOf(P, plan, i + 1) == StartOf(P, plan, i) + |CommandBytes(P, plan[i])|
  {
    hide PlanBytes, CommandBytes;
    assert plan[..i + 1] == plan[..i] + [plan[i]];
    BytesSnoc(P, plan[..i], plan[i]);
  }

  lemma {:induction false} OpenFrom(P: Params, plan: Plan, j: nat, n: int) returns (i: nat)
    requires j <= |plan| && InWindow(P, plan[j..], StartOf(P, plan, j), n)
    ensures BatchOpen(P, plan, i, n)
    decreases |plan| - j
  {
    hide PlanBytes, BatchBytes, FirstData, StartOf;
    StartOfNext(P, plan, j);
    assert plan[j..][0] == plan[j] && plan[j..][1..] == plan[j + 1..];
    if plan[j].Batch? && StartOf(P, plan, j) + FirstData(plan[j].files) <= n < StartOf(P, plan, j + 1) {
      i := j;
    } else {
      i := OpenFrom(P, plan, j + 1, n);
    }
  }

  lemma {:induction false} OpenIsWindow(P: Params, plan: Plan, j: nat, i: nat, n: int)
    requires j <= i < |plan| && BatchOpen(P, plan, i, n)
    ensures InWindow(P, plan[j..], StartOf(P, plan, j), n)
    decreases i - j
  {
    hide PlanBytes, BatchBytes, FirstData, StartOf;
    StartOfNext(P, plan, j);
    assert plan[j..][0] == plan[j] && plan[j..][1..] == plan[j + 1..];
    if j < i {
      OpenIsWindow(P, plan, j + 1, i, n);
    }
  }

  lemma {:induction false} StartsGrow(P: Params, plan: Plan, i: nat, j: nat)
    requires i <= j <= |plan|
    ensures StartOf(P, plan, i) <= StartOf(P, plan, j)
    decreases j - i
  {
    hide PlanBytes, StartOf, CommandBytes;
    if i < j {
      StartOfNext(P, plan, i);
      StartsGrow(P, plan, i + 1, j);
    }
  }

  // ---------------------------------------------------------------- the place of one file's record

  /** Where the hash record of file `j` of command `i` ends. */
  function RecordEnd(P: Params, plan: Plan, i: nat, j: nat): nat
    requires i < |plan| && plan[i].Batch? && j < |plan[i].files|
  {
    StartOf(P, plan, i) + HashesFrom(plan[i].files) + RecordSizes(P, plan[i].files[..j + 1])
  }

  lemma {:induction false} BatchEndIs(P: Params, files: seq<FileSpec>, at: int, j: nat)
    requires j < |files|
    ensures BatchEnds(P, files, at)[j] == at + RecordSizes(P, files[..j + 1])
  {
    hide RecordSize;
    assert files[..j + 1][1..] == files[1..][..j];
    if j > 0 {
      BatchEndIs(P, files[1..], at + RecordSize(P, files[0]), j - 1);
    } else {
      assert files[..1][1..] == [];
    }
  }

  /** The ends of a plan are those of its first command, then those of the rest. */
  lemma EndsCons(P: Params, plan: Plan, at: int)
    requires plan != []
    ensures RecordEnds(P, plan, at) ==
      (if plan[0].Batch? then BatchEnds(P, plan[0].files, at + HashesFrom(plan[0].files)) else []) +
      RecordEnds(P, plan[1..], at + |CommandBytes(P, plan[0])|)
    ensures |Sent(plan)| == (if plan[0].Batch? then |plan[0].files| else 0) + |Sent(plan[1..])|
  {
    hide BatchBytes, HashesFrom, BatchEnds, DirectoryLine;
    StepIsLength(P, plan[0]);
  }

  /** The file sent as number `|Sent(plan[..i])| + j` is file `j` of command `i`; its record ends there. */
  lemma {:induction false} EndIs(P: Params, plan: Plan, at: int, i: nat, j: nat)
    requires i < |plan| && plan[i].Batch? && j < |plan[i].files|
    ensures var k := |Sent(plan[..i])| + j;
      k < |RecordEnds(P, plan, at)| && RecordEnds(P, plan, at)[k] == at + RecordEnd(P, plan, i, j)
    decreases i
  {
    hide CommandBytes, BatchBytes, HashesFrom, RecordSizes, BatchEnds, RecordEnds, Sent, StartOf;
    EndsCons(P, plan, at);
    if i == 0 {
      assert plan[..0] == [] && Sent([]) == [] by { NothingSent(); }
      BatchEndIs(P, plan[0].files, at + HashesFrom(plan[0].files), j);
      StartsAtZero(P, plan);
    } else {
      assert plan[1..][i - 1] == plan[i] && plan[1..][..i - 1] == plan[..i][1..] && plan[..i][0] == plan[0];
      var step := |CommandBytes(P, plan[0])|;
      EndIs(P, plan[1..], at + step, i - 1, j);
      EndsCons(P, plan[..i], at);
      StartsShift(P, plan, i);
    }
  }

  lemma NothingSent()
    ensures Sent([]) == []
  {
  }

  lemma StartsShift(P: Params, plan: Plan, i: nat)
    requires 0 < i <= |plan|
    ensures StartOf(P, plan, i) == |CommandBytes(P, plan[0])| + StartOf(P, plan[1..], i - 1)
  {
    hide CommandBytes;
    assert plan[1..][..i - 1] == plan[..i][1..] && plan[..i][0] == plan[0];
  }

  lemma StepIsLength(P: Params, c: Command)
    ensures c.Batch? ==> |CommandBytes(P, c)| == |BatchBytes(P, c.files)|
  {
  }

  lemma {:induction false} SizesAppend(P: Params, a: seq<FileSpec>, b: seq<FileSpec>)
    ensures RecordSizes(P, a + b) == RecordSizes(P, a) + RecordSizes(P, b)
  {
    hide RecordSize;
    if a == [] {
      assert a + b == b;
    } else {
      assert (a + b)[0] == a[0] && (a + b)[1..] == a[1..] + b;
      SizesAppend(P, a[1..], b);
    }
  }

  /**
   * Where a file's record ends its batch is still open, unless the file is the last of the batch; no other batch
   * is.
   */
  lemma OpenAtEnd(P: Params, plan: Plan, i: nat, j: nat)
    requires i < |plan| && plan[i].Batch? && j < |plan[i].files|
    ensures (exists h: nat :: BatchOpen(P, plan, h, RecordEnd(P, plan, i, j))) <==> j + 1 < |plan[i].files|
  {
    hide PlanBytes, BatchBytes, CommandBytes, HashesFrom, FirstData, StartOf;
    var files, n := plan[i].files, RecordEnd(P, plan, i, j);
    BatchLengthIs(P, files);
    StepIsLength(P, plan[i]);
    StartOfNext(P, plan, i);
    assert files == files[..j + 1] + files[j + 1..];
    SizesAppend(P, files[..j + 1], files[j + 1..]);
    RecordNotEmpty(P, files[0]);
    FirstDataWithin(files);
    if j + 1 < |files| {
      RecordNotEmpty(P, files[j + 1]);
      assert BatchOpen(P, plan, i, n);
    }
    forall h: nat | BatchOpen(P, plan, h, n) ensures h == i {
      if h < i {
        StartsGrow(P, plan, h + 1, i);
      } else if h > i {
        StartsGrow(P, plan, i + 1, h);
        FirstDataWithin(plan[h].files);
      }
    }
  }
}
