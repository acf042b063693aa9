/** The protocol end to end: a snapshot tree, the sender's bytes, the receiver's run, the destination. */
module Transfer {
  import opened Bytes
  import opened Digests
  import opened FileSystem
  import opened Protocol
  import opened Snapshot
  import opened Delivery
  import opened Truncation
  import opened Landings
  import opened Batching
  import opened Names
  import opened Trees
  import SafeMode

  // ---------------------------------------------------------------- totals

  /** The sizes of the named files added up, in whatever order they are met. */
  ghost function SizeSum(files: map<Name, seq<byte>>, s: set<Name>): nat
    requires s <= files.Keys
    decreases |s|
  {
    if s == {} then 0
    else
      var x :| x in s;
      |files[x]| + SizeSum(files, s - {x})
  }

  lemma {:induction false} SizeSumAny(files: map<Name, seq<byte>>, s: set<Name>, x: Name)
    requires s <= files.Keys && x in s
    ensures SizeSum(files, s) == |files[x]| + SizeSum(files, s - {x})
    decreases |s|
  {
    var y :| y in s && SizeSum(files, s) == |files[y]| + SizeSum(files, s - {y});
    if y != x {
      SizeSumAny(files, s - {y}, x);
      SizeSumAny(files, s - {x}, y);
      assert s - {y} - {x} == s - {x} - {y};
    }
  }

  lemma {:induction false} SpecsSum(files: map<Name, seq<byte>>, s: set<Name>)
    requires s <= files.Keys
    ensures (forall n :: n in SortedNames(s) ==> n in files)
    ensures BytesIn(Specs(SortedNames(s), files)) == SizeSum(files, s) && |SortedNames(s)| == |s|
    decreases |s|
  {
    SortedNamesMembers(s);
    if s != {} {
      var r := SortedNames(s);
      var m := r[0];
      assert r[1..] == SortedNames(s - {m});
      SizeSumAny(files, s, m);
      SpecsSum(files, s - {m});
      assert Specs(r, files)[1..] == Specs(r[1..], files);
    }
  }

  /** Files and bytes the walk meets; what the dry run counts and the header announces. */
  ghost function TreeCount(w: WalkLimits, t: Tree, depth: nat): nat
    decreases t, 1, 0
  {
    |t.files| + if Descends(w, depth) then SubsCount(w, t, t.subs.Keys, depth) else 0
  }

  ghost function SubsCount(w: WalkLimits, t: Tree, s: set<Name>, depth: nat): nat
    requires s <= t.subs.Keys
    decreases t, 0, |s|
  {
    if s == {} then 0
    else
      assert exists m :: IsLeast(m, s) by { var m := LeastExists(s); }
      var m :| IsLeast(m, s);
      TreeCount(w, t.subs[m], depth + 1) + SubsCount(w, t, s - {m}, depth)
  }

  ghost function TreeBytes(w: WalkLimits, t: Tree, depth: nat): nat
    decreases t, 1, 0
  {
    SizeSum(t.files, t.files.Keys) + if Descends(w, depth) then SubsBytes(w, t, t.subs.Keys, depth) else 0
  }

  ghost function SubsBytes(w: WalkLimits, t: Tree, s: set<Name>, depth: nat): nat
    requires s <= t.subs.Keys
    decreases t, 0, |s|
  {
    if s == {} then 0
    else
      assert exists m :: IsLeast(m, s) by { var m := LeastExists(s); }
      var m :| IsLeast(m, s);
      TreeBytes(w, t.subs[m], depth + 1) + SubsBytes(w, t, s - {m}, depth)
  }

  /** The plan carries exactly the files and bytes of the tree. */
  lemma {:induction false} WalkTotals(w: WalkLimits, t: Tree, rel: Path, depth: nat)
    ensures PlanFileCount(WalkPlan(w, t, rel, depth)) == TreeCount(w, t, depth)
    ensures PlanBytesIn(WalkPlan(w, t, rel, depth)) == TreeBytes(w, t, depth)
    decreases t, 1, 0
  {
    hide SubPlans, DirCommands, SubsCount, SubsBytes;
    SortedNamesMembers(t.subs.Keys);
    SpecsSum(t.files, t.files.Keys);
    DirCommandsSent(w.batch, rel, FilesOf(t));
    var own := DirCommands(w.batch, rel, FilesOf(t));
    if Descends(w, depth) {
      SubsTotals(w, t, t.subs.Keys, rel, depth);
      SumsAppend(own, SubPlans(w, t, SortedNames(t.subs.Keys), rel, depth));
    } else {
      assert own + [] == own;
    }
  }

  lemma {:induction false} SubsTotals(w: WalkLimits, t: Tree, s: set<Name>, rel: Path, depth: nat)
    requires s <= t.subs.Keys
    ensures forall n :: n in SortedNames(s) ==> n in t.subs
    ensures PlanFileCount(SubPlans(w, t, SortedNames(s), rel, depth)) == SubsCount(w, t, s, depth)
    ensures PlanBytesIn(SubPlans(w, t, SortedNames(s), rel, depth)) == SubsBytes(w, t, s, depth)
    decreases t, 0, |s|
  {
    hide WalkPlan, TreeCount, TreeBytes;
    SortedNamesMembers(s);
    if s != {} {
      var r := SortedNames(s);
      var m := r[0];
      assert IsLeast(m, s) && r[1..] == SortedNames(s - {m});
      LeastIsUnique(s);
      WalkTotals(w, t.subs[m], Child(rel, m), depth + 1);
      SubsTotals(w, t, s - {m}, rel, depth);
      SumsAppend(WalkPlan(w, t.subs[m], Child(rel, m), depth + 1), SubPlans(w, t, r[1..], rel, depth));
    }
  }

  lemma LeastIsUnique(s: set<Name>)
    ensures forall a, b :: IsLeast(a, s) && IsLeast(b, s) ==> a == b
  {
    forall a, b | IsLeast(a, s) && IsLeast(b, s) ensures a == b {
      AtMostTotal(a, b);
    }
  }

  // ---------------------------------------------------------------- end to end

  /** Everything the sender writes for a tree. */
  ghost function SenderStream(P: Params, w: WalkLimits, mode: Mode, t: Tree): seq<byte> {
    Stream(P, mode, TreeBytes(w, t, 0), TreeCount(w, t, 0), WalkPlan(w, t, [], 0))
  }

  /** The hypotheses of a transfer: carriable names and sizes, no clashes, fresh temporary names. */
  ghost predicate ReadyToSend(fs: FS, tape: seq<Name>, w: WalkLimits, t: Tree) {
    GoodTree(w, t, [], 0) && 0 < w.batch.maxFiles <= MAX_FILES && NoClashWith(fs, w, t) &&
    FreshTape(tape, fs, TreeCount(w, t, 0)) && TreeCount(w, t, 0) < U64_LIMIT && TreeBytes(w, t, 0) < U64_LIMIT
  }

  ghost function SpecAt(w: WalkLimits, t: Tree, p: Path): FileSpec
    requires Visible(w, t, p, 0)
  {
    FileSpec(Leaf(p), ContentAt(w, t, p, 0))
  }

  /** Safe mode finds nothing to object to: it accepts every existing counterpart of a file of the snapshot. */
  ghost predicate Acceptable(P: Params, mode: Mode, fs: FS, w: WalkLimits, t: Tree) {
    forall p :: Visible(w, t, p, 0) ==> !Blocked(P, mode, fs, p, SpecAt(w, t, p))
  }

  /**
   * The overlay a mode promises: snapshot files are there, with the snapshot's content unless an existing
   * file has precedence; the directories above them are there; every other path is as it was.
   */
  ghost predicate ModeOverlay(mode: Mode, before: FS, after: FS, w: WalkLimits, t: Tree) {
    (forall p :: Visible(w, t, p, 0) ==>
      p in after && after[p] == if p in before && mode != Force then before[p] else File(ContentAt(w, t, p, 0))) &&
    (forall q :: Needed(w, t, q) ==> IsDir(after, q)) &&
    (forall p :: !Visible(w, t, p, 0) && !Needed(w, t, p) ==> SameAt(before, after, p))
  }

  lemma AcceptableIsAccepted(P: Params, mode: Mode, fs: FS, w: WalkLimits, t: Tree)
    ensures AllAccepted(P, mode, fs, Sent(WalkPlan(w, t, [], 0))) <==> Acceptable(P, mode, fs, w, t)
  {
    hide Blocked, WalkPlan, Sent, Visible, ContentAt;
    var files := Sent(WalkPlan(w, t, [], 0));
    if AllAccepted(P, mode, fs, files) {
      forall p | Visible(w, t, p, 0) ensures !Blocked(P, mode, fs, p, SpecAt(w, t, p)) {
        var k := VisibleIsSent(w, t, [], 0, p);
        assert [] + p == p;
        assert files[k] == (p, SpecAt(w, t, p));
      }
    }
    if Acceptable(P, mode, fs, w, t) {
      forall i | 0 <= i < |files| ensures !Blocked(P, mode, fs, files[i].0, files[i].1) {
        var q := SentIsVisible(w, t, [], 0, i);
        assert [] + q == q;
      }
    }
  }

  lemma DescribedIsOverlay(mode: Mode, before: FS, after: FS, w: WalkLimits, t: Tree)
    requires Described(mode, before, after, WalkPlan(w, t, [], 0))
    ensures ModeOverlay(mode, before, after, w, t)
  {
    hide WalkPlan, Sent, Visible, ContentAt, EnteredDir, IsSent;
    var plan := WalkPlan(w, t, [], 0);
    forall p | Visible(w, t, p, 0)
      ensures p in after && after[p] == if p in before && mode != Force then before[p] else File(ContentAt(w, t, p, 0))
    {
      var k := VisibleIsSent(w, t, [], 0, p);
      assert [] + p == p;
      assert Sent(plan)[k].0 == p && Sent(plan)[k].1.content == ContentAt(w, t, p, 0);
    }
    forall q | Needed(w, t, q) ensures IsDir(after, q) {
      NeededIsEntered(w, t, q);
    }
    forall p | !Visible(w, t, p, 0) && !Needed(w, t, p) ensures SameAt(before, after, p) {
      EnteredIsNeeded(w, t, p);
      SentOnlyVisible(w, t, p);
    }
  }

  lemma SentOnlyVisible(w: WalkLimits, t: Tree, p: Path)
    ensures IsSent(Sent(WalkPlan(w, t, [], 0)), p) ==> Visible(w, t, p, 0)
  {
    hide WalkPlan, Sent, Visible;
    var files := Sent(WalkPlan(w, t, [], 0));
    if IsSent(files, p) {
      var i :| 0 <= i < |files| && files[i].0 == p;
      var q := SentIsVisible(w, t, [], 0, i);
      assert [] + q == q;
    }
  }

  lemma NeededIsEntered(w: WalkLimits, t: Tree, q: Path)
    requires Needed(w, t, q)
    ensures EnteredDir(WalkPlan(w, t, [], 0), q)
  {
    hide WalkPlan, Sent, Above;
    var plan := WalkPlan(w, t, [], 0);
    var p :| Visible(w, t, p, 0) && Above(q, Parent(p));
    var k := VisibleIsSent(w, t, [], 0, p);
    assert [] + p == p;
    WalkOrdered(w, t, [], 0);
    SentDirEntered(plan, None, k);
    var i :| 0 <= i < |plan| && plan[i].Enter? && plan[i].dir == Parent(Sent(plan)[k].0);
    assert Above(q, plan[i].dir);
  }

  lemma EnteredIsNeeded(w: WalkLimits, t: Tree, q: Path)
    ensures EnteredDir(WalkPlan(w, t, [], 0), q) ==> Needed(w, t, q)
  {
    hide WalkPlan, Above;
    PlanDirIsNeeded(w, t, q);
  }

  /** The bytes of the plan that arrive when the stream is cut. */
  ghost function Arrived(mode: Mode, w: WalkLimits, t: Tree, cut: seq<byte>): int {
    |cut| - |Header(mode, TreeBytes(w, t, 0), TreeCount(w, t, 0))|
  }

  /**
   * A transfer that is cut off after any number of bytes (or none). The files left are the old ones with those files
   * of the snapshot laid over them whose hash records have arrived, in the order sent, up to the first that safe mode
   * blocks; END is reported if and only if none is blocked and at most the last newline is missing. A temporary is
   * left if and only if the last byte read lies, in some batch, after the first file's data and before the end of
   * the last hash record. At no moment are more files or bytes counted than the header announces.
   */
  lemma CutOff(P: Params, w: WalkLimits, fs: FS, tape: seq<Name>, dir: seq<byte>, mode: Mode, t: Tree, cut: seq<byte>)
    requires ReadyToSend(fs, tape, w, t) && cut <= SenderStream(P, w, mode, t)
    ensures var x := Start(fs, tape, dir, cut); var o := Run(P, x);
      var plan, tree, n := WalkPlan(w, t, [], 0), Files(fs), Arrived(mode, w, t, cut);
      LeftBehind(o, mode, tree, Sent(plan), Laid(P, mode, tree, plan, n)) &&
      (o.Exited? <==> FirstBlocked(P, mode, tree, Sent(plan)) == |Sent(plan)| && n >= |PlanBytes(P, plan)| + 3) &&
      (LeavesTemp(TempFiles(fs), Destination(o)) <==>
        exists i: nat :: BatchOpen(P, plan, i, LastRead(P, mode, tree, plan, n))) &&
      AlwaysCounted(P, x, TreeBytes(w, t, 0), TreeCount(w, t, 0))
  {
    hide WalkPlan, GoodTree, NoClash, GoodPlan, Run, Stream, LeftBehind, WellOrdered, LeavesTemp, BatchOpen;
    hide AlwaysCounted, Laid, Sent;
    hide FirstBlocked, LastRead, PlanBytes, Header, Files, TempFiles;
    TreePlan(fs, w, t);
    WalkTotals(w, t, [], 0);
    Truncated(P, fs, tape, dir, mode, TreeBytes(w, t, 0), TreeCount(w, t, 0), WalkPlan(w, t, [], 0), cut);
  }

  lemma WholeArrives(P: Params, w: WalkLimits, mode: Mode, t: Tree)
    ensures var plan := WalkPlan(w, t, [], 0); var n := Arrived(mode, w, t, SenderStream(P, w, mode, t));
      n == |PlanBytes(P, plan)| + 4 &&
        forall tree: FS :: Laid(P, mode, tree, plan, n) == FirstBlocked(P, mode, tree, Sent(plan))
  {
    hide WalkPlan, PlanBytes, Header, TreeBytes, TreeCount, RecordEnds, FirstBlocked;
    var plan, n := WalkPlan(w, t, [], 0), Arrived(mode, w, t, SenderStream(P, w, mode, t));
    assert |TRAILER| == 4;
    EndsCount(P, plan, 0);
    EndsAscend(P, plan, 0);
    AllReached(RecordEnds(P, plan, 0), n);
  }

  lemma {:induction false} AllReached(ends: seq<int>, n: int)
    requires forall i :: 0 <= i < |ends| ==> ends[i] <= n
    ensures Reached(ends, n) == |ends|
  {
    if ends != [] {
      AllReached(ends[1..], n);
    }
  }

  /**
   * End to end. The receiver, run on the sender's exact bytes, reaches END with exactly the mode's overlay of
   * the destination, and the totals it counted are those the header announced; unless safe mode finds an existing
   * file it does not accept: then it gives up, with exactly the files before that one laid over the old ones.
   */
  lemma EndToEnd(P: Params, w: WalkLimits, fs: FS, tape: seq<Name>, dir: seq<byte>, mode: Mode, t: Tree)
    requires ReadyToSend(fs, tape, w, t)
    ensures var o := Run(P, Start(fs, tape, dir, SenderStream(P, w, mode, t)));
      var files := Sent(WalkPlan(w, t, [], 0)); var k := FirstBlocked(P, mode, Files(fs), files);
      if Acceptable(P, mode, fs, w, t) then
        k == |files| && o.Exited? && o.sawEnd && o.rx.mode == mode && ModeOverlay(mode, fs, o.rx.fs, w, t) &&
        o.rx.totalFiles == o.rx.statFiles == TreeCount(w, t, 0) &&
          o.rx.totalBytes == o.rx.statBytes == TreeBytes(w, t, 0)
      else
        k < |files| && o.Failed? && LeftBehind(o, mode, Files(fs), files, k)
  {
    hide WalkPlan, GoodTree, NoClash, GoodPlan, Run, Stream, Described, ModeOverlay, AllAccepted, Acceptable;
    hide LeftBehind, Deploy, WellOrdered;
    hide Sent, FirstBlocked, Laid, PlanBytes, AlwaysCounted, LeavesTemp, LastRead, BatchOpen, Arrived;
    var plan, bytes, files := WalkPlan(w, t, [], 0), TreeBytes(w, t, 0), TreeCount(w, t, 0);
    TreePlan(fs, w, t);
    WalkTotals(w, t, [], 0);
    Delivered(P, fs, tape, dir, mode, bytes, files, plan);
    PlanDeployed(P, mode, fs, plan);
    AcceptableIsAccepted(P, mode, fs, w, t);
    WholeArrives(P, w, mode, t);
    CutOff(P, w, fs, tape, dir, mode, t, SenderStream(P, w, mode, t));
    if Acceptable(P, mode, fs, w, t) {
      DescribedIsOverlay(mode, fs, Deploy(P, mode, fs, plan).0, w, t);
    }
  }

  // ---------------------------------------------------------------- temporaries left behind

  /** Command `i` of the plan is the batch that sends file number `k`, as its file `j`. */
  ghost predicate SentIn(plan: Plan, k: nat, i: nat, j: nat) {
    i < |plan| && plan[i].Batch? && j < |plan[i].files| && k == |Sent(plan[..i])| + j
  }

  /**
   * When safe mode gives up on a stream that arrived whole, a temporary is left behind if and only if the file it
   * gave up on is not the last of its batch.
   */
  lemma BlockedLeaves(P: Params, w: WalkLimits, fs: FS, tape: seq<Name>, dir: seq<byte>, mode: Mode, t: Tree, i: nat,
      j: nat)
    requires ReadyToSend(fs, tape, w, t) && !Acceptable(P, mode, fs, w, t)
    requires var plan := WalkPlan(w, t, [], 0); SentIn(plan, FirstBlocked(P, mode, Files(fs), Sent(plan)), i, j)
    ensures LeavesTemp(TempFiles(fs), Destination(Run(P, Start(fs, tape, dir, SenderStream(P, w, mode, t))))) <==>
      j + 1 < |WalkPlan(w, t, [], 0)[i].files|
  {
    hide WalkPlan, GoodTree, Run, Acceptable, LeftBehind, Sent, FirstBlocked, Laid, PlanBytes, AlwaysCounted;
    hide LeavesTemp, BatchOpen;
    hide RecordEnds, RecordEnd, ReadyToSend, SenderStream, Arrived;
    var plan := WalkPlan(w, t, [], 0);
    var k := FirstBlocked(P, mode, Files(fs), Sent(plan));
    var stream := SenderStream(P, w, mode, t);
    CutOff(P, w, fs, tape, dir, mode, t, stream);
    WholeArrives(P, w, mode, t);
    EndIs(P, plan, 0, i, j);
    EndsAscend(P, plan, 0);
    assert LastRead(P, mode, Files(fs), plan, Arrived(mode, w, t, stream)) == RecordEnd(P, plan, i, j);
    OpenAtEnd(P, plan, i, j);
  }

  /** Every snapshot with a file has a cut that leaves a temporary: right after the data of a batch's first file. */
  lemma SomeCutLeaves(P: Params, w: WalkLimits, fs: FS, tape: seq<Name>, dir: seq<byte>, mode: Mode, t: Tree, i: nat)
    returns (cut: seq<byte>)
    requires ReadyToSend(fs, tape, w, t) && mode != Safe
    requires i < |WalkPlan(w, t, [], 0)| && WalkPlan(w, t, [], 0)[i].Batch?
    ensures cut <= SenderStream(P, w, mode, t) && |cut| < |SenderStream(P, w, mode, t)|
    ensures LeavesTemp(TempFiles(fs), Destination(Run(P, Start(fs, tape, dir, cut))))
  {
    hide WalkPlan, GoodTree, Run, LeftBehind, Sent, FirstBlocked, Laid, AlwaysCounted, LeavesTemp, RecordEnds;
    hide ReadyToSend, Header;
    hide PlanBytes, BatchBytes, FirstData, StartOf, TreeBytes, TreeCount, Files, TempFiles;
    var plan := WalkPlan(w, t, [], 0);
    var n := StartOf(P, plan, i) + FirstData(plan[i].files);
    BatchWithin(P, plan, i);
    var stream := SenderStream(P, w, mode, t);
    cut := stream[..|Header(mode, TreeBytes(w, t, 0), TreeCount(w, t, 0))| + n];
    OnlySafeBlocks(P, mode, Files(fs), Sent(plan));
    EndsCount(P, plan, 0);
    CutOff(P, w, fs, tape, dir, mode, t, cut);
    assert Arrived(mode, w, t, cut) == n;
    assert LastRead(P, mode, Files(fs), plan, n) == n;
    assert BatchOpen(P, plan, i, LastRead(P, mode, Files(fs), plan, Arrived(mode, w, t, cut)));
  }

  lemma BatchWithin(P: Params, plan: Plan, i: nat)
    requires i < |plan| && plan[i].Batch?
    ensures StartOf(P, plan, i) + FirstData(plan[i].files) < StartOf(P, plan, i + 1) <= |PlanBytes(P, plan)|
  {
    hide PlanBytes, BatchBytes, FirstData, HashesFrom, CommandBytes;
    StepIsLength(P, plan[i]);
    StartOfNext(P, plan, i);
    BatchLengthIs(P, plan[i].files);
    FirstDataWithin(plan[i].files);
    StartsGrow(P, plan, i + 1, |plan|);
    assert plan[..|plan|] == plan;
  }

  // ---------------------------------------------------------------- one such snapshot

  const SMALL_LIMITS: WalkLimits := WalkLimits(Limits(MAX_FILES, 0), 0)

  /** A snapshot of one empty file. */
  function SmallTree(): Tree { Tree(map[Ascii("a") := []], map[]) }

  function EmptyDestination(): FS { map[[] := Dir] }

  function SmallTape(): seq<Name> { [Ascii(".tmp.aaaaaa")] }

  lemma SmallNames()
    ensures var a := Ascii("a"); |a| == 1 && a[0] == 97 && GoodFileName(a)
    ensures IsTempName(Ascii(".tmp.aaaaaa"))
  {
    Printable("a");
    assert Ascii("a")[0] == 97;
    var t, stem := Ascii(".tmp.aaaaaa"), Ascii(".tmp.");
    assert forall k :: 0 <= k < |stem| ==> t[k] == stem[k];
  }

  lemma SmallTotals()
    ensures TreeCount(SMALL_LIMITS, SmallTree(), 0) == 1 && TreeBytes(SMALL_LIMITS, SmallTree(), 0) == 0
  {
    var t, a := SmallTree(), Ascii("a");
    SizeSumAny(t.files, t.files.Keys, a);
    assert t.files.Keys == {a} && t.files.Keys - {a} == {};
    assert |t.files| == 1;
  }

  lemma SmallReady()
    ensures ReadyToSend(EmptyDestination(), SmallTape(), SMALL_LIMITS, SmallTree())
  {
    SmallNames();
    SmallTotals();
    var fs, t := EmptyDestination(), SmallTree();
    assert Join([]) == [];
    forall q | Needed(SMALL_LIMITS, t, q) && q in fs ensures fs[q].Dir? { }
  }

  lemma SmallPlan()
    ensures |WalkPlan(SMALL_LIMITS, SmallTree(), [], 0)| > 1 && WalkPlan(SMALL_LIMITS, SmallTree(), [], 0)[1].Batch?
  {
    hide SubPlans, Batches;
    var t, a := SmallTree(), Ascii("a");
    SortedNamesMembers(t.files.Keys);
    assert a in SortedNames(t.files.Keys);
    var files := FilesOf(t);
    BatchesCons(SMALL_LIMITS.batch, files);
    assert DirCommands(SMALL_LIMITS.batch, [], files)[1] == Batch([], Batches(SMALL_LIMITS.batch, files)[0]);
  }

  /** So a transfer that is cut off may leave a partial file behind, if only under a temporary name: here is one. */
  lemma TemporaryLeftBehind(P: Params, dir: seq<byte>) returns (cut: seq<byte>)
    ensures cut <= SenderStream(P, SMALL_LIMITS, Append, SmallTree())
    ensures LeavesTemp({}, Destination(Run(P, Start(EmptyDestination(), SmallTape(), dir, cut))))
  {
    hide Run, LeavesTemp, WalkPlan, SenderStream, ReadyToSend;
    SmallReady();
    SmallPlan();
    assert TempFiles(EmptyDestination()) == {};
    cut := SomeCutLeaves(P, SMALL_LIMITS, EmptyDestination(), SmallTape(), dir, Append, SmallTree(), 1);
  }

  /** One existing file as safe mode sees it, when hashes can be trusted. */
  lemma SafeAcceptsFile(P: Params, node: Node, f: FileSpec)
    requires P.H([]) != ZERO_DIGEST && (node.File? ==> !SafeMode.Collides(P, node.content, f.content))
    ensures SafeAccepts(P, node, ReceivedEntry(P, f, [])) <==> node == File(f.content) && f.content != []
  {
    hide FileDigest, FileTable, ChunkHashes;
    if f.content == [] {
      SafeMode.EmptyFileVerdict(P, f.name, node);
      assert f == FileSpec(f.name, []);
    } else if node.File? {
      SafeMode.VerdictExact(P, f, node.content);
    }
  }

  /**
   * What makes a safe transfer go through, unless the hash collides: every existing counterpart of a file of the
   * snapshot is identical to it, and none of them is empty.
   */
  lemma SafeNeedsIdentical(P: Params, fs: FS, w: WalkLimits, t: Tree)
    requires P.H([]) != ZERO_DIGEST
    requires forall p :: Visible(w, t, p, 0) && p in fs && fs[p].File? ==>
      !SafeMode.Collides(P, fs[p].content, ContentAt(w, t, p, 0))
    ensures Acceptable(P, Safe, fs, w, t) <==>
      forall p :: Visible(w, t, p, 0) && p in fs ==> ContentAt(w, t, p, 0) != [] && fs[p] == File(ContentAt(w, t, p, 0))
  {
    hide Visible, ContentAt, SafeAccepts, SafeMode.Collides;
    forall p | Visible(w, t, p, 0) && p in fs
      ensures Blocked(P, Safe, fs, p, SpecAt(w, t, p)) <==>
        !(ContentAt(w, t, p, 0) != [] && fs[p] == File(ContentAt(w, t, p, 0)))
    {
      SafeAcceptsFile(P, fs[p], SpecAt(w, t, p));
    }
  }
}
