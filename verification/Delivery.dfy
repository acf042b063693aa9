/** The sender's whole stream delivered: header, batches, END, and the destination described path by path. */
module Delivery {
  import opened Bytes
  import opened Codec
  import opened FileSystem
  import opened Protocol
  import opened Snapshot
  import opened RoundTrip

  /** The receiver after the four header lines. */
  function Greeted(fs: FS, tape: seq<Name>, dir: seq<byte>, mode: Mode, bytes: nat, files: nat, input: seq<byte>): Rx {
    Start(fs, tape, dir, input).(phase := Idle, mode := mode, statBytes := bytes, statFiles := files)
  }

  lemma VersionLiteral()
    ensures var l := Ascii("VERSION: 0"); LF !in l && NUL !in l && |l| == 10
    ensures Ascii("VERSION:") + [32] + Dec(0) == Ascii("VERSION: 0")
  {
    Printable("VERSION: 0");
  }

  lemma VersionRead(rx: Rx, rest: seq<byte>)
    requires rx.phase == Version && rx.input == Ascii("VERSION: 0") + [LF] + rest
    ensures StepVersion(rx) == Go(rx.(phase := ModeLine, input := rest))
  {
    hide ReadLine, ScanInt32, CStr, Dec;
    VersionLiteral();
    LineRead(Ascii("VERSION: 0"), rest, VERSION_LINE);
    HeaderRoundTrip(Ascii("VERSION:"), 0);
  }

  function ModeHeader(mode: Mode): seq<byte> { Ascii("MODE: ") + ModeWord(mode) }

  lemma ModeLiteral(mode: Mode)
    ensures var l := ModeHeader(mode);
      LF !in l && NUL !in l && |l| <= 12 && Ascii("MODE: ") <= l && l[6..] == ModeWord(mode)
  {
    Printable("MODE: ");
    Printable("append");
    Printable("safe");
    Printable("force");
  }

  lemma ModeRead(rx: Rx, mode: Mode, rest: seq<byte>)
    requires rx.phase == ModeLine && rx.input == ModeHeader(mode) + [LF] + rest
    ensures StepMode(rx) == Go(rx.(phase := StatBytes, mode := mode, input := rest))
  {
    hide ReadLine, ParseMode, CStr, ModeHeader, ModeWord;
    ModeLiteral(mode);
    LineRead(ModeHeader(mode), rest, WIDE_LINE);
    WordRead(mode);
  }

  lemma WordRead(mode: Mode)
    ensures ParseMode(ModeWord(mode)) == Some(mode)
  {
    assert Ascii("safe")[0] == 115 && Ascii("append")[0] == 97 && Ascii("force")[0] == 102;
  }

  function StatLine(literal: seq<byte>, n: nat): seq<byte> { literal + [32] + Dec(n) }

  lemma StatRead(literal: seq<byte>, n: nat, rest: seq<byte>)
    requires n < U64_LIMIT && |literal| < 100 && LF !in literal && NUL !in literal
    ensures ReadLine(StatLine(literal, n) + [LF] + rest, WIDE_LINE) == Some((StatLine(literal, n), rest))
    ensures CStr(StatLine(literal, n)) == StatLine(literal, n) && ScanSize(StatLine(literal, n), literal) == Some(n)
  {
    DecPlain(n);
    DecLength64(n);
    LineRead(StatLine(literal, n), rest, WIDE_LINE);
    HeaderRoundTrip(literal, n);
  }

  lemma StatBytesRead(rx: Rx, n: nat, rest: seq<byte>)
    requires n < U64_LIMIT && rx.phase == StatBytes && rx.input == StatLine(Ascii("STAT_BYTES:"), n) + [LF] + rest
    ensures StepStatBytes(rx) == Go(rx.(phase := StatFiles, statBytes := n, input := rest))
  {
    hide ReadLine, ScanSize, StatLine;
    StatRead(Ascii("STAT_BYTES:"), n, rest);
  }

  lemma StatFilesRead(rx: Rx, n: nat, rest: seq<byte>)
    requires n < U64_LIMIT && rx.phase == StatFiles && rx.input == StatLine(Ascii("STAT_FILES:"), n) + [LF] + rest
    ensures StepStatFiles(rx) == Go(rx.(phase := Idle, statFiles := n, input := rest))
  {
    hide ReadLine, ScanSize, StatLine;
    StatRead(Ascii("STAT_FILES:"), n, rest);
  }

  lemma HeaderLayout(mode: Mode, bytes: nat, files: nat, rest: seq<byte>)
    ensures Header(mode, bytes, files) + rest ==
      Ascii("VERSION: 0") + [LF] + (ModeHeader(mode) + [LF] + (StatLine(Ascii("STAT_BYTES:"), bytes) + [LF] +
        (StatLine(Ascii("STAT_FILES:"), files) + [LF] + rest)))
  {
    hide Ascii, Dec, ModeWord;
    var v, m := Ascii("VERSION: 0") + [LF], ModeHeader(mode) + [LF];
    var b, f := StatLine(Ascii("STAT_BYTES:"), bytes) + [LF], StatLine(Ascii("STAT_FILES:"), files) + [LF];
    assert Header(mode, bytes, files) == v + m + b + f;
    Regroup(v, m, b, f, rest);
  }

  lemma Regroup(a: seq<byte>, b: seq<byte>, c: seq<byte>, d: seq<byte>, e: seq<byte>)
    ensures a + b + c + d + e == a + (b + (c + (d + e)))
  {
    assert a + b + c + d + e == a + (b + c + d + e);
    assert b + c + d + e == b + (c + (d + e));
  }

  /** The four header lines are four steps, which count nothing. */
  lemma HeaderSteps(P: Params, fs: FS, tape: seq<Name>, dir: seq<byte>, mode: Mode, bytes: nat, files: nat,
      rest: seq<byte>)
    returns (rx1: Rx, rx2: Rx, rx3: Rx)
    requires bytes < U64_LIMIT && files < U64_LIMIT
    ensures Step(P, Start(fs, tape, dir, Header(mode, bytes, files) + rest)) == Go(rx1)
    ensures Step(P, rx1) == Go(rx2) && Step(P, rx2) == Go(rx3)
    ensures Step(P, rx3) == Go(Greeted(fs, tape, dir, mode, bytes, files, rest))
    ensures forall rx :: rx in {rx1, rx2, rx3} ==> rx.totalBytes == 0 && rx.totalFiles == 0
  {
    hide StepVersion, StepMode, StepStatBytes, StepStatFiles, StatLine, ModeHeader, Header;
    HeaderLayout(mode, bytes, files, rest);
    var r3 := StatLine(Ascii("STAT_FILES:"), files) + [LF] + rest;
    var r2 := StatLine(Ascii("STAT_BYTES:"), bytes) + [LF] + r3;
    var r1 := ModeHeader(mode) + [LF] + r2;
    var rx0 := Start(fs, tape, dir, Header(mode, bytes, files) + rest);
    rx1 := rx0.(phase := ModeLine, input := r1);
    rx2 := rx1.(phase := StatBytes, mode := mode, input := r2);
    rx3 := rx2.(phase := StatFiles, statBytes := bytes, input := r3);
    VersionRead(rx0, r1);
    ModeRead(rx1, mode, r2);
    StatBytesRead(rx2, bytes, r3);
    StatFilesRead(rx3, files, rest);
  }

  /** The header puts the receiver in the idle state, in the mode asked for, the totals noted and nothing touched. */
  lemma HeaderRun(P: Params, fs: FS, tape: seq<Name>, dir: seq<byte>, mode: Mode, bytes: nat, files: nat,
      rest: seq<byte>)
    requires bytes < U64_LIMIT && files < U64_LIMIT
    ensures Run(P, Start(fs, tape, dir, Header(mode, bytes, files) + rest)) ==
      Run(P, Greeted(fs, tape, dir, mode, bytes, files, rest))
  {
    hide Step, Header;
    var rx1, rx2, rx3 := HeaderSteps(P, fs, tape, dir, mode, bytes, files, rest);
    var rx0 := Start(fs, tape, dir, Header(mode, bytes, files) + rest);
    assert Run(P, rx0) == Run(P, rx1);
    assert Run(P, rx1) == Run(P, rx2);
    assert Run(P, rx2) == Run(P, rx3);
  }

  /** What a sender's plan and a destination must satisfy for a transfer. */
  ghost predicate Transferable(fs: FS, tape: seq<Name>, plan: Plan) {
    GoodPlan(plan) && WellOrdered(plan, None) && NoClash(fs, plan) && FreshTape(tape, fs, PlanFileCount(plan))
  }

  /** The position at the start of a plan. */
  function Opening(fs: FS, plan: Plan): Sync { Sync(AtIdle, fs, None, [], 0, plan, [], []) }

  lemma OpeningSynced(P: Params, fs: FS, tape: seq<Name>, dir: seq<byte>, mode: Mode, bytes: nat, files: nat,
      plan: Plan)
    requires Transferable(fs, tape, plan)
    ensures Synced(P, Opening(fs, plan), Greeted(fs, tape, dir, mode, bytes, files, PlanBytes(P, plan) + TRAILER))
  {
    hide FreshTape, GoodPlan, WellOrdered, NoClash, IsDir;
    NothingHeld(fs, []);
    RootBatch(fs, plan);
  }

  lemma RootBatch(fs: FS, plan: Plan)
    requires NoClash(fs, plan)
    ensures NoClash(fs, [Batch([], [])] + plan)
  {
    var more := [Batch([], [])] + plan;
    forall q | PlanDir(more, q) ensures q == [] || PlanDir(plan, q) {
      var i :| 0 <= i < |more| && Above(q, more[i].dir);
      if i > 0 { assert Above(q, plan[i - 1].dir); }
    }
    forall p | PlanFile(more, p) ensures p != [] && PlanFile(plan, p) {
      var i :| 0 <= i < |more| && InBatchOf(more[i], p);
      assert InBatchOf(plan[i - 1], p);
    }
  }

  /**
   * Delivery. On the sender's exact bytes the run ends at END with the deployed destination, the totals
   * received being those of the plan; or safe mode gives up, leaving the files deployed so far.
   */
  lemma Delivered(P: Params, fs: FS, tape: seq<Name>, dir: seq<byte>, mode: Mode, bytes: nat, files: nat, plan: Plan)
    requires Transferable(fs, tape, plan) && bytes < U64_LIMIT && files < U64_LIMIT
    ensures var o := Run(P, Start(fs, tape, dir, Stream(P, mode, bytes, files, plan)));
      var (final, ok) := Deploy(P, mode, fs, plan);
      if ok then
        o.Exited? && o.sawEnd && o.rx.fs == final && o.rx.mode == mode &&
        o.rx.totalBytes == PlanBytesIn(plan) && o.rx.totalFiles == PlanFileCount(plan) &&
        o.rx.statBytes == bytes && o.rx.statFiles == files
      else o.Failed? && Files(o.fs) == Files(final)
  {
    hide Synced, Transferable, Run, Deploy;
    var rest := PlanBytes(P, plan) + TRAILER;
    HeaderRun(P, fs, tape, dir, mode, bytes, files, rest);
    OpeningSynced(P, fs, tape, dir, mode, bytes, files, plan);
    SyncedRun(P, Opening(fs, plan), Greeted(fs, tape, dir, mode, bytes, files, rest));
  }

  // ---------------------------------------------------------------- the deployed destination

  ghost predicate EnteredDir(plan: Plan, q: Path) {
    exists i :: 0 <= i < |plan| && plan[i].Enter? && Above(q, plan[i].dir)
  }

  ghost predicate SentPlaced(mode: Mode, before: FS, after: FS, files: seq<(Path, FileSpec)>) {
    forall i :: 0 <= i < |files| ==>
      files[i].0 in after &&
      after[files[i].0] ==
        if files[i].0 in before && mode != Force then before[files[i].0] else File(files[i].1.content)
  }

  ghost predicate DirsMade(after: FS, plan: Plan) {
    forall q :: EnteredDir(plan, q) ==> IsDir(after, q)
  }

  predicate SameAt(before: FS, after: FS, p: Path) {
    (p in after <==> p in before) && (p in before ==> after[p] == before[p])
  }

  ghost predicate OthersKept(before: FS, after: FS, plan: Plan) {
    forall p :: !IsSent(Sent(plan), p) && !EnteredDir(plan, p) ==> SameAt(before, after, p)
  }

  /** The destination after a transfer, path by path: sent files, entered directories, everything else as before. */
  ghost predicate Described(mode: Mode, before: FS, after: FS, plan: Plan) {
    SentPlaced(mode, before, after, Sent(plan)) && DirsMade(after, plan) && OthersKept(before, after, plan)
  }

  lemma EnteredCons(plan: Plan, q: Path)
    requires plan != []
    ensures EnteredDir(plan, q) <==> (plan[0].Enter? && Above(q, plan[0].dir)) || EnteredDir(plan[1..], q)
    ensures EnteredDir(plan, q) ==> PlanDir(plan, q)
  {
    hide Above;
    if EnteredDir(plan[1..], q) {
      var i :| 0 <= i < |plan[1..]| && plan[1..][i].Enter? && Above(q, plan[1..][i].dir);
      assert plan[i + 1] == plan[1..][i];
    }
    if EnteredDir(plan, q) {
      var i :| 0 <= i < |plan| && plan[i].Enter? && Above(q, plan[i].dir);
      if i > 0 { assert plan[1..][i - 1] == plan[i]; }
    }
  }

  /** A batch that is not blocked is an overlay of its files. */
  lemma {:induction false} FilesDeployed(P: Params, mode: Mode, dst: FS, dir: Path, files: seq<FileSpec>)
    ensures DeployFiles(P, mode, dst, dir, files).1 ==>
      DeployFiles(P, mode, dst, dir, files).0 == Overlay(mode, dst, Located(dir, files))
    decreases files
  {
    hide Blocked, Place;
    if files != [] {
      FilesDeployed(P, mode, Place(mode, dst, Child(dir, files[0].name), files[0].content), dir, files[1..]);
      assert Located(dir, files)[1..] == Located(dir, files[1..]);
    }
  }

  /**
   * With every path sent once, a batch is blocked exactly when the destination it started from blocks one of its
   * files.
   */
  lemma {:induction false} FilesAccepted(P: Params, mode: Mode, dst: FS, dir: Path, files: seq<FileSpec>)
    requires DistinctPaths(Located(dir, files))
    ensures DeployFiles(P, mode, dst, dir, files).1 <==>
      forall i :: 0 <= i < |files| ==> !Blocked(P, mode, dst, Child(dir, files[i].name), files[i])
    decreases files
  {
    hide SafeAccepts, Child;
    if files != [] {
      var p := Child(dir, files[0].name);
      var placed := Place(mode, dst, p, files[0].content);
      assert forall i :: 0 < i < |files| ==> Located(dir, files)[i].0 != Located(dir, files)[0].0;
      assert Located(dir, files)[1..] == Located(dir, files[1..]);
      FilesAccepted(P, mode, placed, dir, files[1..]);
      forall i | 0 < i < |files|
        ensures Blocked(P, mode, placed, Child(dir, files[i].name), files[i]) ==
          Blocked(P, mode, dst, Child(dir, files[i].name), files[i])
      {
        assert Located(dir, files)[i].0 == Child(dir, files[i].name);
      }
      assert forall i :: 0 < i < |files| ==> files[i] == files[1..][i - 1];
      assert forall i :: 0 <= i < |files[1..]| ==> files[1..][i] == files[i + 1];
    }
  }

  predicate AllAccepted(P: Params, mode: Mode, dst: FS, files: seq<(Path, FileSpec)>) {
    forall i :: 0 <= i < |files| ==> !Blocked(P, mode, dst, files[i].0, files[i].1)
  }

  lemma {:induction false} SentIsPlanned(plan: Plan, k: nat)
    requires k < |Sent(plan)|
    ensures PlanFile(plan, Sent(plan)[k].0)
  {
    hide Child;
    var later := plan[1..];
    if plan[0].Batch? && k < |plan[0].files| {
      assert InBatchOf(plan[0], Sent(plan)[k].0);
    } else {
      var j := if plan[0].Batch? then k - |plan[0].files| else k;
      assert Sent(plan)[k] == Sent(later)[j];
      SentIsPlanned(later, j);
      WithinTail(plan);
    }
  }

  lemma WithinTail(plan: Plan)
    requires plan != []
    ensures Within(plan[1..], plan)
  {
    WithinShifted(plan[1..], plan, 1);
  }

  /** The files sent later see the same destination: they are accepted or blocked alike. */
  lemma SameAcceptance(P: Params, mode: Mode, dst: FS, after: FS, files: seq<(Path, FileSpec)>)
    requires forall i :: 0 <= i < |files| ==> SameAt(dst, after, files[i].0)
    ensures AllAccepted(P, mode, dst, files) <==> AllAccepted(P, mode, after, files)
  {
    hide SafeAccepts;
  }

  /** What entering a directory did and what the rest of the plan did describe the whole. */
  lemma EnterDescribed(mode: Mode, dst: FS, made: FS, final: FS, plan: Plan)
    requires plan != [] && plan[0].Enter? && made == MkdirP(dst, plan[0].dir).0
    requires Described(mode, made, final, plan[1..])
    requires forall q :: Above(q, plan[0].dir) ==> IsDir(made, q)
    requires forall i :: 0 <= i < |Sent(plan)| ==> SameAt(dst, made, Sent(plan)[i].0) && !PlanDir(plan, Sent(plan)[i].0)
    ensures Described(mode, dst, final, plan)
  {
    hide MkdirP, Above, EnteredDir, PlanDir;
    MkdirPAdds(dst, plan[0].dir);
    assert Sent(plan) == Sent(plan[1..]);
    forall q | EnteredDir(plan, q) ensures IsDir(final, q) {
      EnteredCons(plan, q);
      if !EnteredDir(plan[1..], q) {
        assert PlanDir(plan, q);
        assert forall i :: 0 <= i < |Sent(plan)| ==> Sent(plan)[i].0 != q;
        assert !IsSent(Sent(plan), q);
        assert SameAt(made, final, q);
      }
    }
    forall p | !IsSent(Sent(plan), p) && !EnteredDir(plan, p) ensures SameAt(dst, final, p) {
      EnteredCons(plan, p);
      assert SameAt(made, final, p);
    }
  }

  lemma DistinctParts(a: seq<(Path, FileSpec)>, b: seq<(Path, FileSpec)>)
    requires DistinctPaths(a + b)
    ensures DistinctPaths(a) && DistinctPaths(b)
    ensures forall i, j :: 0 <= i < |a| && 0 <= j < |b| ==> a[i].0 != b[j].0
  {
    assert forall i :: 0 <= i < |a| ==> a[i] == (a + b)[i];
    assert forall j :: 0 <= j < |b| ==> b[j] == (a + b)[|a| + j];
  }

  lemma TailIsPlan(plan: Plan)
    requires plan != [] && GoodPlan(plan) && DistinctPaths(Sent(plan))
    ensures GoodPlan(plan[1..]) && DistinctPaths(Sent(plan[1..])) && GoodCommand(plan[0])
    ensures plan[0].Batch? ==> DistinctPaths(Located(plan[0].dir, plan[0].files))
    ensures plan[0].Batch? ==> forall i, j :: 0 <= i < |plan[0].files| && 0 <= j < |Sent(plan[1..])| ==>
      Located(plan[0].dir, plan[0].files)[i].0 != Sent(plan[1..])[j].0
  {
    hide GoodCommand, Child, DistinctPaths;
    if plan[0].Batch? {
      DistinctParts(Located(plan[0].dir, plan[0].files), Sent(plan[1..]));
    }
  }

  lemma EnterFacts(dst: FS, plan: Plan)
    requires plan != [] && plan[0].Enter? && NoClash(dst, plan)
    ensures var made := MkdirP(dst, plan[0].dir).0;
      NoClash(made, plan[1..]) && (forall q :: Above(q, plan[0].dir) ==> IsDir(made, q)) &&
      forall i :: 0 <= i < |Sent(plan)| ==> SameAt(dst, made, Sent(plan)[i].0) && !PlanDir(plan, Sent(plan)[i].0)
  {
    hide Above, MkdirP, PlanFile, Sent;
    var dir, made := plan[0].dir, MkdirP(dst, plan[0].dir).0;
    assert forall q :: Above(q, dir) ==> PlanDir(plan, q);
    MkdirPSucceeds(dst, dir);
    MkdirPAdds(dst, dir);
    WithinTail(plan);
    SelfAbove(dir);
    NoClashKept(dst, made, plan, plan[1..]);
    forall i | 0 <= i < |Sent(plan)| ensures SameAt(dst, made, Sent(plan)[i].0) && !PlanDir(plan, Sent(plan)[i].0) {
      SentIsPlanned(plan, i);
    }
  }

  lemma BatchFacts(mode: Mode, dst: FS, plan: Plan)
    requires plan != [] && plan[0].Batch? && NoClash(dst, plan) && DistinctPaths(Sent(plan)) && GoodPlan(plan)
    ensures var placed := Overlay(mode, dst, Located(plan[0].dir, plan[0].files));
      NoClash(placed, plan[1..]) &&
      forall j :: 0 <= j < |Sent(plan[1..])| ==> SameAt(dst, placed, Sent(plan[1..])[j].0)
  {
    hide PlanDir, Overlay, GoodCommand, Child;
    var now := Located(plan[0].dir, plan[0].files);
    var placed := Overlay(mode, dst, now);
    TailIsPlan(plan);
    OverlayAt(mode, dst, now);
    WithinTail(plan);
    forall i | 0 <= i < |now| ensures PlanFile(plan, now[i].0) {
      assert InBatchOf(plan[0], now[i].0);
    }
    forall p | p in placed
      ensures (p in dst && placed[p].Dir? == dst[p].Dir?) || (placed[p].File? && PlanFile(plan, p))
    {
      if i :| 0 <= i < |now| && now[i].0 == p {
        assert PlanFile(plan, now[i].0);
      }
    }
    assert forall i :: 0 <= i < |now| ==> now[i].0 != [];
    NoClashKept(dst, placed, plan, plan[1..]);
    forall j | 0 <= j < |Sent(plan[1..])| ensures SameAt(dst, placed, Sent(plan[1..])[j].0) {
      assert forall i :: 0 <= i < |now| ==> now[i].0 != Sent(plan[1..])[j].0;
    }
  }

  /** What a batch did and what the rest of the plan did describe the whole. */
  lemma BatchDescribed(mode: Mode, dst: FS, final: FS, plan: Plan)
    requires plan != [] && plan[0].Batch? && NoClash(dst, plan) && DistinctPaths(Sent(plan)) && GoodPlan(plan)
    requires Described(mode, Overlay(mode, dst, Located(plan[0].dir, plan[0].files)), final, plan[1..])
    ensures Described(mode, dst, final, plan)
  {
    hide Overlay, GoodCommand, Child, EnteredDir, PlanDir, PlanFile, GoodPlan;
    var now, later := Located(plan[0].dir, plan[0].files), Sent(plan[1..]);
    var placed := Overlay(mode, dst, now);
    TailIsPlan(plan);
    OverlayAt(mode, dst, now);
    BatchFacts(mode, dst, plan);
    assert Sent(plan) == now + later;
    forall i | 0 <= i < |now|
      ensures SameAt(placed, final, now[i].0)
    {
      assert !IsSent(later, now[i].0);
      SentIsPlanned(plan, i);
      assert Sent(plan)[i] == now[i];
      EnteredCons(plan, now[i].0);
    }
    PlacedTogether(mode, dst, placed, final, now, later);
    forall q ensures EnteredDir(plan, q) <==> EnteredDir(plan[1..], q) {
      EnteredCons(plan, q);
    }
    forall p | !IsSent(Sent(plan), p) && !EnteredDir(plan, p) ensures SameAt(dst, final, p) {
      NotSentParts(now, later, p);
      assert SameAt(placed, final, p);
    }
  }

  lemma NotSentParts(now: seq<(Path, FileSpec)>, later: seq<(Path, FileSpec)>, p: Path)
    requires !IsSent(now + later, p)
    ensures !IsSent(now, p) && !IsSent(later, p)
  {
    assert forall i :: 0 <= i < |now| ==> now[i] == (now + later)[i];
    assert forall j :: 0 <= j < |later| ==> later[j] == (now + later)[|now| + j];
  }

  lemma PlacedTogether(mode: Mode, dst: FS, placed: FS, final: FS, now: seq<(Path, FileSpec)>,
      later: seq<(Path, FileSpec)>)
    requires SentPlaced(mode, dst, placed, now) && SentPlaced(mode, placed, final, later)
    requires forall i :: 0 <= i < |now| ==> SameAt(placed, final, now[i].0)
    requires forall j :: 0 <= j < |later| ==> SameAt(dst, placed, later[j].0)
    ensures SentPlaced(mode, dst, final, now + later)
  {
    forall i | 0 <= i < |now + later|
      ensures var (p, f) := (now + later)[i];
        p in final && final[p] == if p in dst && mode != Force then dst[p] else File(f.content)
    {
      if i < |now| {
        assert SameAt(placed, final, now[i].0);
      } else {
        assert SameAt(dst, placed, later[i - |now|].0);
      }
    }
  }

  /**
   * Deploying a plan that sends no path twice: blocked exactly by what the destination held before, else as
   * described.
   */
  lemma {:induction false} PlanDeployed(P: Params, mode: Mode, dst: FS, plan: Plan)
    requires GoodPlan(plan) && NoClash(dst, plan) && DistinctPaths(Sent(plan))
    ensures var (final, ok) := Deploy(P, mode, dst, plan);
      (ok <==> AllAccepted(P, mode, dst, Sent(plan))) && (ok ==> Described(mode, dst, final, plan))
    decreases |plan|
  {
    hide NoClash, AllAccepted, Described, MkdirP, GoodPlan, DistinctPaths, DeployFiles, Overlay;
    if plan == [] {
      NothingDeployed(P, mode, dst);
    } else if plan[0].Enter? {
      var made := MkdirP(dst, plan[0].dir).0;
      TailIsPlan(plan);
      EnterFacts(dst, plan);
      PlanDeployed(P, mode, made, plan[1..]);
      SameAcceptance(P, mode, dst, made, Sent(plan));
      if Deploy(P, mode, dst, plan).1 {
        EnterDescribed(mode, dst, made, Deploy(P, mode, dst, plan).0, plan);
      }
    } else {
      var dir, files := plan[0].dir, plan[0].files;
      var now, later := Located(dir, files), Sent(plan[1..]);
      TailIsPlan(plan);
      FilesDeployed(P, mode, dst, dir, files);
      FilesAccepted(P, mode, dst, dir, files);
      BatchFacts(mode, dst, plan);
      var placed := Overlay(mode, dst, now);
      PlanDeployed(P, mode, placed, plan[1..]);
      SameAcceptance(P, mode, dst, placed, later);
      AcceptSplit(P, mode, dst, dir, files, later);
      if Deploy(P, mode, dst, plan).1 {
        BatchDescribed(mode, dst, Deploy(P, mode, dst, plan).0, plan);
      }
    }
  }

  lemma AcceptSplit(P: Params, mode: Mode, dst: FS, dir: Path, files: seq<FileSpec>, later: seq<(Path, FileSpec)>)
    ensures AllAccepted(P, mode, dst, Located(dir, files) + later) <==>
      (forall i :: 0 <= i < |files| ==> !Blocked(P, mode, dst, Child(dir, files[i].name), files[i])) &&
      AllAccepted(P, mode, dst, later)
  {
    hide Blocked, Child;
    var now := Located(dir, files);
    assert forall i :: 0 <= i < |now| ==> (now + later)[i] == now[i];
    assert forall j :: 0 <= j < |later| ==> (now + later)[|now| + j] == later[j];
    if AllAccepted(P, mode, dst, now + later) {
      forall i | 0 <= i < |files| ensures !Blocked(P, mode, dst, Child(dir, files[i].name), files[i]) {
        assert (now + later)[i] == now[i];
      }
    }
  }

  lemma NothingDeployed(P: Params, mode: Mode, dst: FS)
    ensures Deploy(P, mode, dst, []) == (dst, true) && AllAccepted(P, mode, dst, Sent([])) &&
      Described(mode, dst, dst, [])
  {
  }

  // ---------------------------------------------------------------- lines no sender writes

  /** The count of the hash section is bounded but not compared with the batch: any count up to the bound will do. */
  lemma HashCountUncompared(P: Params, rx: Rx, n: nat, rest: seq<byte>)
    requires rx.phase == HashCount && rx.input == HashCountLine(n) + [LF] + rest && n < U64_LIMIT
    ensures Step(P, rx) ==
      if n <= MAX_FILES then Go(rx.(phase := FileHashes, index := 0, input := rest)) else Failed(rx.fs)
  {
    hide ReadLine, ScanSize, SkipSpaces, CStr, HashCountLine;
    HashCountRead(n, rest);
  }

  /** Two lines end the receiver without an error: END, and, although nothing announces it, a blank one. */
  lemma ExitLines(P: Params, rx: Rx, line: seq<byte>, rest: seq<byte>)
    requires rx.phase == Idle && rx.input == line + [LF] + rest
    requires LF !in line && NUL !in line && |line| + 1 < WIDE_LINE
    ensures IsBlank(line) ==> Run(P, rx) == Exited(rx.(phase := Done, input := rest), false)
    ensures line == Ascii("END") ==> Run(P, rx) == Exited(rx.(phase := Done, input := rest), true)
  {
    hide ReadLine, CStr, MkdirP, Components;
    LineRead(line, rest, WIDE_LINE);
    if line == Ascii("END") {
      assert line[0] == 69 && Ascii("DIRECTORY: ")[0] == 68 && Ascii("FILE_LIST")[0] == 70;
    }
  }

  /** At moment `k` of the run from `rx` the receiver is idle and about to read END, or (`end` false) a blank line. */
  ghost predicate LeavesOn(P: Params, rx: Rx, k: nat, y: Rx, end: bool) {
    After(P, rx, k) == Go(y) && y.phase == Idle && ReadLine(y.input, WIDE_LINE).Some? &&
    var line := CStr(ReadLine(y.input, WIDE_LINE).value.0);
    if end then line == Ascii("END") else IsBlank(line)
  }

  /** A step that ends a run, or leads to the state that does, is one of those two lines. */
  lemma LastStep(P: Params, rx: Rx)
    requires rx.phase != Done && (Step(P, rx).Exited? || (Step(P, rx).Go? && Step(P, rx).rx.phase == Done))
    ensures LeavesOn(P, rx, 0, rx, Step(P, rx).Exited?)
    ensures Step(P, rx).Exited? ==> Step(P, rx).sawEnd
  {
    hide ReadLine, CStr, ScanSize, ScanInt32, SkipSpaces, ParseMode, Decode, Commit, MkdirP, Components, Received;
    hide Mkstemp, IsBlank;
  }

  lemma {:induction false} LeavesSomewhere(P: Params, rx: Rx) returns (k: nat, y: Rx)
    requires rx.phase != Done && Run(P, rx).Exited?
    ensures LeavesOn(P, rx, k, y, Run(P, rx).sawEnd)
    decreases |rx.input|, Rank(rx.phase), Left(rx)
  {
    hide Step, IsBlank, ReadLine, CStr;
    if Step(P, rx).Exited? {
      LastStep(P, rx);
      k, y := 0, rx;
    } else {
      var next := Step(P, rx).rx;
      StepProgress(P, rx);
      if next.phase == Done {
        LastStep(P, rx);
        DoneExits(P, next);
        k, y := 0, rx;
      } else {
        var j;
        j, y := LeavesSomewhere(P, next);
        k := j + 1;
      }
    }
  }

  lemma DoneExits(P: Params, rx: Rx)
    requires rx.phase == Done
    ensures Run(P, rx) == Exited(rx, false)
  {
  }

  lemma LineLeaves(P: Params, y: Rx)
    requires y.phase == Idle && ReadLine(y.input, WIDE_LINE).Some?
    ensures var line := CStr(ReadLine(y.input, WIDE_LINE).value.0);
      (IsBlank(line) ==> Run(P, y).Exited? && !Run(P, y).sawEnd) &&
      (line == Ascii("END") ==> Run(P, y).Exited? && Run(P, y).sawEnd)
  {
    hide ReadLine, CStr, MkdirP, Components;
    var line := CStr(ReadLine(y.input, WIDE_LINE).value.0);
    if line == Ascii("END") {
      assert line[0] == 69 && Ascii("DIRECTORY: ")[0] == 68 && Ascii("FILE_LIST")[0] == 70;
    }
  }

  /**
   * How a receiver leaves without an error: if and only if it comes, between batches, to a line END, and then it has
   * seen END; or to a blank one (also one that starts with a NUL), and then it has not. Nothing else does it.
   */
  lemma ExitsExactly(P: Params, rx: Rx)
    requires rx.phase != Done
    ensures Run(P, rx).Exited? && Run(P, rx).sawEnd <==> exists k, y :: LeavesOn(P, rx, k, y, true)
    ensures Run(P, rx).Exited? && !Run(P, rx).sawEnd <==> exists k, y :: LeavesOn(P, rx, k, y, false)
  {
    hide Run, After, IsBlank, ReadLine, CStr;
    if Run(P, rx).Exited? {
      var k, y := LeavesSomewhere(P, rx);
    }
    forall k, y, end | LeavesOn(P, rx, k, y, end) ensures Run(P, rx).Exited? && Run(P, rx).sawEnd == end {
      RunFrom(P, rx, k);
      LineLeaves(P, y);
    }
  }
}
