/** Sender and receiver joined by a pipe: the two programs as written, run one into the other. */
module Pipeline {
  import opened Bytes
  import opened FileSystem
  import opened Protocol
  import opened Snapshot
  import opened Landings
  import opened Truncation
  import opened Trees
  import opened Transfer
  import opened Receiving
  import opened Walking

  /**
   * The regular files left are the old ones with the first `m` files of the snapshot, in sending order, laid over
   * them.
   */
  ghost predicate PartlyLaid(mode: Mode, before: FS, after: FS, w: WalkLimits, t: Tree, m: nat) {
    var files := Sent(WalkPlan(w, t, [], 0));
    m <= |files| && Files(after) == Overlay(mode, Files(before), files[..m])
  }

  ghost predicate FullyLaid(mode: Mode, before: FS, after: FS, w: WalkLimits, t: Tree) {
    Files(after) == Overlay(mode, Files(before), Sent(WalkPlan(w, t, [], 0)))
  }

  /** The files laid when the receiver gets these bytes. */
  ghost function LaidBy(P: Params, mode: Mode, fs: FS, w: WalkLimits, t: Tree, bytes: seq<byte>): nat {
    Laid(P, mode, Files(fs), WalkPlan(w, t, [], 0), Arrived(mode, w, t, bytes))
  }

  /** With everything before END out, all files are laid unless safe mode blocks one. */
  lemma AllButEnd(P: Params, w: WalkLimits, fs: FS, tape: seq<Name>, dir: seq<byte>, mode: Mode, t: Tree,
      sent: seq<byte>, meant: seq<byte>)
    requires ReadyToSend(fs, tape, w, t) && meant + TRAILER == SenderStream(P, w, mode, t) && meant <= sent
    ensures var files := Sent(WalkPlan(w, t, [], 0)); var k := FirstBlocked(P, mode, Files(fs), files);
      LaidBy(P, mode, fs, w, t, sent) == k && (Acceptable(P, mode, fs, w, t) <==> k == |files|)
  {
    hide WalkPlan, ReadyToSend, Acceptable, PlanBytes, Header, RecordEnds, FirstBlocked, Sent, Run, ModeOverlay;
    hide LeftBehind, Overlay;
    hide TreeBytes, TreeCount;
    var plan := WalkPlan(w, t, [], 0);
    EndsCount(P, plan, 0);
    EndsAscend(P, plan, 0);
    assert |TRAILER| == 4;
    assert |SenderStream(P, w, mode, t)| == |meant| + 4;
    AllReached(RecordEnds(P, plan, 0), Arrived(mode, w, t, sent));
    EndToEnd(P, w, fs, tape, dir, mode, t);
  }

  /**
   * A whole transfer. Whatever the orders directories are read in, however reads and writes are split and wherever
   * the pipe breaks, the destination is left with those files of the snapshot laid over it whose hash records got out,
   * up to the first that safe mode blocks, and the receiver reports END only with all of them laid. When the sender
   * reports success they are all laid if safe mode finds nothing to object to, even if END did not get out; and if it
   * did, the receiver reports END, with the mode's overlay and the totals that were announced. With no fault in
   * reading, paths that fit and a descriptor that does not fail, the sender does report success.
   */
  method TransferOver(sender: Walker, t: Tree, mode: Mode, fs: FS, tape: seq<Name>, dir: seq<byte>, bufSize: nat)
    returns (sentAll: bool, receiver: Receiver, ret: Return)
    requires sender.Valid() && PlainTree(t) && sender.Now() == Progress([], [], false, 0, 0, 0, 0)
    requires ReadyToSend(fs, tape, sender.w, t) && bufSize > 0
    modifies sender, sender.bw, sender.bw.buf, sender.dry, sender.dry.buckets
    ensures PartlyLaid(mode, fs, receiver.fs, sender.w, t, LaidBy(sender.P, mode, fs, sender.w, t, sender.bw.sent))
    ensures ret.Exit? ==> ret.sawEnd && FullyLaid(mode, fs, receiver.fs, sender.w, t)
    ensures !sender.faulty && PathsFit(sender.w, sender.root, t, []) && !sender.bw.broken ==> sentAll
    ensures sender.bw.reliable ==> !sender.bw.broken
    ensures sentAll ==>
      if Acceptable(sender.P, mode, fs, sender.w, t) then FullyLaid(mode, fs, receiver.fs, sender.w, t) else ret == Fail
    ensures sentAll && !sender.bw.broken && Acceptable(sender.P, mode, fs, sender.w, t) ==>
      ret == Exit(true) && ModeOverlay(mode, fs, receiver.fs, sender.w, t) &&
      receiver.totalFiles == sender.totalFiles == sender.dry.fileCount &&
      receiver.totalBytes == sender.totalBytes == sender.dry.fileTotalSize
  {
    hide WalkPlan, ReadyToSend, PlainTree, Acceptable, ModeOverlay, SenderStream, TreeCount, TreeBytes, Run, Overlay;
    hide Files, Sent;
    hide Laid, FirstBlocked, LastRead, BatchOpen, AlwaysCounted, LeavesTemp, TempFiles, LaidBy;
    hide PathsFit;
    sentAll := sender.Send(t, mode, false);
    assert PathsFit(sender.w, sender.root, t, []) ==> CanBeSent(sender.w, sender.root, t) by {
      TotalsFit(fs, tape, sender.w, t);
    }
    receiver := new Receiver(sender.P, bufSize, fs, tape, dir, sender.bw.sent);
    ghost var start := receiver.View();
    ret := receiver.Drive();
    CutOff(sender.P, sender.w, fs, tape, dir, mode, t, sender.bw.sent);
    LaidByIs(sender.P, mode, fs, sender.w, t, sender.bw.sent);
    ghost var files := Sent(WalkPlan(sender.w, t, [], 0));
    assert files[..|files|] == files;
    if sentAll {
      ghost var meant :| meant + TRAILER == SenderStream(sender.P, sender.w, mode, t) && meant <= sender.bw.sent;
      AllButEnd(sender.P, sender.w, fs, tape, dir, mode, t, sender.bw.sent, meant);
    }
    EndToEnd(sender.P, sender.w, fs, tape, dir, mode, t);
  }

  lemma TotalsFit(fs: FS, tape: seq<Name>, w: WalkLimits, t: Tree)
    requires ReadyToSend(fs, tape, w, t)
    ensures TreeBytes(w, t, 0) < U64_LIMIT && TreeCount(w, t, 0) < U64_LIMIT
  {
    hide GoodTree, NoClashWith, TreeBytes, TreeCount;
  }

  lemma LaidByIs(P: Params, mode: Mode, fs: FS, w: WalkLimits, t: Tree, bytes: seq<byte>)
    ensures LaidBy(P, mode, fs, w, t, bytes) ==
      Laid(P, mode, Files(fs), WalkPlan(w, t, [], 0), Arrived(mode, w, t, bytes))
  {
  }
}
