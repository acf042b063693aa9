/** The destination stays a tree whatever bytes arrive, so a directory is refused exactly when a file is in its way. */
module Rooted {
  import opened Bytes
  import opened Codec
  import opened FileSystem
  import opened Protocol
  import opened Safety

  lemma PutFile(fs: FS, p: Path, content: seq<byte>)
    requires IsTree(fs) && p != [] && IsDir(fs, Parent(p)) && !IsDir(fs, p)
    ensures IsTree(fs[p := File(content)])
  {
  }

  lemma UnlinkKeepsTree(fs: FS, p: Path)
    requires IsTree(fs)
    ensures IsTree(Unlink(fs, p))
  {
  }

  /** Moving a file over a file or to a free name of the same directory. */
  lemma RenameKeepsTree(fs: FS, from: Path, to: Path)
    requires IsTree(fs) && from in fs && fs[from].File? && from != [] && to != [] && Parent(from) == Parent(to)
    ensures Rename(fs, from, to).Some? ==> IsTree(Rename(fs, from, to).value)
  {
    UnlinkKeepsTree(fs, from);
    if Rename(fs, from, to).Some? {
      assert Unlink(fs, from) == fs - {from};
      PutFile(fs - {from}, to, fs[from].content);
    }
  }

  lemma DataKeepsTree(P: Params, rx: Rx)
    requires rx.phase == FileData && IsTree(rx.fs)
    ensures IsTree(Destination(Step(P, rx)))
  {
    hide IsTree, Mkstemp, Components, Received, Take, Names, FilePath;
    if rx.index < rx.count == |rx.entries| {
      var temp := Mkstemp(rx.fs, Components(rx.dir), rx.tape, Names(rx.entries));
      if temp.Some? {
        forall content: seq<byte> ensures IsTree(rx.fs[Child(Components(rx.dir), temp.value) := File(content)]) {
          PutFile(rx.fs, Child(Components(rx.dir), temp.value), content);
        }
      }
    }
  }

  lemma CommitKeepsTree(P: Params, rx: Rx, e: Entry)
    requires IsTree(rx.fs) && TempPath(rx, e) in rx.fs && rx.fs[TempPath(rx, e)].File?
    ensures IsTree(Commit(P, rx, e).0)
  {
    hide IsTree, Rename, Unlink, SafeAccepts, Components;
    UnlinkKeepsTree(rx.fs, TempPath(rx, e));
    RenameKeepsTree(rx.fs, TempPath(rx, e), FilePath(rx, e.name));
  }

  /** One step from a state that satisfies the invariant. */
  lemma StepKeepsTree(P: Params, start: Rx, k: nat, rx: Rx)
    requires Inv(P, start, k, rx) && IsTree(rx.fs)
    ensures IsTree(Destination(Step(P, rx)))
  {
    hide IsTree, Sound, AllAnnounced, Filled, After, Decode, Commit, CrossChecked, ReadLine, CStr, ScanSize, ScanInt32;
    hide ParseMode, MkdirP, Components, IsBlank;
    match rx.phase
    case FileData => DataKeepsTree(P, rx);
    case Idle =>
      forall p ensures IsTree(MkdirP(rx.fs, p).0) { MkdirPKeepsTree(rx.fs, p); }
    case FileHashes =>
      if rx.index < rx.count {
        var b :| BatchFacts(P, start, k, b, rx);
        assert Pending(P, start, b, rx, rx.index);
        CommitKeepsTree(P, rx, rx.entries[rx.index]);
      }
    case _ =>
  }

  /** At every moment of every run, on any byte stream, every node of the destination lies in a directory. */
  lemma {:induction false} StaysTree(P: Params, before: FS, tape: seq<Name>, dir: seq<byte>, stream: seq<byte>, k: nat)
    requires IsTree(before)
    ensures IsTree(Destination(After(P, Start(before, tape, dir, stream), k)))
    decreases k
  {
    hide IsTree, Inv, Step;
    if k > 0 {
      var start := Start(before, tape, dir, stream);
      StaysTree(P, before, tape, dir, stream, k - 1);
      AfterNext(P, start, k - 1);
      AtomicCommit(P, before, tape, dir, stream, k - 1);
      if After(P, start, k - 1).Go? {
        StepKeepsTree(P, start, k - 1, After(P, start, k - 1).rx);
      }
    }
  }

  /**
   * A directory line read at any moment of any run is accepted if and only if no proper ancestor of the directory is
   * a file; otherwise the receiver gives up.
   */
  lemma DirectoryAccepted(P: Params, before: FS, tape: seq<Name>, dir: seq<byte>, stream: seq<byte>, k: nat,
      named: seq<byte>)
    requires IsTree(before) && DirLineAt(P, Start(before, tape, dir, stream), k, named)
    ensures var rx, p := After(P, Start(before, tape, dir, stream), k).rx, Components(named);
      var accepted := forall q :: Above(q, p) && q != p && q in rx.fs ==> rx.fs[q].Dir?;
      && (Step(P, rx).Go? <==> accepted)
      && (accepted ==> Step(P, rx).rx.phase == Idle && Step(P, rx).rx.dir == named)
      && (!accepted ==> Step(P, rx).Failed?)
  {
    hide IsTree, MkdirP, Components, ReadLine, CStr, IsBlank, After;
    StaysTree(P, before, tape, dir, stream, k);
    var rx := After(P, Start(before, tape, dir, stream), k).rx;
    MkdirPExactly(rx.fs, Components(named));
    assert !IsBlank(CStr(ReadLine(rx.input, WIDE_LINE).value.0)) by {
      NotBlank(CStr(ReadLine(rx.input, WIDE_LINE).value.0));
    }
  }

  lemma NotBlank(line: seq<byte>)
    requires Ascii("DIRECTORY: ") <= line
    ensures !IsBlank(line)
  {
    assert line[0] == Ascii("DIRECTORY: ")[0];
  }
}
