/** What holds of the destination at every moment of every run, whatever bytes arrive. */
module Safety {
  import opened Bytes
  import opened Digests
  import opened Codec
  import opened FileSystem
  import opened Protocol

  // ---------------------------------------------------------------- moments of a run

  /** The moment after `k` steps is the state `rx`. */
  ghost predicate Reaches(P: Params, start: Rx, k: nat, rx: Rx) { After(P, start, k) == Go(rx) }

  // ---------------------------------------------------------------- where committed contents come from

  /** The digests a record carries are those of the content `c`. */
  ghost predicate Certifies(P: Params, hash: Digest, chunks: seq<Digest>, c: seq<byte>) {
    (|c| > 0 ==> hash == FileDigest(P.H, P.chunk, c)) &&
    (|c| > P.chunk ==> chunks == ChunkHashes(P.H, P.chunk, c))
  }

  /**
   * A batch whose FILES line is read at moment `b` announces its entry `i` at moment `b + 1 + i`: there the
   * receiver, in the metadata phase with `i` entries, reads a record of that name and size.
   */
  ghost predicate AnnouncedAt(P: Params, start: Rx, b: nat, i: nat, name: Name, size: nat) {
    var o := After(P, start, b + 1 + i);
    o.Go? && o.rx.phase == Metadata && |o.rx.entries| == i && i < o.rx.count && Decode(o.rx.input).Some? &&
    var r := Decode(o.rx.input).value.0; r.name == name && r.size == size
  }

  /** The data phase of a batch of `n` files takes the data of entry `i` at moment `b + 2 + n + i`; it is `c`. */
  ghost predicate DataAt(P: Params, start: Rx, b: nat, n: nat, i: nat, c: seq<byte>) {
    var o := After(P, start, b + 2 + n + i);
    o.Go? && o.rx.phase == FileData && o.rx.index == i && o.rx.count == n && c <= o.rx.input
  }

  /**
   * Its hash phase confirms entry `i` at moment `b + 4 + 2 * n + i`: there the receiver reads a record with the
   * name of `p` and with length and digests of `c`, while the directory in force is that of `p`.
   */
  ghost predicate ConfirmedAt(P: Params, start: Rx, b: nat, n: nat, i: nat, p: Path, c: seq<byte>)
    requires p != []
  {
    var o := After(P, start, b + 4 + 2 * n + i);
    o.Go? && o.rx.phase == FileHashes && o.rx.index == i && o.rx.count == n && FilePath(o.rx, Leaf(p)) == p &&
    Decode(o.rx.input).Some? &&
    var r := Decode(o.rx.input).value.0; r.name == Leaf(p) && r.size == |c| && Certifies(P, r.hash, r.chunks, c)
  }

  /**
   * One batch of this run announced the content, received it in full and confirmed it, as its entry `i`, before
   * `k`.
   */
  ghost predicate Witnessed(P: Params, start: Rx, k: nat, p: Path, c: seq<byte>, b: nat, n: nat, i: nat)
    requires p != []
  {
    var o := After(P, start, b);
    o.Go? && o.rx.phase == FileCount && i < n && b + 4 + 2 * n + i < k &&
    AnnouncedAt(P, start, b, i, Leaf(p), |c|) && DataAt(P, start, b, n, i, c) && ConfirmedAt(P, start, b, n, i, p, c)
  }

  ghost predicate Committed(P: Params, start: Rx, k: nat, p: Path, c: seq<byte>) {
    p != [] && exists b, n, i :: Witnessed(P, start, k, p, c, b, n, i)
  }

  /** At moment `j` the receiver reads the line that announces the directory `dir`. */
  ghost predicate DirLineAt(P: Params, start: Rx, j: nat, dir: seq<byte>) {
    var o := After(P, start, j);
    o.Go? && o.rx.phase == Idle && ReadLine(o.rx.input, WIDE_LINE).Some? &&
    var line := CStr(ReadLine(o.rx.input, WIDE_LINE).value.0);
    Ascii("DIRECTORY: ") <= line && dir == Truncate(line[11..], PATH_MAX - 1)
  }

  ghost predicate MadeAt(P: Params, start: Rx, j: nat, dir: seq<byte>, p: Path) {
    DirLineAt(P, start, j, dir) && Above(p, Components(dir))
  }

  /** A line read before `k` announced this directory or one below it. */
  ghost predicate MadeFor(P: Params, start: Rx, k: nat, p: Path) {
    exists j: nat, dir :: j < k && MadeAt(P, start, j, dir, p)
  }

  /** What may have become of one path by moment `k`. */
  ghost predicate Fate(P: Params, start: Rx, k: nat, mode: Mode, fs: FS, p: Path) {
    if p in start.fs then
      p in fs &&
      (fs[p] == start.fs[p] ||
       (mode == Force && start.fs[p].File? && fs[p].File? && Committed(P, start, k, p, fs[p].content)))
    else
      p in fs ==> if fs[p].Dir? then MadeFor(P, start, k, p) else Committed(P, start, k, p, fs[p].content)
  }

  ghost predicate Sound(P: Params, start: Rx, k: nat, mode: Mode, fs: FS) {
    forall p :: !IsTemp(p) ==> Fate(P, start, k, mode, fs, p)
  }

  // ---------------------------------------------------------------- what holds of the entries of a batch

  /** The content is what the data phase took for entry `i`, in full, and the entry's digests are those of it. */
  ghost predicate Filled(P: Params, start: Rx, b: nat, n: nat, i: nat, e: Entry, c: seq<byte>) {
    |c| == e.size && DataAt(P, start, b, n, i, c) && Certifies(P, e.hash, e.chunks, c)
  }

  /** The temporary of a received entry: its own, and complete unless append mode will discard it. */
  ghost predicate Pending(P: Params, start: Rx, b: nat, rx: Rx, i: nat)
    requires i < |rx.entries|
  {
    var e := rx.entries[i];
    IsTempName(e.temp) && e.temp !in Names(rx.entries) &&
    TempPath(rx, e) in rx.fs && rx.fs[TempPath(rx, e)].File? &&
    ((rx.mode == Append && FilePath(rx, e.name) in rx.fs) ||
     Filled(P, start, b, rx.count, i, e, rx.fs[TempPath(rx, e)].content))
  }

  ghost predicate DistinctTemps(entries: seq<Entry>, lo: nat, hi: nat) {
    forall i, j :: lo <= i < j < hi <= |entries| ==> entries[i].temp != entries[j].temp
  }

  predicate InBatch(phase: Phase) {
    phase in {Metadata, FileData, HashCount, FileHashes}
  }

  ghost predicate AllAnnounced(P: Params, start: Rx, b: nat, entries: seq<Entry>) {
    forall j :: 0 <= j < |entries| ==> AnnouncedAt(P, start, b, j, entries[j].name, entries[j].size)
  }

  ghost predicate AllPending(P: Params, start: Rx, b: nat, rx: Rx, lo: nat, hi: nat) {
    (forall j :: lo <= j < hi <= |rx.entries| ==> Pending(P, start, b, rx, j)) &&
    DistinctTemps(rx.entries, lo, hi)
  }

  /** The bounds the handlers rely on. */
  predicate Shape(rx: Rx) {
    rx.phase != ExpectDir && rx.phase != ExpectFileList &&
    (InBatch(rx.phase) ==>
      rx.count <= MAX_FILES && rx.count <= rx.capacity && rx.received == 0 && |rx.entries| <= rx.count) &&
    (rx.phase in {FileData, HashCount, FileHashes} ==> |rx.entries| == rx.count && rx.index <= rx.count) &&
    (rx.phase in {HashCount, FileHashes} ==> rx.count > 0)
  }

  /** The moment a position in a batch has, and what the earlier moments of the batch have left. */
  ghost predicate BatchFacts(P: Params, start: Rx, k: nat, b: nat, rx: Rx) {
    After(P, start, b).Go? && After(P, start, b).rx.phase == FileCount && AllAnnounced(P, start, b, rx.entries) &&
    match rx.phase
    case Metadata => k == b + 1 + |rx.entries|
    case FileData => k == b + 2 + rx.count + rx.index && AllPending(P, start, b, rx, 0, rx.index)
    case HashCount => k == b + 3 + 2 * rx.count && AllPending(P, start, b, rx, 0, rx.count)
    case FileHashes => k == b + 4 + 2 * rx.count + rx.index && AllPending(P, start, b, rx, rx.index, rx.count)
    case _ => true
  }

  ghost predicate BatchAt(P: Params, start: Rx, k: nat, rx: Rx) {
    InBatch(rx.phase) ==> exists b :: BatchFacts(P, start, k, b, rx)
  }

  /** The invariant of the receiver at moment `k`. */
  ghost predicate Inv(P: Params, start: Rx, k: nat, rx: Rx) {
    Reaches(P, start, k, rx) &&
    Sound(P, start, k, rx.mode, rx.fs) &&
    (InHeader(rx.phase) ==> rx.fs == start.fs) &&
    Shape(rx) && BatchAt(P, start, k, rx)
  }

  ghost predicate SoundOutcome(P: Params, start: Rx, k: nat, mode: Mode, o: Outcome) {
    match o
    case Go(rx) => Inv(P, start, k, rx)
    case Failed(fs) => Sound(P, start, k, mode, fs)
    case Exited(rx, _) => rx.mode == mode && Sound(P, start, k, mode, rx.fs)
  }

  predicate InHeader(phase: Phase) { phase == Version || phase == ModeLine }

  // ---------------------------------------------------------------- steps

  lemma CommittedLater(P: Params, start: Rx, k: nat, p: Path, c: seq<byte>)
    requires Committed(P, start, k, p, c)
    ensures Committed(P, start, k + 1, p, c)
  {
    hide AnnouncedAt, DataAt, ConfirmedAt, After;
    var b, n, i :| Witnessed(P, start, k, p, c, b, n, i);
    assert Witnessed(P, start, k + 1, p, c, b, n, i);
  }

  lemma FateLater(P: Params, start: Rx, k: nat, mode: Mode, fs: FS, p: Path)
    requires Fate(P, start, k, mode, fs, p)
    ensures Fate(P, start, k + 1, mode, fs, p)
  {
    hide Committed, MadeAt;
    if p in fs && fs[p].File? && Committed(P, start, k, p, fs[p].content) {
      CommittedLater(P, start, k, p, fs[p].content);
    }
  }

  lemma SoundLater(P: Params, start: Rx, k: nat, mode: Mode, fs: FS)
    requires Sound(P, start, k, mode, fs)
    ensures Sound(P, start, k + 1, mode, fs)
  {
    hide Fate;
    forall p | !IsTemp(p) ensures Fate(P, start, k + 1, mode, fs, p) {
      FateLater(P, start, k, mode, fs, p);
    }
  }

  lemma SoundAtStart(P: Params, start: Rx, k: nat, mode: Mode)
    ensures Sound(P, start, k, mode, start.fs)
  {
  }

  lemma DirectoryStep(P: Params, start: Rx, k: nat, mode: Mode, fs: FS, dir: seq<byte>)
    requires Sound(P, start, k, mode, fs) && DirLineAt(P, start, k, dir)
    ensures Sound(P, start, k + 1, mode, MkdirP(fs, Components(dir)).0)
  {
    hide DirLineAt, Components, Committed, Above, MadeFor;
    MkdirPAdds(fs, Components(dir));
    SoundLater(P, start, k, mode, fs);
    var made := MkdirP(fs, Components(dir)).0;
    forall p | !IsTemp(p) ensures Fate(P, start, k + 1, mode, made, p) {
      assert Fate(P, start, k + 1, mode, fs, p);
      if p in made && p !in fs {
        MadeNow(P, start, k, dir, p);
      }
    }
  }

  lemma MadeNow(P: Params, start: Rx, k: nat, dir: seq<byte>, p: Path)
    requires DirLineAt(P, start, k, dir) && Above(p, Components(dir))
    ensures MadeFor(P, start, k + 1, p)
  {
    hide DirLineAt, Components, Above;
    assert MadeAt(P, start, k, dir, p);
  }

  /** Reaching the next state: what is left to show of it. */
  lemma Onward(P: Params, start: Rx, k: nat, rx: Rx)
    requires Inv(P, start, k, rx)
    ensures Step(P, rx).Go? ==> Reaches(P, start, k + 1, Step(P, rx).rx)
    ensures Sound(P, start, k + 1, rx.mode, rx.fs)
  {
    hide Sound, Step, After, Shape, BatchAt;
    AfterNext(P, start, k);
    SoundLater(P, start, k, rx.mode, rx.fs);
  }

  lemma HeaderLine(P: Params, start: Rx, k: nat, rx: Rx)
    requires Inv(P, start, k, rx) && rx.phase in {Version, ModeLine, StatBytes, StatFiles}
    ensures SoundOutcome(P, start, k + 1, rx.mode, Step(P, rx))
  {
    hide Sound, ReadLine, CStr, ScanSize, ScanInt32, ParseMode, Reaches;
    Onward(P, start, k, rx);
    if Step(P, rx).Go? {
      SoundAtStart(P, start, k + 1, Step(P, rx).rx.mode);
    }
  }

  lemma CountLine(P: Params, start: Rx, k: nat, rx: Rx)
    requires Inv(P, start, k, rx) && rx.phase == FileCount
    ensures SoundOutcome(P, start, k + 1, rx.mode, Step(P, rx))
  {
    hide Sound, ReadLine, CStr, ScanSize, After;
    Onward(P, start, k, rx);
    if Step(P, rx).Go? {
      assert BatchFacts(P, start, k + 1, k, Step(P, rx).rx);
    }
  }

  lemma IdleStep(P: Params, start: Rx, k: nat, rx: Rx)
    requires Inv(P, start, k, rx) && rx.phase == Idle
    ensures SoundOutcome(P, start, k + 1, rx.mode, Step(P, rx))
  {
    hide Sound, MkdirP, Components, ReadLine, CStr, Truncate, IsBlank, After;
    Onward(P, start, k, rx);
    if ReadLine(rx.input, WIDE_LINE).Some? {
      var line := CStr(ReadLine(rx.input, WIDE_LINE).value.0);
      if Ascii("DIRECTORY: ") <= line {
        var dir := Truncate(line[11..], PATH_MAX - 1);
        assert DirLineAt(P, start, k, dir);
        DirectoryStep(P, start, k, rx.mode, rx.fs, dir);
      }
    }
  }

  lemma MetadataStep(P: Params, start: Rx, k: nat, rx: Rx)
    requires Inv(P, start, k, rx) && rx.phase == Metadata
    ensures SoundOutcome(P, start, k + 1, rx.mode, Step(P, rx))
  {
    hide Sound, Decode, After, AnnouncedAt, AllPending;
    Onward(P, start, k, rx);
    var b :| BatchFacts(P, start, k, b, rx);
    if Step(P, rx).Go? {
      var next := Step(P, rx).rx;
      if |rx.entries| < rx.count {
        AnnouncedNow(P, start, k, b, rx);
        assert next.entries[..|rx.entries|] == rx.entries;
      } else {
        NonePending(P, start, b, next);
      }
      assert BatchFacts(P, start, k + 1, b, next);
    }
  }

  lemma AnnouncedNow(P: Params, start: Rx, k: nat, b: nat, rx: Rx)
    requires Reaches(P, start, k, rx) && k == b + 1 + |rx.entries| && rx.phase == Metadata && |rx.entries| < rx.count
    requires Decode(rx.input).Some?
    ensures var r := Decode(rx.input).value.0; AnnouncedAt(P, start, b, |rx.entries|, r.name, r.size)
  {
    hide Decode, After;
  }

  lemma NonePending(P: Params, start: Rx, b: nat, rx: Rx)
    ensures AllPending(P, start, b, rx, 0, 0)
  {
  }

  lemma SameNames(entries: seq<Entry>, i: nat, e: Entry)
    requires i < |entries| && e.name == entries[i].name
    ensures Names(entries[i := e]) == Names(entries)
  {
    forall n | n in Names(entries) ensures n in Names(entries[i := e]) {
      var j :| 0 <= j < |entries| && entries[j].name == n;
      assert entries[i := e][j].name == n;
    }
  }

  lemma FilledNow(P: Params, start: Rx, k: nat, b: nat, rx: Rx, temp: Name, data: seq<byte>)
    requires Reaches(P, start, k, rx) && k == b + 2 + rx.count + rx.index && rx.phase == FileData
    requires rx.index < |rx.entries| && data <= rx.input && |data| == rx.entries[rx.index].size
    ensures var e := Received(P, rx.entries[rx.index].(temp := temp), data);
      Filled(P, start, b, rx.count, rx.index, e, data)
  {
    hide After, ChunkHashes;
  }

  /** What one entry's data changes: one new temporary, the entry, the position. */
  lemma DataMoves(P: Params, rx: Rx)
    requires rx.phase == FileData && rx.index < rx.count && Step(P, rx).Go?
    ensures rx.tape != [] && IsTempName(rx.tape[0]) && |rx.entries| == rx.count && rx.tape[0] !in Names(rx.entries)
    ensures var next, at, e := Step(P, rx).rx, Child(Components(rx.dir), rx.tape[0]), rx.entries[rx.index];
      Take(rx.input, e.size).Some? &&
      var data := Take(rx.input, e.size).value.0;
      at !in rx.fs && at in next.fs && next.fs == rx.fs[at := next.fs[at]] &&
      next.fs[at] == File(if rx.mode == Append && FilePath(rx, e.name) in rx.fs then [] else data) &&
      next.entries == rx.entries[rx.index := Received(P, e.(temp := rx.tape[0]), data)] &&
      next.phase == FileData && next.mode == rx.mode && next.dir == rx.dir && next.count == rx.count &&
      next.capacity == rx.capacity && next.received == rx.received && next.index == rx.index + 1
  {
    hide Received, Components, Child, IsTempName, Names;
  }

  lemma TempKeepsSound(P: Params, start: Rx, k: nat, mode: Mode, fs: FS, temp: Path, node: Node)
    requires Sound(P, start, k, mode, fs) && IsTemp(temp)
    ensures Sound(P, start, k, mode, fs[temp := node])
  {
    hide Committed, MadeFor;
    forall p | !IsTemp(p) ensures Fate(P, start, k, mode, fs[temp := node], p) {
      assert Fate(P, start, k, mode, fs, p);
    }
  }

  /** An entry stays pending when its temporary, the files and the names stay. */
  lemma StillPending(P: Params, start: Rx, b: nat, rx: Rx, next: Rx, i: nat)
    requires i < |rx.entries| && Pending(P, start, b, rx, i)
    requires i < |next.entries| && next.entries[i] == rx.entries[i] && next.count == rx.count
    requires next.dir == rx.dir && next.mode == rx.mode && Names(next.entries) == Names(rx.entries)
    requires FilePath(rx, rx.entries[i].name) in rx.fs ==> FilePath(rx, rx.entries[i].name) in next.fs
    requires var t := TempPath(rx, rx.entries[i]); t in next.fs && next.fs[t] == rx.fs[t]
    ensures Pending(P, start, b, next, i)
  {
    hide Filled, Names, Components, Child;
  }

  /** The entry just received is pending. */
  lemma NowPending(P: Params, start: Rx, k: nat, b: nat, rx: Rx)
    requires Reaches(P, start, k, rx) && k == b + 2 + rx.count + rx.index
    requires rx.phase == FileData && rx.index < rx.count && Step(P, rx).Go?
    ensures rx.index < |Step(P, rx).rx.entries| && Pending(P, start, b, Step(P, rx).rx, rx.index)
  {
    hide Step, After, Received, Components, Child, IsTempName, Names, Filled;
    DataMoves(P, rx);
    var e, next := rx.entries[rx.index], Step(P, rx).rx;
    var data := Take(rx.input, e.size).value.0;
    SameNames(rx.entries, rx.index, Received(P, e.(temp := rx.tape[0]), data));
    FilledNow(P, start, k, b, rx, rx.tape[0], data);
  }

  /** The entries received before it still are, with other temporaries. */
  lemma EarlierPending(P: Params, start: Rx, b: nat, rx: Rx, i: nat)
    requires rx.phase == FileData && rx.index < rx.count == |rx.entries| && Step(P, rx).Go? && i < rx.index
    requires Pending(P, start, b, rx, i)
    ensures i < |Step(P, rx).rx.entries| && Pending(P, start, b, Step(P, rx).rx, i)
    ensures Step(P, rx).rx.entries[i].temp != Step(P, rx).rx.entries[rx.index].temp
  {
    hide Step, Received, Components, Names, Filled, Child, IsTempName;
    DataMoves(P, rx);
    var e, next := rx.entries[rx.index], Step(P, rx).rx;
    SameNames(rx.entries, rx.index, Received(P, e.(temp := rx.tape[0]), Take(rx.input, e.size).value.0));
    assert TempPath(rx, rx.entries[i]) in rx.fs && Child(Components(rx.dir), rx.tape[0]) !in rx.fs;
    StillPending(P, start, b, rx, next, i);
  }

  /** After one entry's data it is pending, with a name of its own, and so are the earlier ones. */
  lemma DataPending(P: Params, start: Rx, k: nat, b: nat, rx: Rx)
    requires Reaches(P, start, k, rx) && BatchFacts(P, start, k, b, rx)
    requires rx.phase == FileData && rx.index < rx.count == |rx.entries| && Step(P, rx).Go?
    ensures var next := Step(P, rx).rx;
      |next.entries| == |rx.entries| && AllPending(P, start, b, next, 0, rx.index + 1)
  {
    hide Step, Pending, After, AllAnnounced, Received;
    DataMoves(P, rx);
    NowPending(P, start, k, b, rx);
    var next := Step(P, rx).rx;
    forall j | 0 <= j < rx.index
      ensures Pending(P, start, b, next, j) && next.entries[j].temp != next.entries[rx.index].temp
    {
      assert Pending(P, start, b, rx, j);
      EarlierPending(P, start, b, rx, j);
    }
    DistinctMore(rx.entries, next.entries, rx.index);
  }

  lemma DistinctMore(entries: seq<Entry>, more: seq<Entry>, n: nat)
    requires |entries| == |more| && n < |more| && DistinctTemps(entries, 0, n)
    requires forall j :: 0 <= j < n ==> more[j] == entries[j] && more[j].temp != more[n].temp
    ensures DistinctTemps(more, 0, n + 1)
  {
  }

  lemma SameAnnounced(P: Params, start: Rx, b: nat, entries: seq<Entry>, i: nat, e: Entry)
    requires AllAnnounced(P, start, b, entries) && i < |entries|
    requires e.name == entries[i].name && e.size == entries[i].size
    ensures AllAnnounced(P, start, b, entries[i := e])
  {
    hide AnnouncedAt;
  }

  lemma DataMore(P: Params, start: Rx, k: nat, rx: Rx)
    requires Inv(P, start, k, rx) && rx.phase == FileData && rx.index < rx.count && Step(P, rx).Go?
    ensures SoundOutcome(P, start, k + 1, rx.mode, Step(P, rx))
  {
    hide AllAnnounced, AllPending, Components, Child, IsTempName, Sound, Step, After, Received;
    Onward(P, start, k, rx);
    DataMoves(P, rx);
    var b :| BatchFacts(P, start, k, b, rx);
    DataPending(P, start, k, b, rx);
    var next, at, e := Step(P, rx).rx, Child(Components(rx.dir), rx.tape[0]), rx.entries[rx.index];
    SameAnnounced(P, start, b, rx.entries, rx.index,
      Received(P, e.(temp := rx.tape[0]), Take(rx.input, e.size).value.0));
    assert BatchFacts(P, start, k + 1, b, next);
    TempKeepsSound(P, start, k + 1, rx.mode, rx.fs, at, next.fs[at]);
  }

  lemma DataOver(P: Params, start: Rx, k: nat, rx: Rx)
    requires Inv(P, start, k, rx) && rx.phase == FileData && rx.index >= rx.count
    ensures SoundOutcome(P, start, k + 1, rx.mode, Step(P, rx))
  {
    hide AllAnnounced, Pending, Received, Components, Child, IsTempName, Sound, Take, Mkstemp, After;
    Onward(P, start, k, rx);
    var b :| BatchFacts(P, start, k, b, rx);
    if Step(P, rx).Go? {
      var next := Step(P, rx).rx;
      forall j | 0 <= j < rx.count ensures Pending(P, start, b, next, j) {
        SamePending(P, start, b, rx, next, j);
      }
      assert BatchFacts(P, start, k + 1, b, next);
    }
  }

  /** Being pending is a matter of the batch and the destination, not of the position. */
  lemma SamePending(P: Params, start: Rx, b: nat, rx: Rx, next: Rx, i: nat)
    requires i < |rx.entries| && Pending(P, start, b, rx, i)
    requires next.entries == rx.entries && next.count == rx.count && next.dir == rx.dir && next.mode == rx.mode &&
      next.fs == rx.fs
    ensures Pending(P, start, b, next, i)
  {
    hide Filled, Names, Components, Child;
  }

  lemma DataStep(P: Params, start: Rx, k: nat, rx: Rx)
    requires Inv(P, start, k, rx) && rx.phase == FileData
    ensures SoundOutcome(P, start, k + 1, rx.mode, Step(P, rx))
  {
    if rx.index >= rx.count {
      DataOver(P, start, k, rx);
    } else if Step(P, rx).Go? {
      DataMore(P, start, k, rx);
    } else {
      hide Sound, Shape, BatchFacts, Received, Components, Child, IsTempName, Take, After;
      Onward(P, start, k, rx);
    }
  }

  lemma HashCountMoves(P: Params, rx: Rx)
    requires rx.phase == HashCount && Step(P, rx).Go?
    ensures Step(P, rx).rx == rx.(phase := FileHashes, index := 0, input := Step(P, rx).rx.input)
  {
    hide ReadLine, CStr, ScanSize, SkipSpaces, Ascii;
  }

  lemma HashCountStep(P: Params, start: Rx, k: nat, rx: Rx)
    requires Inv(P, start, k, rx) && rx.phase == HashCount
    ensures SoundOutcome(P, start, k + 1, rx.mode, Step(P, rx))
  {
    hide AllAnnounced, Pending, Sound, After, ReadLine, CStr, ScanSize, SkipSpaces, Ascii;
    Onward(P, start, k, rx);
    if Step(P, rx).Go? {
      HashCountMoves(P, rx);
      hide Step;
      var b :| BatchFacts(P, start, k, b, rx);
      var next := Step(P, rx).rx;
      forall j | 0 <= j < rx.count ensures Pending(P, start, b, next, j) {
        SamePending(P, start, b, rx, next, j);
      }
      assert BatchFacts(P, start, k + 1, b, next);
    }
  }

  /** A content that was announced, received in full and cross-checked counts as committed. */
  lemma CrossCheckCommits(P: Params, start: Rx, k: nat, b: nat, rx: Rx, c: seq<byte>)
    requires Reaches(P, start, k, rx) && BatchFacts(P, start, k, b, rx)
    requires rx.phase == FileHashes && rx.index < rx.count == |rx.entries|
    requires Filled(P, start, b, rx.count, rx.index, rx.entries[rx.index], c)
    requires Decode(rx.input).Some? && CrossChecked(rx.entries[rx.index], Decode(rx.input).value.0)
    ensures Committed(P, start, k + 1, FilePath(rx, rx.entries[rx.index].name), c)
  {
    hide Decode, FileDigest, ChunkHashes, After, Child, AnnouncedAt, DataAt;
    var p := FilePath(rx, rx.entries[rx.index].name);
    assert AnnouncedAt(P, start, b, rx.index, Leaf(p), |c|);
    assert ConfirmedAt(P, start, b, rx.count, rx.index, p, c);
    assert Witnessed(P, start, k + 1, p, c, b, rx.count, rx.index);
  }

  lemma CommitStep(P: Params, start: Rx, k: nat, b: nat, rx: Rx)
    requires Inv(P, start, k, rx) && BatchFacts(P, start, k, b, rx) && rx.phase == FileHashes && rx.index < rx.count
    requires Decode(rx.input).Some? && CrossChecked(rx.entries[rx.index], Decode(rx.input).value.0)
    ensures Sound(P, start, k + 1, rx.mode, Commit(P, rx, rx.entries[rx.index]).0)
  {
    hide Child, Components, Filled, CrossChecked, Decode, Committed, MadeFor, SafeAccepts, After, AllAnnounced, BatchAt;
    var e := rx.entries[rx.index];
    var fs := Commit(P, rx, e).0;
    var final, temp := FilePath(rx, e.name), TempPath(rx, e);
    assert Leaf(temp) == e.temp && Leaf(final) == e.name;
    assert Pending(P, start, b, rx, rx.index);
    SoundLater(P, start, k, rx.mode, rx.fs);
    forall p | !IsTemp(p) ensures Fate(P, start, k + 1, rx.mode, fs, p) {
      assert Fate(P, start, k + 1, rx.mode, rx.fs, p);
      if p == final && (final !in rx.fs || rx.mode == Force) {
        CrossCheckCommits(P, start, k, b, rx, rx.fs[temp].content);
      }
    }
  }

  /** What one commit changes: the destination, the position, the unread stream. */
  lemma HashMoves(P: Params, rx: Rx)
    requires rx.phase == FileHashes && rx.index < rx.count == |rx.entries| && Step(P, rx).Go?
    ensures Decode(rx.input).Some? && CrossChecked(rx.entries[rx.index], Decode(rx.input).value.0)
    ensures var next, e := Step(P, rx).rx, rx.entries[rx.index];
      next == rx.(index := rx.index + 1, fs := Commit(P, rx, e).0, input := next.input) && Commit(P, rx, e).1
  {
    hide Decode, Commit, CrossChecked;
  }

  /** A commit takes away its own temporary and no other path. */
  lemma CommitSpares(P: Params, rx: Rx, e: Entry, p: Path)
    requires p in rx.fs && p != TempPath(rx, e)
    ensures p in Commit(P, rx, e).0
    ensures p != FilePath(rx, e.name) ==> Commit(P, rx, e).0[p] == rx.fs[p]
  {
    hide SafeAccepts, Child, Components;
  }

  /** Committing one entry leaves another of the batch pending. */
  lemma OtherPending(P: Params, start: Rx, b: nat, rx: Rx, i: nat)
    requires rx.phase == FileHashes && rx.index < i < rx.count == |rx.entries| && Step(P, rx).Go?
    requires Pending(P, start, b, rx, rx.index) && Pending(P, start, b, rx, i)
    requires rx.entries[i].temp != rx.entries[rx.index].temp
    ensures i < |Step(P, rx).rx.entries| && Pending(P, start, b, Step(P, rx).rx, i)
  {
    hide Step, Commit, Decode, CrossChecked, Filled, Components, Child, IsTempName;
    HashMoves(P, rx);
    var e, f, next := rx.entries[rx.index], rx.entries[i], Step(P, rx).rx;
    assert Leaf(TempPath(rx, f)) == f.temp && Leaf(TempPath(rx, e)) == e.temp;
    assert Leaf(FilePath(rx, e.name)) == e.name && e.name in Names(rx.entries);
    assert Leaf(FilePath(rx, f.name)) == f.name && f.name in Names(rx.entries);
    CommitSpares(P, rx, e, TempPath(rx, f));
    if FilePath(rx, f.name) in rx.fs {
      CommitSpares(P, rx, e, FilePath(rx, f.name));
    }
    StillPending(P, start, b, rx, next, i);
  }

  lemma HashesPending(P: Params, start: Rx, b: nat, rx: Rx)
    requires rx.phase == FileHashes && rx.index < rx.count == |rx.entries| && Step(P, rx).Go?
    requires AllPending(P, start, b, rx, rx.index, rx.count)
    ensures var next := Step(P, rx).rx;
      next.entries == rx.entries && AllPending(P, start, b, next, rx.index + 1, rx.count)
  {
    hide Step, Pending, Commit, Decode, CrossChecked;
    HashMoves(P, rx);
    assert Pending(P, start, b, rx, rx.index);
    forall j | rx.index < j < rx.count ensures Pending(P, start, b, Step(P, rx).rx, j) {
      assert Pending(P, start, b, rx, j);
      OtherPending(P, start, b, rx, j);
    }
  }

  lemma HashesMore(P: Params, start: Rx, k: nat, rx: Rx)
    requires Inv(P, start, k, rx) && rx.phase == FileHashes && rx.index < rx.count && Step(P, rx).Go?
    ensures SoundOutcome(P, start, k + 1, rx.mode, Step(P, rx))
  {
    hide AllAnnounced, AllPending, Sound, Step, After, Commit, Decode, CrossChecked;
    Onward(P, start, k, rx);
    HashMoves(P, rx);
    var b :| BatchFacts(P, start, k, b, rx);
    CommitStep(P, start, k, b, rx);
    HashesPending(P, start, b, rx);
    assert BatchFacts(P, start, k + 1, b, Step(P, rx).rx);
  }

  /** The commit that fails, and the end of a batch. */
  lemma HashesStop(P: Params, start: Rx, k: nat, rx: Rx)
    requires Inv(P, start, k, rx) && rx.phase == FileHashes && (rx.index >= rx.count || !Step(P, rx).Go?)
    ensures SoundOutcome(P, start, k + 1, rx.mode, Step(P, rx))
  {
    hide Decode, AllPending, CrossChecked, Sound, Commit, After, AllAnnounced;
    Onward(P, start, k, rx);
    var b :| BatchFacts(P, start, k, b, rx);
    if rx.index < rx.count && Decode(rx.input).Some? && CrossChecked(rx.entries[rx.index], Decode(rx.input).value.0) {
      CommitStep(P, start, k, b, rx);
    }
  }

  /** One step from a state that satisfies the invariant. */
  lemma StepKeepsInv(P: Params, start: Rx, k: nat, rx: Rx)
    requires Inv(P, start, k, rx)
    ensures SoundOutcome(P, start, k + 1, rx.mode, Step(P, rx))
  {
    match rx.phase
    case Idle => IdleStep(P, start, k, rx);
    case FileCount => CountLine(P, start, k, rx);
    case Metadata => MetadataStep(P, start, k, rx);
    case FileData => DataStep(P, start, k, rx);
    case HashCount => HashCountStep(P, start, k, rx);
    case FileHashes =>
      if rx.index < rx.count && Step(P, rx).Go? { HashesMore(P, start, k, rx); } else { HashesStop(P, start, k, rx); }
    case Done =>
      hide Sound, Shape, BatchAt, After;
      Onward(P, start, k, rx);
    case _ => HeaderLine(P, start, k, rx);
  }

  // ---------------------------------------------------------------- whole runs

  /** The mode in force: the one of the second header line (nothing is touched before it). */
  function DeclaredMode(P: Params, start: Rx): Mode {
    match After(P, start, 2)
    case Go(rx) => rx.mode
    case _ => Append
  }

  /** The mode changes on the mode line only, which is the second line and never read again. */
  lemma ModeKept(P: Params, rx: Rx)
    requires Step(P, rx).Go?
    ensures rx.phase == Version ==> Step(P, rx).rx.phase == ModeLine
    ensures rx.phase != Version ==> !InHeader(Step(P, rx).rx.phase)
    ensures rx.phase != ModeLine ==> Step(P, rx).rx.mode == rx.mode
  {
    hide ReadLine, ScanInt32, ScanSize, SkipSpaces, CStr, ParseMode, Decode, Commit, MkdirP, Components, Received;
    hide Mkstemp;
  }

  /** Two steps into a run the mode is the declared one, for good. */
  lemma {:induction false} ModeAt(P: Params, start: Rx, k: nat)
    requires start.phase == Version && After(P, start, k).Go?
    ensures k == 0 ==> After(P, start, k).rx == start
    ensures k == 1 ==> After(P, start, k).rx.phase == ModeLine
    ensures k >= 2 ==> !InHeader(After(P, start, k).rx.phase) && After(P, start, k).rx.mode == DeclaredMode(P, start)
    decreases k
  {
    hide Step;
    if k > 0 {
      AfterNext(P, start, k - 1);
      ModeAt(P, start, k - 1);
      ModeKept(P, After(P, start, k - 1).rx);
    }
  }

  /** Nothing is touched, and nothing exits, before the mode is known. */
  lemma HeaderHarmless(P: Params, rx: Rx)
    requires InHeader(rx.phase) && !Step(P, rx).Go?
    ensures Step(P, rx) == Failed(rx.fs)
  {
  }

  /**
   * Atomic commit. At every moment of the run on any byte stream, every path that is not a temporary either is as it
   * was; or is a new directory that a line read by this run announced (or an ancestor of one); or holds a complete
   * content which one batch of this run announced, received in full and confirmed as one and the same entry, under
   * the name of the path and while its directory was in force. Files that existed change in force mode only.
   */
  lemma {:induction false} AtomicCommit(P: Params, before: FS, tape: seq<Name>, dir: seq<byte>, stream: seq<byte>,
      k: nat)
    ensures var start := Start(before, tape, dir, stream);
      SoundOutcome(P, start, k, DeclaredMode(P, start), After(P, start, k))
    decreases k
  {
    hide Inv, Step, Sound;
    var start := Start(before, tape, dir, stream);
    if k == 0 {
      BeginsSound(P, start);
      return;
    }
    AtomicCommit(P, before, tape, dir, stream, k - 1);
    AfterNext(P, start, k - 1);
    match After(P, start, k - 1)
    case Go(rx) =>
      StepKeepsInv(P, start, k - 1, rx);
      ModeAt(P, start, k - 1);
      if k - 1 < 2 && !Step(P, rx).Go? {
        HeaderHarmless(P, rx);
        HeaderUntouched(P, start, k - 1, rx);
        SoundAtStart(P, start, k, DeclaredMode(P, start));
      }
    case Failed(fs) => SoundLater(P, start, k - 1, DeclaredMode(P, start), fs);
    case Exited(rx, _) => SoundLater(P, start, k - 1, DeclaredMode(P, start), rx.fs);
  }

  lemma BeginsSound(P: Params, start: Rx)
    requires start.phase == Version
    ensures Inv(P, start, 0, start)
  {
    hide Sound;
    SoundAtStart(P, start, 0, start.mode);
  }

  lemma HeaderUntouched(P: Params, start: Rx, k: nat, rx: Rx)
    requires Inv(P, start, k, rx) && InHeader(rx.phase)
    ensures rx.fs == start.fs
  {
  }

  /** The same for the destination a run leaves behind, and nothing that existed is touched unless the mode is force. */
  lemma RunIsSound(P: Params, before: FS, tape: seq<Name>, dir: seq<byte>, stream: seq<byte>) returns (k: nat)
    ensures var start := Start(before, tape, dir, stream); var after := Destination(Run(P, start));
      && Run(P, start) == After(P, start, k)
      && (forall p :: !IsTemp(p) ==> Fate(P, start, k, DeclaredMode(P, start), after, p))
      && (DeclaredMode(P, start) != Force ==> forall p :: p in before && !IsTemp(p) ==>
        p in after && after[p] == before[p])
  {
    hide Inv, Step, Committed, MadeFor;
    var start := Start(before, tape, dir, stream);
    k := RunIsAfter(P, start);
    AtomicCommit(P, before, tape, dir, stream, k);
    assert Sound(P, start, k, DeclaredMode(P, start), Destination(Run(P, start)));
    assert forall p :: !IsTemp(p) ==> Fate(P, start, k, DeclaredMode(P, start), Destination(Run(P, start)), p);
  }

  /** In every reachable state the bounds of the handlers hold, and two of the declared states are never entered. */
  lemma ReachableShape(P: Params, before: FS, tape: seq<Name>, dir: seq<byte>, stream: seq<byte>, k: nat)
    requires After(P, Start(before, tape, dir, stream), k).Go?
    ensures Shape(After(P, Start(before, tape, dir, stream), k).rx)
  {
    hide Shape, Sound, BatchAt, After;
    AtomicCommit(P, before, tape, dir, stream, k);
  }

  /**
   * The two existence checks agree, on any stream and with any names in a batch: the temporary about to be committed
   * exists, and unless it is to be discarded for an existing file it holds, in full, the data that the data phase of
   * this batch took for this entry. One left empty in append mode belongs to a final path that existed then and has
   * not disappeared.
   */
  lemma RenamedWasFilled(P: Params, before: FS, tape: seq<Name>, dir: seq<byte>, stream: seq<byte>, k: nat)
    returns (b: nat)
    requires var o := After(P, Start(before, tape, dir, stream), k);
      o.Go? && o.rx.phase == FileHashes && o.rx.index < o.rx.count
    ensures var start := Start(before, tape, dir, stream); var rx := After(P, start, k).rx;
      rx.count == |rx.entries| && var e := rx.entries[rx.index];
      k == b + 4 + 2 * rx.count + rx.index && AnnouncedAt(P, start, b, rx.index, e.name, e.size) &&
      TempPath(rx, e) in rx.fs && rx.fs[TempPath(rx, e)].File? &&
      (FilePath(rx, e.name) !in rx.fs || rx.mode != Append ==>
        Filled(P, start, b, rx.count, rx.index, e, rx.fs[TempPath(rx, e)].content))
  {
    hide Sound, Filled, After, AnnouncedAt;
    var start := Start(before, tape, dir, stream);
    AtomicCommit(P, before, tape, dir, stream, k);
    var rx := After(P, start, k).rx;
    assert Inv(P, start, k, rx);
    b :| BatchFacts(P, start, k, b, rx);
    assert Pending(P, start, b, rx, rx.index);
  }

  // ---------------------------------------------------------------- moments and bytes

  lemma StepReads(P: Params, rx: Rx)
    requires Step(P, rx).Go?
    ensures IsSuffix(Step(P, rx).rx.input, rx.input)
  {
    hide ReadLine, CStr, ScanSize, ScanInt32, SkipSpaces, ParseMode, Decode, Commit, MkdirP, Components, Received;
    hide Mkstemp, Take;
    if rx.phase in {Metadata, FileHashes} && Decode(rx.input).Some? {
      DecodeSuffix(rx.input);
    }
    assert IsSuffix(rx.input, rx.input) by { SelfSuffix(rx.input); }
  }

  lemma SelfSuffix(s: seq<byte>)
    ensures IsSuffix(s, s)
  {
  }

  /** What a run has still to read at any moment is a tail of its stream: every record above is read from the stream. */
  lemma {:induction false} UnreadIsTail(P: Params, start: Rx, k: nat)
    requires After(P, start, k).Go?
    ensures IsSuffix(After(P, start, k).rx.input, start.input)
    decreases k
  {
    hide Step;
    if k == 0 {
      SelfSuffix(start.input);
    } else {
      StepReads(P, start);
      UnreadIsTail(P, Step(P, start).rx, k - 1);
      SuffixTransitive(After(P, start, k).rx.input, Step(P, start).rx.input, start.input);
    }
  }
}
