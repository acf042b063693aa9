/** The bytes on the wire, spelled out: one whole snapshot, and what the hash records of any file carry. */
module Wire {
  import opened Bytes
  import opened Digests
  import opened Codec
  import opened FileSystem
  import opened Protocol
  import opened Snapshot
  import opened Batching
  import opened Names
  import opened Trees
  import opened Transfer

  /**
   * What the hash record of a file carries: up to one chunk the hash of the content and no table; beyond, one hash per
   * slice of a chunk's length, in order, and as root the hash of these hashes in a row.
   */
  lemma HashRecordExactly(P: Params, f: FileSpec)
    ensures var r, n := HashRecord(P, f), |f.content|;
      && r.name == f.name && r.size == n
      && (n <= P.chunk ==> r.hash == P.H(f.content) && r.chunks == [])
      && (n > P.chunk ==> |r.chunks| == (n + P.chunk - 1) / P.chunk && r.hash == P.H(Concat(r.chunks)))
      && forall j :: 0 <= j < |r.chunks| ==>
        P.chunk * j < n && r.chunks[j] == P.H(f.content[P.chunk * j..Min(P.chunk * j + P.chunk, n)])
  {
    hide Chunks, Concat;
    var r := HashRecord(P, f);
    ChunkCount(f.content, P.chunk);
    forall j | 0 <= j < |r.chunks|
      ensures P.chunk * j < |f.content| &&
        r.chunks[j] == P.H(f.content[P.chunk * j..Min(P.chunk * j + P.chunk, |f.content|)])
    {
      ChunkAt(f.content, P.chunk, j);
    }
  }

  // ---------------------------------------------------------------- one snapshot

  /** 1024 files and 16 gigabytes a batch, 1024 levels. */
  const SHIPPED_LIMITS: WalkLimits := WalkLimits(Limits(1024, 0x4_0000_0000), 1024)

  /** Two files, "a" holding "hi" and "b" holding "!", in the directory "d/e". */
  function DeepTree(): Tree {
    Tree(map[], map[[100] := Tree(map[], map[[101] := Tree(map[[97] := [104, 105], [98] := [33]], map[])])])
  }

  function DeepFiles(): seq<FileSpec> { [FileSpec([97], [104, 105]), FileSpec([98], [33])] }

  function DeepPlan(): Plan { [Enter([[100], [101]]), Batch([[100], [101]], DeepFiles())] }

  lemma SortedOne(n: Name)
    ensures SortedNames({n}) == [n]
  {
    assert [n][0] in Elements([n]);
    assert Elements([n]) == {n};
    SortIsCanonical([n], {n});
  }

  lemma SortedTwo(a: Name, b: Name)
    requires a != b && AtMost(a, b)
    ensures SortedNames({a, b}) == [a, b]
  {
    assert [a, b][0] == a && [a, b][1] == b;
    assert Elements([a, b]) == {a, b} by {
      assert [a, b][0] in Elements([a, b]) && [a, b][1] in Elements([a, b]);
    }
    SortIsCanonical([a, b], {a, b});
  }

  /** A directory without files that holds one directory adds nothing of its own. */
  lemma OnlyChild(w: WalkLimits, n: Name, sub: Tree, rel: Path, depth: nat)
    requires Descends(w, depth)
    ensures WalkPlan(w, Tree(map[], map[n := sub]), rel, depth) == WalkPlan(w, sub, Child(rel, n), depth + 1)
  {
    var t := Tree(map[], map[n := sub]);
    SortedOne(n);
    assert t.subs.Keys == {n} && t.files.Keys == {};
    assert FilesOf(t) == [];
    var names := SortedNames(t.subs.Keys);
    assert names[1..] == [];
    assert SubPlans(w, t, names, rel, depth) == WalkPlan(w, sub, Child(rel, n), depth + 1) + [];
  }

  lemma DeepestFiles()
    ensures FilesOf(DeepTree().subs[[100]].subs[[101]]) == DeepFiles()
  {
    var t := DeepTree().subs[[100]].subs[[101]];
    SortedTwo([97], [98]);
    assert t.files.Keys == {[97], [98]};
  }

  lemma OneBatch()
    ensures Batches(SHIPPED_LIMITS.batch, DeepFiles()) == [DeepFiles()]
  {
    var lim, files := SHIPPED_LIMITS.batch, DeepFiles();
    assert BatchLength(lim, files) == 2;
    assert files[..2] == files && files[2..] == [];
  }

  lemma LeafWalk(w: WalkLimits, leaf: Tree, dir: Path, depth: nat)
    requires leaf.subs == map[] && FilesOf(leaf) != [] && Batches(w.batch, FilesOf(leaf)) == [FilesOf(leaf)]
    ensures WalkPlan(w, leaf, dir, depth) == [Enter(dir), Batch(dir, FilesOf(leaf))]
  {
    hide Batches, FilesOf;
    var files := FilesOf(leaf);
    assert [files][1..] == [];
    assert BatchCommands(dir, [files]) == [Batch(dir, files)];
    assert leaf.subs.Keys == {} && SortedNames({}) == [];
    assert SubPlans(w, leaf, [], dir, depth) == [];
  }

  /** No line for a directory without files of its own, and the files of one directory in one batch, by name. */
  lemma DeepWalk()
    ensures WalkPlan(SHIPPED_LIMITS, DeepTree(), [], 0) == DeepPlan()
  {
    hide Batches, FilesOf, WalkPlan, DeepFiles;
    var w, sub := SHIPPED_LIMITS, DeepTree().subs[[100]];
    OnlyChild(w, [100], sub, [], 0);
    OnlyChild(w, [101], sub.subs[[101]], [[100]], 1);
    assert Child([], [100]) == [[100]] && Child([[100]], [101]) == [[100], [101]];
    DeepestFiles();
    OneBatch();
    assert DeepFiles() != [] by { TwoFiles(); }
    LeafWalk(w, sub.subs[[101]], [[100], [101]], 2);
  }

  lemma TwoFiles()
    ensures |DeepFiles()| == 2
  {
  }

  // ---------------------------------------------------------------- its bytes

  function Line(s: string): seq<byte> { Ascii(s) + [10] }

  function ModeText(mode: Mode): string {
    match mode
    case Append => "MODE: append"
    case Safe => "MODE: safe"
    case Force => "MODE: force"
  }

  /** Length and name, size, digest, and no chunks. */
  function SmallRecord(name: byte, size: byte, digest: Digest): seq<byte> {
    [0, 1, name] + [0, 0, 0, 0, 0, 0, 0, size] + digest + [0, 0, 0, 0, 0, 0, 0, 0]
  }

  lemma AsciiAppend(a: string, b: string)
    ensures Ascii(a + b) == Ascii(a) + Ascii(b)
  {
  }

  lemma LineIs(a: string, d: byte, s: string)
    requires 48 <= d < 58 && s == a + " " + [d as char]
    ensures Ascii(a) + [32] + Dec(d as int - 48) == Ascii(s)
  {
  }

  lemma {:induction false} BigEndianSmall(n: nat, w: nat)
    requires n < 256 && w > 0
    ensures BigEndian(n, w) == BigEndian(0, w - 1) + [n]
  {
  }

  lemma BigEndianLiterals(n: byte)
    ensures BigEndian(1, 2) == [0, 1] && BigEndian(n, 8) == [0, 0, 0, 0, 0, 0, 0, n]
  {
    assert BigEndian(0, 0) == [];
    assert BigEndian(0, 1) == [0];
    assert BigEndian(0, 3) == [0, 0, 0];
    assert BigEndian(0, 5) == [0, 0, 0, 0, 0];
    assert BigEndian(0, 7) == [0, 0, 0, 0, 0, 0, 0];
  }

  lemma SmallRecordIs(name: byte, size: byte, digest: Digest)
    ensures Encode(Record([name], size, digest, [])) == SmallRecord(name, size, digest)
  {
    BigEndianLiterals(size);
    BigEndianLiterals(0);
    hide BigEndian;
    assert Concat([]) == [];
    assert [0, 1] + [name] == [0, 1, name];
  }

  lemma RecordsOfTwo(r: Record, s: Record)
    ensures EncodeAll([r, s]) == Encode(r) + Encode(s)
  {
    hide Encode;
    assert [r, s][1..] == [s] && [s][1..] == [];
    assert EncodeAll([s]) == Encode(s) + [];
  }

  /** The header, line by line. */
  lemma HeaderLines(mode: Mode)
    ensures Header(mode, 3, 2) ==
      Line("VERSION: 0") + Line(ModeText(mode)) + Line("STAT_BYTES: 3") + Line("STAT_FILES: 2")
  {
    hide Ascii, Dec;
    LineIs("STAT_BYTES:", 51, "STAT_BYTES: 3");
    LineIs("STAT_FILES:", 50, "STAT_FILES: 2");
    ModeLine(mode);
    HeaderInLines(Ascii("VERSION: 0"), Ascii("MODE: "), ModeWord(mode), Ascii("STAT_BYTES:") + [32] + Dec(3),
      Ascii("STAT_FILES:") + [32] + Dec(2));
    HeaderOut(Ascii("VERSION: 0"), Ascii("MODE: "), ModeWord(mode), Ascii("STAT_BYTES:"), Dec(3), Ascii("STAT_FILES:"),
      Dec(2));
  }

  lemma HeaderInLines(v: seq<byte>, m: seq<byte>, w: seq<byte>, b: seq<byte>, f: seq<byte>)
    ensures v + [10] + m + w + [10] + b + [10] + f + [10] == (v + [10]) + (m + w + [10]) + (b + [10]) + (f + [10])
  {
    var x := v + [10];
    assert x + m + w + [10] == x + (m + w + [10]);
    var y := x + m + w + [10];
    assert y + b + [10] == y + (b + [10]);
    var z := y + b + [10];
    assert z + f + [10] == z + (f + [10]);
  }

  lemma HeaderOut(v: seq<byte>, m: seq<byte>, w: seq<byte>, b: seq<byte>, x: seq<byte>, f: seq<byte>, y: seq<byte>)
    ensures v + [10] + m + w + [10] + b + [32] + x + [10] + f + [32] + y + [10] ==
      v + [10] + m + w + [10] + (b + [32] + x) + [10] + (f + [32] + y) + [10]
  {
    var h := v + [10] + m + w + [10];
    assert h + b + [32] + x == h + (b + [32] + x);
    var i := h + b + [32] + x + [10];
    assert i + f + [32] + y == i + (f + [32] + y);
  }

  lemma ModeLine(mode: Mode)
    ensures Ascii("MODE: ") + ModeWord(mode) == Ascii(ModeText(mode))
  {
    assert "MODE: " + "append" == "MODE: append" && "MODE: " + "safe" == "MODE: safe" &&
      "MODE: " + "force" == "MODE: force";
    AsciiAppend("MODE: ", "append");
    AsciiAppend("MODE: ", "safe");
    AsciiAppend("MODE: ", "force");
  }

  lemma DirectoryIs()
    ensures DirectoryLine([[100], [101]]) == Ascii("DIRECTORY: d/e")
  {
    assert Join([[100], [101]]) == [100] + [47] + [101] == Ascii("d/e");
    assert "DIRECTORY: " + "d/e" == "DIRECTORY: d/e";
    AsciiAppend("DIRECTORY: ", "d/e");
  }

  lemma CountsAre()
    ensures CountLine(2) == Ascii("FILES: 2") && HashCountLine(2) == Ascii("HASH FILES: 2")
  {
    LineIs("FILES:", 50, "FILES: 2");
    assert "HASH " + "FILES: 2" == "HASH FILES: 2";
    AsciiAppend("HASH ", "FILES: 2");
  }

  /** The batch: what is coming, the data, the hashes. */
  function DeepBatch(P: Params): seq<byte> {
    Line("FILE_LIST") + Line("FILES: 2") +
    SmallRecord(97, 2, ZERO_DIGEST) + SmallRecord(98, 1, ZERO_DIGEST) +
    [104, 105, 33] +
    Line("HASH FILES: 2") +
    SmallRecord(97, 2, P.H([104, 105])) + SmallRecord(98, 1, P.H([33]))
  }

  lemma DeepRecords(P: Params)
    requires P.chunk >= 2
    ensures EncodeAll(MetaRecords(DeepFiles())) == SmallRecord(97, 2, ZERO_DIGEST) + SmallRecord(98, 1, ZERO_DIGEST)
    ensures EncodeAll(HashRecords(P, DeepFiles())) ==
      SmallRecord(97, 2, P.H([104, 105])) + SmallRecord(98, 1, P.H([33]))
    ensures Contents(DeepFiles()) == [104, 105, 33]
  {
    hide Encode, EncodeAll, SmallRecord, Zeros;
    var a, b := DeepFiles()[0], DeepFiles()[1];
    assert MetaRecords(DeepFiles()) == [MetaRecord(a), MetaRecord(b)];
    assert HashRecords(P, DeepFiles()) == [HashRecord(P, a), HashRecord(P, b)];
    RecordsOfTwo(MetaRecord(a), MetaRecord(b));
    RecordsOfTwo(HashRecord(P, a), HashRecord(P, b));
    SmallRecordIs(97, 2, ZERO_DIGEST);
    SmallRecordIs(98, 1, ZERO_DIGEST);
    SmallRecordIs(97, 2, P.H([104, 105]));
    SmallRecordIs(98, 1, P.H([33]));
    assert DeepFiles()[1..] == [b] && [b][1..] == [];
    assert Contents([b]) == [33] + [];
  }

  lemma DeepBatchIs(P: Params)
    requires P.chunk >= 2
    ensures BatchBytes(P, DeepFiles()) == DeepBatch(P)
  {
    hide Ascii, SmallRecord, Encode, EncodeAll, MetaRecords, HashRecords, CountLine, HashCountLine, Contents, DeepFiles;
    DeepRecords(P);
    CountsAre();
    TwoFiles();
    BatchInLines(Ascii("FILE_LIST"), CountLine(2), SmallRecord(97, 2, ZERO_DIGEST), SmallRecord(98, 1, ZERO_DIGEST),
      [104, 105, 33], HashCountLine(2), SmallRecord(97, 2, P.H([104, 105])), SmallRecord(98, 1, P.H([33])));
  }

  lemma BatchInLines(l: seq<byte>, n: seq<byte>, r: seq<byte>, s: seq<byte>, c: seq<byte>, h: seq<byte>, x: seq<byte>,
      y: seq<byte>)
    ensures l + [10] + n + [10] + (r + s) + c + h + [10] + (x + y) ==
      (l + [10]) + (n + [10]) + r + s + c + (h + [10]) + x + y
  {
    var i := l + [10];
    assert i + n + [10] == i + (n + [10]);
    var j := i + n + [10];
    assert j + (r + s) == j + r + s;
    var k := j + r + s + c;
    assert k + h + [10] == k + (h + [10]);
    var m := k + h + [10];
    assert m + (x + y) == m + x + y;
  }

  /**
   * The sender's stream for this snapshot, byte for byte: header, directory line, batch, trailer. (A chunk holds at
   * least the two bytes of the larger file.)
   */
  lemma DeepStream(P: Params, mode: Mode)
    requires P.chunk >= 2
    ensures SenderStream(P, SHIPPED_LIMITS, mode, DeepTree()) ==
      Line("VERSION: 0") + Line(ModeText(mode)) + Line("STAT_BYTES: 3") + Line("STAT_FILES: 2") +
      Line("DIRECTORY: d/e") + DeepBatch(P) + Line("END")
  {
    hide Ascii, WalkPlan, Header, DeepBatch, BatchBytes, DirectoryLine, TreeBytes, TreeCount, DeepFiles;
    DeepWalk();
    WalkTotals(SHIPPED_LIMITS, DeepTree(), [], 0);
    DeepTotals();
    HeaderLines(mode);
    DirectoryIs();
    DeepBatchIs(P);
    var plan := DeepPlan();
    assert plan[1..][1..] == [];
    assert PlanBytes(P, plan[1..]) == BatchBytes(P, DeepFiles()) + [];
    var head, dir, batch, end := Header(mode, 3, 2), Line("DIRECTORY: d/e"), DeepBatch(P), Line("END");
    assert PlanBytes(P, plan) == dir + batch;
    assert head + ((dir + batch) + end) == head + dir + batch + end;
  }

  lemma DeepTotals()
    ensures PlanFileCount(DeepPlan()) == 2 && PlanBytesIn(DeepPlan()) == 3
  {
    var plan, files := DeepPlan(), DeepFiles();
    assert plan[1..][1..] == [] && files[1..][1..] == [];
    assert BytesIn(files[1..]) == 1 && BytesIn(files) == 3;
    assert PlanFileCount(plan[1..]) == 2 && PlanBytesIn(plan[1..]) == 3;
  }
}
