/** The walker: directories read in any order, sorted, sent depth first; and the sender's main run. */
module Walking {
  import opened Bytes
  import opened FileSystem
  import opened Protocol
  import opened Snapshot
  import opened Names
  import opened Trees
  import opened Transfer
  import opened BufWriting
  import opened Sending

  const SIZE_BUCKETS: nat := 16

  // ---------------------------------------------------------------- dry-run statistics

  function BucketLimit(i: nat): nat
    requires i < SIZE_BUCKETS - 1
  {
    if i == 14 then 100 * 0x4000_0000 else 1024 * Pow(4, i)
  }

  /** One kilobyte, four times as much from bucket to bucket up to 64 gigabytes, and 100 gigabytes. */
  lemma BucketTable()
    ensures seq(SIZE_BUCKETS - 1, i requires 0 <= i < SIZE_BUCKETS - 1 => BucketLimit(i)) ==
      [0x400, 0x1000, 0x4000, 0x1_0000, 0x4_0000, 0x10_0000, 0x40_0000, 0x100_0000, 0x400_0000, 0x1000_0000,
       0x4000_0000, 0x1_0000_0000, 0x4_0000_0000, 0x10_0000_0000, 0x19_0000_0000]
  {
    var two, four, six := Pow(4, 2), Pow(4, 4), Pow(4, 6);
    assert two == 16 && four == 256 && six == 4096;
    assert Pow(4, 8) == 0x1_0000 && Pow(4, 10) == 0x10_0000 && Pow(4, 12) == 0x100_0000;
    assert Pow(4, 3) == 64 && Pow(4, 5) == 1024 && Pow(4, 7) == 0x4000;
    assert Pow(4, 9) == 0x4_0000 && Pow(4, 11) == 0x40_0000 && Pow(4, 13) == 0x400_0000;
  }

  /** The first bucket whose limit holds the size; the last bucket has none. */
  ghost predicate IsBucketOf(b: nat, size: nat) {
    b < SIZE_BUCKETS && (b < SIZE_BUCKETS - 1 ==> size <= BucketLimit(b)) && forall j :: 0 <= j < b ==>
      size > BucketLimit(j)
  }

  method SizeToBucket(size: nat) returns (b: nat)
    ensures IsBucketOf(b, size)
  {
    for i := 0 to SIZE_BUCKETS - 1
      invariant forall j :: 0 <= j < i ==> size > BucketLimit(j)
    {
      if size <= BucketLimit(i) { return i; }
    }
    return SIZE_BUCKETS - 1;
  }

  function Sum(s: seq<nat>): nat {
    if s == [] then 0 else s[0] + Sum(s[1..])
  }

  lemma {:induction false} SumIncrement(s: seq<nat>, i: nat)
    requires i < |s|
    ensures Sum(s[i := s[i] + 1]) == Sum(s) + 1
  {
    if i > 0 {
      assert s[i := s[i] + 1][1..] == s[1..][i - 1 := s[1..][i - 1] + 1];
      SumIncrement(s[1..], i - 1);
    } else {
      assert s[0 := s[0] + 1][1..] == s[1..];
    }
  }

  lemma {:induction false} SumZero(s: seq<nat>)
    requires forall i :: 0 <= i < |s| ==> s[i] == 0
    ensures Sum(s) == 0
  {
    if s != [] { SumZero(s[1..]); }
  }

  class DryRun {
    var dirCount: nat
    var fileCount: nat
    var fileTotalSize: nat
    var buckets: array<nat>

    /** Every file counted is in exactly one bucket. */
    ghost predicate Valid() reads this, buckets {
      buckets.Length == SIZE_BUCKETS && Sum(buckets[..]) == fileCount
    }

    constructor ()
      ensures Valid() && fresh(buckets) && fileCount == 0 && fileTotalSize == 0 && dirCount == 0
    {
      dirCount, fileCount, fileTotalSize := 0, 0, 0;
      buckets := new nat[SIZE_BUCKETS](_ => 0);
      new;
      SumZero(buckets[..]);
    }

    method AddFile(size: nat)
      requires Valid()
      modifies this`fileCount, this`fileTotalSize, buckets
      ensures Valid() && fileCount == old(fileCount) + 1 && fileTotalSize == old(fileTotalSize) + size
      ensures exists b: nat :: IsBucketOf(b, size) && buckets[..] == old(buckets[..])[b := old(buckets[..])[b] + 1]
    {
      fileCount, fileTotalSize := fileCount + 1, fileTotalSize + size;
      var b := SizeToBucket(size);
      SumIncrement(buckets[..], b);
      ghost var before := buckets[..];
      buckets[b] := buckets[b] + 1;
      assert buckets[..] == before[b := before[b] + 1];
    }

    method AddDir()
      modifies this`dirCount
      ensures dirCount == old(dirCount) + 1
    {
      dirCount := dirCount + 1;
    }
  }

  /** The directories below one that the walk enters. */
  ghost function TreeDirs(w: WalkLimits, t: Tree, depth: nat): nat
    decreases t, 1, 0
  {
    if Descends(w, depth) then |t.subs| + SubsDirs(w, t, t.subs.Keys, depth) else 0
  }

  ghost function SubsDirs(w: WalkLimits, t: Tree, s: set<Name>, depth: nat): nat
    requires s <= t.subs.Keys
    decreases t, 0, |s|
  {
    if s == {} then 0
    else
      assert exists m :: IsLeast(m, s) by { var m := LeastExists(s); }
      var m :| IsLeast(m, s);
      TreeDirs(w, t.subs[m], depth + 1) + SubsDirs(w, t, s - {m}, depth)
  }

  lemma NextDirs(w: WalkLimits, t: Tree, left: set<Name>, depth: nat)
    requires left <= t.subs.Keys && SortedNames(left) != []
    ensures var n := SortedNames(left)[0];
      n in left && SubsDirs(w, t, left, depth) == TreeDirs(w, t.subs[n], depth + 1) + SubsDirs(w, t, left - {n}, depth)
  {
    hide TreeDirs;
    LeastIsUnique(left);
  }

  lemma DirsOf(w: WalkLimits, t: Tree, depth: nat)
    ensures var all := if Descends(w, depth) then t.subs.Keys else {};
      TreeDirs(w, t, depth) == (if Descends(w, depth) then |t.subs| else 0) + SubsDirs(w, t, all, depth)
  {
  }

  /** A dry walk counts the directories it enters, a real walk none. */
  ghost predicate DirsCounted(running: bool, before: nat, after: nat, dirs: nat, ok: bool) {
    if running then after == before else ok ==> after == before + dirs
  }

  // ---------------------------------------------------------------- sorting

  /** Put a name into a sorted list. */
  method Insert(sorted: seq<Name>, n: Name) returns (r: seq<Name>)
    requires Sorted(sorted) && NoRepeats(sorted) && n !in sorted
    ensures Sorted(r) && NoRepeats(r) && forall x :: x in r <==> x in sorted || x == n
  {
    hide AtMost;
    var k := 0;
    while k < |sorted| && AtMost(sorted[k], n)
      invariant k <= |sorted| && forall i :: 0 <= i < k ==> AtMost(sorted[i], n)
    {
      k := k + 1;
    }
    AfterInsert(sorted, n, k);
    r := sorted[..k] + [n] + sorted[k..];
  }

  lemma AfterInsert(sorted: seq<Name>, n: Name, k: nat)
    requires Sorted(sorted) && NoRepeats(sorted) && n !in sorted && k <= |sorted|
    requires forall i :: 0 <= i < k ==> AtMost(sorted[i], n)
    requires k < |sorted| ==> !AtMost(sorted[k], n)
    ensures var r := sorted[..k] + [n] + sorted[k..];
      Sorted(r) && NoRepeats(r) && forall x :: x in r <==> x in sorted || x == n
  {
    hide AtMost;
    var r := sorted[..k] + [n] + sorted[k..];
    assert sorted == sorted[..k] + sorted[k..];
    forall i | k <= i < |sorted| ensures AtMost(n, sorted[i]) {
      AtMostTotal(sorted[k], n);
      if i > k { AtMostTransitive(n, sorted[k], sorted[i]); }
    }
    assert forall x :: x in r <==> x in sorted || x == n;
    hide Sorted, NoRepeats;
    forall i, j | 0 <= i < j < |r| ensures AtMost(r[i], r[j]) && r[i] != r[j] {
      ShiftedPair(sorted, n, k, i, j);
    }
    SortedByPairs(r);
  }

  lemma ShiftedPair(sorted: seq<Name>, n: Name, k: nat, i: nat, j: nat)
    requires Sorted(sorted) && NoRepeats(sorted) && n !in sorted && k <= |sorted| && i < j <= |sorted|
    requires forall i :: 0 <= i < k ==> AtMost(sorted[i], n)
    requires forall i :: k <= i < |sorted| ==> AtMost(n, sorted[i])
    ensures var r := sorted[..k] + [n] + sorted[k..]; AtMost(r[i], r[j]) && r[i] != r[j]
  {
    hide AtMost;
  }

  lemma SortedByPairs(r: seq<Name>)
    requires forall i, j :: 0 <= i < j < |r| ==> AtMost(r[i], r[j]) && r[i] != r[j]
    ensures Sorted(r) && NoRepeats(r)
  {
  }

  /** Stands for qsort with strcmp: the names in sorted order, whatever order they come in. */
  method SortNames(names: seq<Name>) returns (r: seq<Name>)
    requires NoRepeats(names)
    ensures r == SortedNames(Elements(names))
  {
    r := [];
    for i := 0 to |names|
      invariant Sorted(r) && NoRepeats(r) && forall x :: x in r <==> x in names[..i]
    {
      assert names[i] !in names[..i];
      assert names[..i + 1] == names[..i] + [names[i]];
      r := Insert(r, names[i]);
    }
    assert names[..|names|] == names;
    MembersAreElements(r);
    MembersAreElements(names);
    assert Elements(r) == Elements(names);
    SortIsCanonical(r, Elements(names));
  }

  lemma MembersAreElements(names: seq<Name>)
    ensures forall x :: x in Elements(names) <==> x in names
  {
  }

  // ---------------------------------------------------------------- progress

  /** What the walk has done: bytes pushed and taken by the descriptor, totals sent, totals counted by the dry run. */
  datatype Progress = Progress(pushed: seq<byte>, sent: seq<byte>, broken: bool, files: nat, bytes: nat,
    counted: nat, sized: nat)

  /**
   * From `a` to `b` by a walk that was to push `data` for so many files and bytes. A real walk leaves a prefix of
   * the data on the wire and never totals more than the tree holds, and leaves nothing in the buffer if it found
   * nothing there; a dry walk only counts.
   */
  ghost predicate Goes(running: bool, a: Progress, b: Progress, data: seq<byte>, files: nat, bytes: nat, ok: bool) {
    if running then
      b.counted == a.counted && b.sized == a.sized &&
      b.sent <= a.pushed + data && (a.broken ==> b.broken && b.sent == a.sent) &&
      b.files <= a.files + files && b.bytes <= a.bytes + bytes &&
      (ok ==>
        b.pushed == a.pushed + data && b.broken == a.broken && b.files == a.files + files &&
        b.bytes == a.bytes + bytes &&
        (a.sent == a.pushed ==> b.sent == b.pushed))
    else
      b == a.(counted := b.counted, sized := b.sized) &&
      (ok ==> b.counted == a.counted + files && b.sized == a.sized + bytes)
  }

  lemma NotBegun(running: bool, a: Progress, data: seq<byte>, files: nat, bytes: nat)
    requires a.sent <= a.pushed
    ensures Goes(running, a, a, data, files, bytes, false)
  {
  }

  lemma OnlyCounted(a: Progress, b: Progress, data: seq<byte>, files: nat, bytes: nat)
    requires b == a.(counted := a.counted + files, sized := a.sized + bytes)
    ensures Goes(false, a, b, data, files, bytes, true)
  {
  }

  lemma GoesOn(running: bool, a: Progress, b: Progress, c: Progress, x: seq<byte>, y: seq<byte>, f: nat, g: nat,
      m: nat, n: nat, ok: bool)
    requires Goes(running, a, b, x, f, m, true) && Goes(running, b, c, y, g, n, ok)
    ensures Goes(running, a, c, x + y, f + g, m + n, ok)
  {
    assert a.pushed + x + y == a.pushed + (x + y);
  }

  lemma GoesNoFurther(running: bool, a: Progress, b: Progress, x: seq<byte>, y: seq<byte>, f: nat, g: nat, m: nat,
      n: nat)
    requires Goes(running, a, b, x, f, m, false)
    ensures Goes(running, a, b, x + y, f + g, m + n, false)
  {
    if running { Longer(b.sent, a.pushed, x, y); }
  }

  // ---------------------------------------------------------------- paths

  /** The absolute path of a directory below the root. */
  function FullOf(root: seq<byte>, rel: Path): seq<byte> {
    if rel == [] then root else Slashed(FullOf(root, Parent(rel))) + Leaf(rel)
  }

  lemma FullEndsInName(root: seq<byte>, rel: Path)
    requires AreComponents(rel) && rel != []
    ensures Slashed(FullOf(root, rel)) == FullOf(root, rel) + [SLASH]
  {
    assert IsComponent(Leaf(rel));
  }

  lemma {:induction false} JoinIsShorter(root: seq<byte>, rel: Path)
    requires AreComponents(rel)
    ensures |Join(rel)| <= |FullOf(root, rel)|
  {
    if |rel| > 1 {
      JoinIsShorter(root, Parent(rel));
      FullEndsInName(root, Parent(rel));
    }
  }

  /**
   * If the absolute path of a subdirectory fits its buffer, so does the relative one, and each is the path of the
   * child: the error return between the two updates, which would leave the absolute path moved on, is never taken.
   */
  lemma RelativeFits(root: seq<byte>, rel: Path, n: Name, size: nat)
    requires AreComponents(rel) && IsComponent(n) && PathJoin(FullOf(root, rel), n, size).Some?
    ensures PathJoin(FullOf(root, rel), n, size).value == FullOf(root, Child(rel, n))
    ensures rel == [] ==> Join(Child(rel, n)) == n
    ensures rel != [] ==> PathJoin(Join(rel), n, size) == Some(Join(Child(rel, n))) && Join(rel) != []
  {
    if rel != [] {
      JoinIsShorter(root, rel);
      FullEndsInName(root, rel);
      JoinEndsInName(rel);
      JoinChild(rel, n, size);
    }
  }

  /** Below a root that does not end in a slash (realpath leaves one only at "/") it is the root, a slash, the names. */
  lemma {:induction false} FullIsJoined(root: seq<byte>, rel: Path)
    requires root != [] && root[|root| - 1] != SLASH && AreComponents(rel) && rel != []
    ensures FullOf(root, rel) == root + [SLASH] + Join(rel)
  {
    if |rel| > 1 {
      FullIsJoined(root, Parent(rel));
      FullEndsInName(root, Parent(rel));
      ThreePieces(root + [SLASH], Join(Parent(rel)), [SLASH], Leaf(rel));
    } else {
      FullOfRoot(root);
      assert Parent(rel) == [];
    }
  }

  /** Every file and directory the walk reaches below `rel` has an absolute path that fits the path buffers. */
  ghost predicate PathsFit(w: WalkLimits, root: seq<byte>, t: Tree, rel: Path)
    decreases t
  {
    (rel == [] || |FullOf(root, rel)| < PATH_MAX) &&
    (forall n :: n in t.files ==> |FullOf(root, Child(rel, n))| < PATH_MAX) &&
    (Descends(w, |rel|) ==> forall n :: n in t.subs ==> PathsFit(w, root, t.subs[n], Child(rel, n)))
  }

  /** Then the paths that the directory's callback builds fit as well. */
  lemma EntriesFit(w: WalkLimits, root: seq<byte>, t: Tree, rel: Path)
    requires PathsFit(w, root, t, rel) && AreComponents(rel)
    ensures FilesFit(FullOf(root, rel), FilesOf(t)) && |Join(rel)| < PATH_MAX
  {
    JoinIsShorter(root, rel);
    SortedNamesMembers(t.files.Keys);
    var files := FilesOf(t);
    forall i | 0 <= i < |files| ensures |Slashed(FullOf(root, rel))| + |files[i].name| < PATH_MAX {
      assert |FullOf(root, Child(rel, files[i].name))| < PATH_MAX;
    }
  }

  /** The converse: where the files' paths and those of all subdirectories entered fit, all fit. */
  lemma AllFit(w: WalkLimits, root: seq<byte>, t: Tree, rel: Path)
    requires rel == [] || |FullOf(root, rel)| < PATH_MAX
    requires FilesFit(FullOf(root, rel), FilesOf(t))
    requires Descends(w, |rel|) ==> forall n :: n in t.subs ==> PathsFit(w, root, t.subs[n], Child(rel, n))
    ensures PathsFit(w, root, t, rel)
  {
    SortedNamesMembers(t.files.Keys);
    var files := FilesOf(t);
    forall n | n in t.files ensures |FullOf(root, Child(rel, n))| < PATH_MAX {
      assert n in SortedNames(t.files.Keys);
      var i :| 0 <= i < |files| && files[i].name == n;
    }
  }

  lemma SubFits(w: WalkLimits, root: seq<byte>, t: Tree, rel: Path, n: Name)
    requires PathsFit(w, root, t, rel) && Descends(w, |rel|) && n in t.subs
    ensures PathsFit(w, root, t.subs[n], Child(rel, n))
  {
  }

  /** A subdirectory whose absolute path fits is entered. */
  lemma JoinFits(root: seq<byte>, rel: Path, n: Name)
    requires |FullOf(root, Child(rel, n))| < PATH_MAX
    ensures PathJoin(FullOf(root, rel), n, PATH_MAX).Some?
  {
  }

  /** Nothing but a failure of the file system or of the descriptor keeps the tree from being sent. */
  ghost predicate CanBeSent(w: WalkLimits, root: seq<byte>, t: Tree) {
    PathsFit(w, root, t, []) && TreeBytes(w, t, 0) < U64_LIMIT && TreeCount(w, t, 0) < U64_LIMIT
  }

  /** Names as a file system has them: without slash, not empty, and each either a file or a directory. */
  ghost predicate PlainTree(t: Tree)
    decreases t
  {
    t.files.Keys !! t.subs.Keys && forall n :: n in t.subs ==> IsComponent(n) && PlainTree(t.subs[n])
  }

  /** A listing of a set of names: each once, in any order. */
  ghost predicate Lists(names: seq<Name>, s: set<Name>) { NoRepeats(names) && Elements(names) == s }

  lemma ListsOne(names: seq<Name>, s: set<Name>, n: Name)
    requires Lists(names, s) && n !in s
    ensures Lists(names + [n], s + {n})
  {
    MembersAreElements(names);
    MembersAreElements(names + [n]);
    assert Elements(names + [n]) == s + {n};
  }

  lemma CountOne(files: map<Name, seq<byte>>, s: set<Name>, n: Name)
    requires s <= files.Keys && n in files && n !in s
    ensures SizeSum(files, s + {n}) == |files[n]| + SizeSum(files, s) && |s + {n}| == |s| + 1
  {
    SizeSumAny(files, s + {n}, n);
    assert s + {n} - {n} == s;
  }

  function AllNames(t: Tree): set<Name> { t.files.Keys + t.subs.Keys }

  /** The files of a directory met when the names `left` are still to come. */
  function Met(t: Tree, left: set<Name>): (s: set<Name>)
    ensures s <= t.files.Keys
  {
    t.files.Keys - left
  }

  /** The subdirectories met, as far as they are to be entered. */
  function MetSubs(t: Tree, deep: bool, left: set<Name>): set<Name> { if deep then t.subs.Keys - left else {} }

  /** What a scan has listed when the names `left` are still to come. */
  ghost predicate Scanned(t: Tree, deep: bool, left: set<Name>, files: seq<Name>, subs: seq<Name>) {
    left <= AllNames(t) && Lists(files, Met(t, left)) && Lists(subs, MetSubs(t, deep, left))
  }

  lemma NothingScanned(t: Tree, deep: bool)
    ensures Scanned(t, deep, AllNames(t), [], []) && Met(t, AllNames(t)) == {} && SizeSum(t.files, {}) == 0
    ensures MetSubs(t, deep, AllNames(t)) == {}
  {
    assert t.subs.Keys - AllNames(t) == {};
  }

  lemma AllScanned(t: Tree, deep: bool, files: seq<Name>, subs: seq<Name>)
    requires Scanned(t, deep, {}, files, subs)
    ensures Lists(files, t.files.Keys) && Met(t, {}) == t.files.Keys
    ensures Lists(subs, MetSubs(t, deep, {})) && MetSubs(t, deep, {}) == if deep then t.subs.Keys else {}
  {
    hide Lists;
    assert t.subs.Keys - {} == t.subs.Keys;
    assert Met(t, {}) == t.files.Keys;
  }

  /** Taking a name off what is left adds it to what is met, if it is of that kind. */
  lemma TakeOff(keys: set<Name>, left: set<Name>, n: Name)
    requires n in left
    ensures keys - (left - {n}) == if n in keys then keys - left + {n} else keys - left
  {
  }

  lemma FileScanned(files: map<Name, seq<byte>>, left: set<Name>, listed: seq<Name>, n: Name)
    requires n in left && n in files && Lists(listed, files.Keys - left)
    ensures Lists(listed + [n], files.Keys - (left - {n}))
    ensures |files.Keys - (left - {n})| == |files.Keys - left| + 1
    ensures SizeSum(files, files.Keys - (left - {n})) == SizeSum(files, files.Keys - left) + |files[n]|
  {
    hide Lists, SizeSum;
    TakeOff(files.Keys, left, n);
    CountOne(files, files.Keys - left, n);
    ListsOne(listed, files.Keys - left, n);
  }

  lemma ScanStep(t: Tree, deep: bool, left: set<Name>, files: seq<Name>, subs: seq<Name>, n: Name)
    requires Scanned(t, deep, left, files, subs) && n in left && t.files.Keys !! t.subs.Keys
    ensures n in AllNames(t)
    ensures Scanned(t, deep, left - {n}, if n in t.files then files + [n] else files,
      if n in t.subs && deep then subs + [n] else subs)
    ensures |Met(t, left - {n})| == |Met(t, left)| + (if n in t.files then 1 else 0)
    ensures SizeSum(t.files, Met(t, left - {n})) == SizeSum(t.files, Met(t, left)) +
      (if n in t.files then |t.files[n]| else 0)
    ensures |MetSubs(t, deep, left - {n})| == |MetSubs(t, deep, left)| + (if n in t.subs && deep then 1 else 0)
  {
    hide Lists, SizeSum;
    if n in t.files.Keys {
      FileScanned(t.files, left, files, n);
    } else {
      TakeOff(t.files.Keys, left, n);
    }
    TakeOff(t.subs.Keys, left, n);
    if deep && n in t.subs.Keys {
      ListsOne(subs, t.subs.Keys - left, n);
    }
  }

  lemma NoNames()
    ensures SortedNames({}) == []
  {
  }

  /** The bytes meant so far are a front of the stream; unless the descriptor has failed they have all been pushed. */
  ghost predicate OnTrack(a: Progress, meant: seq<byte>, stream: seq<byte>) {
    meant <= stream && a.sent <= stream && (!a.broken ==> a.pushed == meant)
  }

  function VersionHead(): seq<byte> { Ascii("VERSION: 0") + [LF] }

  function ModeHead(mode: Mode): seq<byte> { Ascii("MODE: ") + ModeWord(mode) + [LF] }

  function StatBytesHead(n: nat): seq<byte> { Ascii("STAT_BYTES:") + [32] + Dec(n) + [LF] }

  function StatFilesHead(n: nat): seq<byte> { Ascii("STAT_FILES:") + [32] + Dec(n) + [LF] }

  lemma LineNotEmpty(n: nat)
    ensures StatFilesHead(n) != []
  {
  }

  /** A 64-bit total fits its line buffer. */
  lemma StatHeadsShort(bytes: nat, files: nat)
    ensures bytes < U64_LIMIT ==> |StatBytesHead(bytes)| <= 33
    ensures files < U64_LIMIT ==> |StatFilesHead(files)| <= 33
  {
    if bytes < U64_LIMIT { DecLength64(bytes); }
    if files < U64_LIMIT { DecLength64(files); }
  }

  /** The stream piece by piece, in the order it is pushed. */
  lemma StreamParts(P: Params, w: WalkLimits, mode: Mode, t: Tree)
    ensures SenderStream(P, w, mode, t) ==
      VersionHead() + ModeHead(mode) + StatBytesHead(TreeBytes(w, t, 0)) + StatFilesHead(TreeCount(w, t, 0)) +
      PlanBytes(P, WalkPlan(w, t, [], 0)) + TRAILER
  {
    hide PlanBytes, WalkPlan, TreeBytes, TreeCount, Ascii, Dec, ModeWord;
    var b, n := StatBytesHead(TreeBytes(w, t, 0)), StatFilesHead(TreeCount(w, t, 0));
    assert Header(mode, TreeBytes(w, t, 0), TreeCount(w, t, 0)) == VersionHead() + ModeHead(mode) + b + n;
  }

  /** Going on with the bytes that come next keeps on track. */
  lemma StaysOnTrack(a: Progress, b: Progress, meant: seq<byte>, data: seq<byte>, stream: seq<byte>, files: nat,
      bytes: nat, ok: bool)
    requires OnTrack(a, meant, stream) && meant + data <= stream && Goes(true, a, b, data, files, bytes, ok)
    ensures b.sent <= stream && (ok ==> OnTrack(b, meant + data, stream))
  {
  }

  lemma FullOfRoot(root: seq<byte>)
    ensures FullOf(root, []) == root && Join([]) == []
  {
  }

  lemma StandsStill(running: bool, a: Progress)
    requires a.sent <= a.pushed
    ensures Goes(running, a, a, [], 0, 0, true)
  {
  }

  /** The bytes of one subdirectory. */
  ghost function SubWalk(P: Params, w: WalkLimits, t: Tree, rel: Path, n: Name): seq<byte>
    requires n in t.subs
  {
    PlanBytes(P, WalkPlan(w, t.subs[n], Child(rel, n), |rel| + 1))
  }

  /** The subdirectory that comes first, and those after it. */
  lemma NextSub(P: Params, w: WalkLimits, t: Tree, left: set<Name>, rel: Path)
    requires left <= t.subs.Keys && SortedNames(left) != []
    ensures var names := SortedNames(left); var n := names[0];
      n in left && names[1..] == SortedNames(left - {n}) && (forall x :: x in names ==> x in t.subs) &&
      PlanBytes(P, SubPlans(w, t, names, rel, |rel|)) == SubWalk(P, w, t, rel, n) +
        PlanBytes(P, SubPlans(w, t, names[1..], rel, |rel|)) &&
      SubsCount(w, t, left, |rel|) == TreeCount(w, t.subs[n], |rel| + 1) + SubsCount(w, t, left - {n}, |rel|) &&
      SubsBytes(w, t, left, |rel|) == TreeBytes(w, t.subs[n], |rel| + 1) + SubsBytes(w, t, left - {n}, |rel|)
  {
    hide WalkPlan, TreeCount, TreeBytes, PlanBytes;
    SortedNamesMembers(left);
    var names := SortedNames(left);
    var n := names[0];
    LeastIsUnique(left);
    assert IsLeast(n, left) && names[1..] == SortedNames(left - {n});
    PlanBytesAppend(P, WalkPlan(w, t.subs[n], Child(rel, n), |rel| + 1), SubPlans(w, t, names[1..], rel, |rel|));
  }

  /** After the first `i` subdirectories: what they sent and counted, and what is left for the names `left`. */
  ghost predicate SubsSoFar(P: Params, w: WalkLimits, t: Tree, rel: Path, names: seq<Name>, all: set<Name>, i: nat,
      left: set<Name>, sent: seq<byte>, files: nat, bytes: nat)
    requires all <= t.subs.Keys && forall n :: n in names ==> n in t.subs
  {
    i <= |names| && left <= all && names[i..] == SortedNames(left) &&
    PlanBytes(P, SubPlans(w, t, names, rel, |rel|)) == sent + PlanBytes(P, SubPlans(w, t, names[i..], rel, |rel|)) &&
    SubsCount(w, t, all, |rel|) == files + SubsCount(w, t, left, |rel|) &&
    SubsBytes(w, t, all, |rel|) == bytes + SubsBytes(w, t, left, |rel|)
  }

  lemma SubsStart(P: Params, w: WalkLimits, t: Tree, rel: Path, names: seq<Name>, all: set<Name>)
    requires all <= t.subs.Keys && names == SortedNames(all)
    requires forall n :: n in names ==> n in t.subs
    ensures SubsSoFar(P, w, t, rel, names, all, 0, all, [], 0, 0)
  {
    hide PlanBytes, SubPlans, SubsCount, SubsBytes;
    assert names[0..] == names;
    assert forall s: seq<byte> :: [] + s == s;
  }

  lemma SubsNext(P: Params, w: WalkLimits, t: Tree, rel: Path, names: seq<Name>, all: set<Name>, i: nat,
      left: set<Name>, sent: seq<byte>, files: nat, bytes: nat)
    requires all <= t.subs.Keys && i < |names| && forall n :: n in names ==> n in t.subs
    requires SubsSoFar(P, w, t, rel, names, all, i, left, sent, files, bytes)
    ensures var n := names[i]; SubsSoFar(P, w, t, rel, names, all, i + 1, left - {n}, sent + SubWalk(P, w, t, rel, n),
      files + TreeCount(w, t.subs[n], |rel| + 1), bytes + TreeBytes(w, t.subs[n], |rel| + 1))
  {
    hide PlanBytes, SubPlans, SubsCount, SubsBytes, SubWalk, TreeCount, TreeBytes;
    NextSub(P, w, t, left, rel);
    assert names[i..][1..] == names[i + 1..];
    var rest := PlanBytes(P, SubPlans(w, t, names[i + 1..], rel, |rel|));
    assert sent + (SubWalk(P, w, t, rel, names[i]) + rest) == sent + SubWalk(P, w, t, rel, names[i]) + rest;
  }

  lemma SubsDone(P: Params, w: WalkLimits, t: Tree, rel: Path, names: seq<Name>, all: set<Name>, left: set<Name>,
      sent: seq<byte>, files: nat, bytes: nat)
    requires all <= t.subs.Keys && forall n :: n in names ==> n in t.subs
    requires SubsSoFar(P, w, t, rel, names, all, |names|, left, sent, files, bytes)
    ensures sent == PlanBytes(P, SubPlans(w, t, names, rel, |rel|)) && files == SubsCount(w, t, all, |rel|) &&
      bytes == SubsBytes(w, t, all, |rel|)
  {
    hide PlanBytes, SubPlans, SubsCount, SubsBytes;
    assert names[|names|..] == [] && sent + [] == sent;
    NoSubs(P, w, t, left, rel);
  }

  lemma DirsNext(P: Params, w: WalkLimits, t: Tree, rel: Path, names: seq<Name>, all: set<Name>, i: nat,
      left: set<Name>, sent: seq<byte>, files: nat, bytes: nat)
    requires all <= t.subs.Keys && i < |names| && forall n :: n in names ==> n in t.subs
    requires SubsSoFar(P, w, t, rel, names, all, i, left, sent, files, bytes)
    ensures var n := names[i];
      n in left && left <= all && SubsDirs(w, t, left, |rel|) ==
        TreeDirs(w, t.subs[n], |rel| + 1) + SubsDirs(w, t, left - {n}, |rel|)
  {
    hide PlanBytes, SubPlans, SubsCount, SubsBytes, TreeDirs, SubsDirs, SortedNames;
    NextDirs(w, t, left, |rel|);
  }

  lemma DirsDone(P: Params, w: WalkLimits, t: Tree, rel: Path, names: seq<Name>, all: set<Name>, left: set<Name>,
      sent: seq<byte>, files: nat, bytes: nat)
    requires all <= t.subs.Keys && forall n :: n in names ==> n in t.subs
    requires SubsSoFar(P, w, t, rel, names, all, |names|, left, sent, files, bytes)
    ensures left == {} && SubsDirs(w, t, left, |rel|) == 0
  {
    hide PlanBytes, SubPlans, SubsCount, SubsBytes, TreeDirs;
    assert names[|names|..] == [];
  }

  lemma SubsStopped(P: Params, w: WalkLimits, t: Tree, rel: Path, names: seq<Name>, all: set<Name>, i: nat,
      left: set<Name>, sent: seq<byte>, files: nat, bytes: nat,
                    running: bool, a: Progress, b: Progress)
    requires all <= t.subs.Keys && forall n :: n in names ==> n in t.subs
    requires SubsSoFar(P, w, t, rel, names, all, i, left, sent, files, bytes) &&
      Goes(running, a, b, sent, files, bytes, false)
    ensures Goes(running, a, b, PlanBytes(P, SubPlans(w, t, names, rel, |rel|)), SubsCount(w, t, all, |rel|),
      SubsBytes(w, t, all, |rel|), false)
  {
    hide PlanBytes, SubPlans, SubsCount, SubsBytes, Goes;
    GoesNoFurther(running, a, b, sent, PlanBytes(P, SubPlans(w, t, names[i..], rel, |rel|)), files,
      SubsCount(w, t, left, |rel|), bytes, SubsBytes(w, t, left, |rel|));
  }

  lemma NoSubs(P: Params, w: WalkLimits, t: Tree, left: set<Name>, rel: Path)
    requires left <= t.subs.Keys && SortedNames(left) == []
    ensures PlanBytes(P, SubPlans(w, t, [], rel, |rel|)) == [] && SubsCount(w, t, left, |rel|) == 0 &&
      SubsBytes(w, t, left, |rel|) == 0
  {
  }

  /** The bytes and totals of a directory are its own and those of its subdirectories, if they are entered. */
  lemma DirAndSubs(P: Params, w: WalkLimits, t: Tree, rel: Path)
    ensures var all := if Descends(w, |rel|) then t.subs.Keys else {};
      (forall x :: x in SortedNames(all) ==> x in t.subs) &&
      PlanBytes(P, WalkPlan(w, t, rel, |rel|)) ==
        PlanBytes(P, DirCommands(w.batch, rel, FilesOf(t))) +
          PlanBytes(P, SubPlans(w, t, SortedNames(all), rel, |rel|)) &&
      TreeCount(w, t, |rel|) == |t.files| + SubsCount(w, t, all, |rel|) &&
      TreeBytes(w, t, |rel|) == SizeSum(t.files, t.files.Keys) + SubsBytes(w, t, all, |rel|)
  {
    hide SubPlans, PlanBytes, DirCommands, SubsCount, SubsBytes, SizeSum;
    var all := if Descends(w, |rel|) then t.subs.Keys else {};
    SortedNamesMembers(all);
    NoNames();
    var own := DirCommands(w.batch, rel, FilesOf(t));
    if Descends(w, |rel|) {
      PlanBytesAppend(P, own, SubPlans(w, t, SortedNames(all), rel, |rel|));
    } else {
      NoSubs(P, w, t, {}, rel);
      assert own + [] == own && PlanBytes(P, own) + [] == PlanBytes(P, own);
    }
  }

  // ---------------------------------------------------------------- the walker

  class Walker {
    const P: Params
    const w: WalkLimits
    const bufSize: nat
    const root: seq<byte>
    /** Whether opening a directory or reading a file may fail. */
    const faulty: bool
    const bw: BufWriter
    const dry: DryRun
    var running: bool
    var fullpath: seq<byte>
    var relpath: seq<byte>
    var depth: nat
    var entries: seq<FileSpec>
    var totalFiles: nat
    var totalBytes: nat

    ghost predicate Valid()
      reads this, bw, bw.buf, dry, dry.buckets
    {
      bw.Valid() && dry.Valid() && bufSize > 0 && bw.buf as object != dry.buckets
    }

    ghost function Now(): Progress
      requires bw.Valid()
      reads this, bw, bw.buf, dry
    {
      Progress(bw.Pushed(), bw.sent, bw.broken, totalFiles, totalBytes, dry.fileCount, dry.fileTotalSize)
    }

    /** The walk is in the directory `rel`: both path buffers and the depth say so. */
    ghost predicate At(rel: Path)
      reads this`relpath, this`fullpath, this`depth
    {
      AreComponents(rel) && relpath == Join(rel) && fullpath == FullOf(root, rel) && depth == |rel|
    }

    constructor (P: Params, w: WalkLimits, root: seq<byte>, bw: BufWriter, dry: DryRun, bufSize: nat, faulty: bool)
      requires bw.Valid() && dry.Valid() && bufSize > 0 && bw.buf as object != dry.buckets
      ensures Valid() && this.P == P && this.w == w && this.root == root && this.bw == bw && this.dry == dry
      ensures totalFiles == 0 && totalBytes == 0 && this.bufSize == bufSize && this.faulty == faulty
    {
      this.faulty := faulty;
      this.P, this.w, this.root, this.bw, this.dry, this.bufSize := P, w, root, bw, dry, bufSize;
      running, fullpath, relpath, depth, entries, totalFiles, totalBytes := false, root, [], 0, [], 0, 0;
    }

    /** One entry of the directory: a file is listed and counted, a directory unless it is too deep. */
    method ScanEntry(t: Tree, n: Name, files: seq<Name>, subs: seq<Name>)
      returns (moreFiles: seq<Name>, moreSubs: seq<Name>)
      requires dry.Valid() && n in AllNames(t) && t.files.Keys !! t.subs.Keys
      modifies dry, dry.buckets
      ensures dry.Valid() && dry.buckets == old(dry.buckets)
      ensures moreFiles == (if n in t.files then files + [n] else files)
      ensures moreSubs == (if n in t.subs && Descends(w, depth) then subs + [n] else subs)
      ensures dry.fileCount == old(dry.fileCount) + (if running || n !in t.files then 0 else 1)
      ensures dry.fileTotalSize == old(dry.fileTotalSize) + (if running || n !in t.files then 0 else |t.files[n]|)
      ensures dry.dirCount == old(dry.dirCount) + (if !running && n in t.subs && Descends(w, depth) then 1 else 0)
    {
      moreFiles, moreSubs := files, subs;
      if n in t.files {
        moreFiles := files + [n];
        if !running { dry.AddFile(|t.files[n]|); }
      } else if w.maxDepth == 0 || depth < w.maxDepth {
        moreSubs := subs + [n];
        if !running { dry.AddDir(); }
      }
    }

    /** Read the directory, in whatever order its entries come; the dry run counts what it meets. */
    method ScanDir(t: Tree) returns (files: seq<Name>, subs: seq<Name>)
      requires dry.Valid() && t.files.Keys !! t.subs.Keys
      modifies dry, dry.buckets
      ensures dry.Valid() && dry.buckets == old(dry.buckets)
      ensures Lists(files, t.files.Keys) && Lists(subs, if Descends(w, depth) then t.subs.Keys else {})
      ensures dry.fileCount == old(dry.fileCount) + if running then 0 else |t.files|
      ensures dry.fileTotalSize == old(dry.fileTotalSize) + if running then 0 else SizeSum(t.files, t.files.Keys)
      ensures DirsCounted(running, old(dry.dirCount), dry.dirCount, if Descends(w, depth) then |t.subs| else 0, true)
    {
      hide SizeSum, Lists, Sum;
      hide Scanned, AllNames, Met, MetSubs;
      files, subs := [], [];
      var left := AllNames(t);
      ghost var deep := Descends(w, depth);
      NothingScanned(t, deep);
      while left != {}
        invariant Scanned(t, deep, left, files, subs)
        invariant dry.Valid() && dry.buckets == old(dry.buckets)
        invariant dry.fileCount == old(dry.fileCount) + if running then 0 else |Met(t, left)|
        invariant dry.fileTotalSize == old(dry.fileTotalSize) + if running then 0 else SizeSum(t.files, Met(t, left))
        invariant DirsCounted(running, old(dry.dirCount), dry.dirCount, |MetSubs(t, deep, left)|, true)
      {
        var n :| n in left;
        ScanStep(t, deep, left, files, subs, n);
        files, subs := ScanEntry(t, n, files, subs);
        left := left - {n};
      }
      AllScanned(t, deep, files, subs);
    }

    /** The files of the directory become the current entries, and both lists are sorted by name. */
    method ReadDir(t: Tree) returns (subs: seq<Name>)
      requires Valid() && PlainTree(t)
      modifies this`entries, dry, dry.buckets
      ensures Valid() && dry.buckets == old(dry.buckets)
      ensures entries == FilesOf(t) && subs == if Descends(w, depth) then SortedNames(t.subs.Keys) else []
      ensures running ==> Now() == old(Now())
      ensures !running ==> Now() == old(Now()).(counted := old(dry.fileCount) + |t.files|,
                                                sized := old(dry.fileTotalSize) + SizeSum(t.files, t.files.Keys))
      ensures DirsCounted(running, old(dry.dirCount), dry.dirCount, if Descends(w, depth) then |t.subs| else 0, true)
    {
      hide SizeSum;
      var files;
      files, subs := ScanDir(t);
      files := SortNames(files);
      subs := SortNames(subs);
      SortedNamesMembers(t.files.Keys);
      NoNames();
      entries := Specs(files, t.files);
    }

    /** The callback for a directory: nothing without files, else its batches. */
    method ProcessEntries(ghost rel: Path) returns (ok: bool)
      requires Valid() && At(rel)
      modifies this`entries, this`totalFiles, this`totalBytes, bw, bw.buf
      ensures Valid() && bw.buf == old(bw.buf)
      ensures Goes(true, old(Now()), Now(), PlanBytes(P, DirCommands(w.batch, rel, old(entries))), |old(entries)|,
        BytesIn(old(entries)), ok)
      ensures ok ==> FilesFit(fullpath, old(entries))
      ensures !ok && |relpath| < PATH_MAX ==> faulty || bw.broken || !FilesFit(fullpath, old(entries))
    {
      hide PlanBytes, DirCommands, Join, BytesIn;
      var files, bytes;
      ok, files, bytes := ProcessDirectory(P, bw, w.batch, rel, relpath, fullpath, entries, bufSize, faulty);
      totalFiles, totalBytes := totalFiles + files, totalBytes + bytes;
      if ok { entries := []; }
    }

    /** Open and read one directory, and in a real walk send its files. */
    method Visit(t: Tree, ghost rel: Path) returns (ok: bool, subs: seq<Name>)
      requires Valid() && PlainTree(t) && At(rel)
      modifies this`entries, this`totalFiles, this`totalBytes, bw, bw.buf, dry, dry.buckets
      ensures Valid() && bw.buf == old(bw.buf) && dry.buckets == old(dry.buckets)
      ensures Goes(running, old(Now()), Now(), PlanBytes(P, DirCommands(w.batch, rel, FilesOf(t))), |t.files|,
        SizeSum(t.files, t.files.Keys), ok)
      ensures ok ==> subs == if Descends(w, depth) then SortedNames(t.subs.Keys) else []
      ensures DirsCounted(running, old(dry.dirCount), dry.dirCount, if Descends(w, depth) then |t.subs| else 0, ok)
      ensures !ok && !faulty && PathsFit(w, root, t, rel) ==> running && bw.broken
      ensures ok && running ==> FilesFit(FullOf(root, rel), FilesOf(t))
    {
      hide PlanBytes, DirCommands, SizeSum, BytesIn, Join, FullOf, PathsFit, FilesFit, SortedNames;
      hide PlainTree, Sum, Goes;
      ghost var start, data := Now(), PlanBytes(P, DirCommands(w.batch, rel, FilesOf(t)));
      var readable: bool := *;
      if faulty && !readable {
        NotBegun(running, start, data, |t.files|, SizeSum(t.files, t.files.Keys));
        return false, [];
      }
      ok := true;
      if PathsFit(w, root, t, rel) { EntriesFit(w, root, t, rel); }
      subs := ReadDir(t);
      SpecsSum(t.files, t.files.Keys);
      if running {
        ok := ProcessEntries(rel);
      } else {
        OnlyCounted(start, Now(), data, |t.files|, SizeSum(t.files, t.files.Keys));
      }
    }

    /** Into one subdirectory and back: whatever happens below, the path buffers and the depth are restored. */
    method Descend(t: Tree, ghost rel: Path, n: Name) returns (ok: bool)
      requires Valid() && PlainTree(t) && At(rel) && n in t.subs
      modifies this`fullpath, this`relpath, this`depth, this`entries, this`totalFiles, this`totalBytes, bw, bw.buf,
        dry, dry.buckets
      ensures Valid() && At(rel) && bw.buf == old(bw.buf) && dry.buckets == old(dry.buckets)
      ensures Goes(running, old(Now()), Now(), SubWalk(P, w, t, rel, n),
                   TreeCount(w, t.subs[n], |rel| + 1), TreeBytes(w, t.subs[n], |rel| + 1), ok)
      ensures DirsCounted(running, old(dry.dirCount), dry.dirCount, TreeDirs(w, t.subs[n], |rel| + 1), ok)
      ensures !ok && !faulty && PathsFit(w, root, t.subs[n], Child(rel, n)) ==> running && bw.broken
      ensures ok && running ==> PathsFit(w, root, t.subs[n], Child(rel, n))
      decreases t, 0
    {
      hide PlanBytes, WalkPlan, TreeCount, TreeBytes, Join, FullOf, TreeDirs;
      var subPath := PathJoin(fullpath, n, PATH_MAX);
      if subPath.None? {
        if PathsFit(w, root, t.subs[n], Child(rel, n)) { JoinFits(root, rel, n); }
        return false;
      }
      FullOfRoot(root);
      RelativeFits(root, rel, n, PATH_MAX);
      var oldFull, oldRel := fullpath, relpath;
      fullpath := subPath.value;
      var newRel := if depth == 0 || relpath == [] then Some(n) else PathJoin(relpath, n, PATH_MAX);
      relpath := newRel.value;
      depth := depth + 1;
      ok := WalkDir(t.subs[n], Child(rel, n));
      depth := depth - 1;
      fullpath, relpath := oldFull, oldRel;
    }

    /** The subdirectories in name order; the first failure ends the walk. */
    method WalkSubs(t: Tree, ghost rel: Path, subs: seq<Name>, ghost all: set<Name>) returns (ok: bool)
      requires Valid() && PlainTree(t) && At(rel) && all <= t.subs.Keys && subs == SortedNames(all)
      requires all == {} || Descends(w, |rel|)
      modifies this`fullpath, this`relpath, this`depth, this`entries, this`totalFiles, this`totalBytes, bw, bw.buf,
        dry, dry.buckets
      ensures Valid() && At(rel) && bw.buf == old(bw.buf) && dry.buckets == old(dry.buckets)
      ensures forall n :: n in subs ==> n in t.subs
      ensures Goes(running, old(Now()), Now(), PlanBytes(P, SubPlans(w, t, subs, rel, |rel|)),
                   SubsCount(w, t, all, |rel|), SubsBytes(w, t, all, |rel|), ok)
      ensures DirsCounted(running, old(dry.dirCount), dry.dirCount, SubsDirs(w, t, all, |rel|), ok)
      ensures !ok && !faulty && PathsFit(w, root, t, rel) ==> running && bw.broken
      ensures ok && running ==> forall n :: n in all ==> PathsFit(w, root, t.subs[n], Child(rel, n))
      decreases t, 1
    {
      hide PlanBytes, WalkPlan, SubPlans, SubsCount, SubsBytes, TreeCount, TreeBytes, At, Goes, SubsSoFar;
      hide SubsDirs, TreeDirs, PathsFit, SubWalk, SortedNames, Join, FullOf;
      SortedNamesMembers(all);
      ghost var start := Now();
      ghost var left, sent, f, m := all, [], 0, 0;
      ghost var d: nat := 0;
      StandsStill(running, start);
      SubsStart(P, w, t, rel, subs, all);
      for i := 0 to |subs|
        invariant Valid() && At(rel) && bw.buf == old(bw.buf) && dry.buckets == old(dry.buckets)
        invariant SubsSoFar(P, w, t, rel, subs, all, i, left, sent, f, m)
        invariant Goes(running, start, Now(), sent, f, m, true)
        invariant DirsCounted(running, old(dry.dirCount), dry.dirCount, d, true)
        invariant running ==> forall n :: n in all - left ==> PathsFit(w, root, t.subs[n], Child(rel, n))
        invariant left <= all && SubsDirs(w, t, all, |rel|) == d + SubsDirs(w, t, left, |rel|)
      {
        DirsNext(P, w, t, rel, subs, all, i, left, sent, f, m);
        if PathsFit(w, root, t, rel) { SubFits(w, root, t, rel, subs[i]); }
        SubsNext(P, w, t, rel, subs, all, i, left, sent, f, m);
        ghost var here := Now();
        ok := Descend(t, rel, subs[i]);
        ghost var x, g, k := SubWalk(P, w, t, rel, subs[i]), TreeCount(w, t.subs[subs[i]], |rel| + 1),
          TreeBytes(w, t.subs[subs[i]], |rel| + 1);
        GoesOn(running, start, here, Now(), sent, x, f, g, m, k, ok);
        d := d + TreeDirs(w, t.subs[subs[i]], |rel| + 1);
        left, sent, f, m := left - {subs[i]}, sent + x, f + g, m + k;
        if !ok {
          SubsStopped(P, w, t, rel, subs, all, i + 1, left, sent, f, m, running, start, Now());
          return;
        }
      }
      SubsDone(P, w, t, rel, subs, all, left, sent, f, m);
      DirsDone(P, w, t, rel, subs, all, left, sent, f, m);
      ok := true;
    }

    /** One directory and everything below it. */
    method WalkDir(t: Tree, ghost rel: Path) returns (ok: bool)
      requires Valid() && PlainTree(t) && At(rel)
      modifies this`fullpath, this`relpath, this`depth, this`entries, this`totalFiles, this`totalBytes, bw, bw.buf,
        dry, dry.buckets
      ensures Valid() && At(rel) && bw.buf == old(bw.buf) && dry.buckets == old(dry.buckets)
      ensures Goes(running, old(Now()), Now(), PlanBytes(P, WalkPlan(w, t, rel, |rel|)), TreeCount(w, t, |rel|),
        TreeBytes(w, t, |rel|), ok)
      ensures DirsCounted(running, old(dry.dirCount), dry.dirCount, TreeDirs(w, t, |rel|), ok)
      ensures !ok && !faulty && PathsFit(w, root, t, rel) ==> running && bw.broken
      ensures ok && running && (rel == [] || |fullpath| < PATH_MAX) ==> PathsFit(w, root, t, rel)
      decreases t, 2
    {
      hide PlanBytes, SubPlans, SubsCount, SubsBytes, TreeCount, TreeBytes, WalkPlan, SizeSum, Goes, Join, FullOf;
      hide DirCommands, SubsDirs, TreeDirs, PathsFit, SortedNames, FilesOf, PlainTree;
      ghost var start := Now();
      ghost var x, f, m := PlanBytes(P, DirCommands(w.batch, rel, FilesOf(t))), |t.files|,
        SizeSum(t.files, t.files.Keys);
      ghost var all := if Descends(w, depth) then t.subs.Keys else {};
      DirAndSubs(P, w, t, rel);
      NoNames();
      DirsOf(w, t, |rel|);
      ghost var y, g, k := PlanBytes(P, SubPlans(w, t, SortedNames(all), rel, |rel|)), SubsCount(w, t, all, |rel|),
        SubsBytes(w, t, all, |rel|);
      var subs;
      ok, subs := Visit(t, rel);
      if !ok {
        GoesNoFurther(running, start, Now(), x, y, f, g, m, k);
        return;
      }
      ghost var here := Now();
      ok := WalkSubs(t, rel, subs, all);
      GoesOn(running, start, here, Now(), x, y, f, g, m, k, ok);
      if ok && running && (rel == [] || |fullpath| < PATH_MAX) { AllFit(w, root, t, rel); }
    }

    /** A header line whose failure goes unnoticed. */
    method PushLoose(line: seq<byte>, ghost meant: seq<byte>, ghost stream: seq<byte>)
      requires Valid() && OnTrack(Now(), meant, stream) && meant + line <= stream
      modifies bw, bw.buf
      ensures Valid() && bw.buf == old(bw.buf) && OnTrack(Now(), meant + line, stream)
      ensures bw.broken || bw.sent == bw.Pushed()
      ensures old(bw.sent) <= bw.sent
      ensures !old(bw.broken) && bw.broken ==> |bw.sent| < |meant + line|
    {
      var pushed := bw.Push(line);
      var flushed := bw.Flush();
    }

    /** A header line that ends the walk when it cannot be sent. */
    method PushStrict(line: seq<byte>, ghost meant: seq<byte>, ghost stream: seq<byte>) returns (ok: bool)
      requires Valid() && OnTrack(Now(), meant, stream) && meant + line <= stream
      modifies bw, bw.buf
      ensures Valid() && bw.buf == old(bw.buf) && bw.sent <= stream && (ok ==> OnTrack(Now(), meant + line, stream))
      ensures ok && line != [] ==> !bw.broken && bw.sent == bw.Pushed()
      ensures !ok && |line| < 128 ==> bw.broken
    {
      if |line| >= 128 { return false; }
      ok := PushLine(bw, line);
    }

    /** The four header lines, the totals being those of the dry run. */
    method SendHeader(mode: Mode, ghost stream: seq<byte>) returns (ok: bool)
      requires Valid() && OnTrack(Now(), [], stream)
      requires VersionHead() + ModeHead(mode) + StatBytesHead(dry.fileTotalSize) +
        StatFilesHead(dry.fileCount) <= stream
      modifies bw, bw.buf
      ensures Valid() && bw.buf == old(bw.buf) && bw.sent <= stream
      ensures ok ==>
        OnTrack(Now(),
          VersionHead() + ModeHead(mode) + StatBytesHead(dry.fileTotalSize) + StatFilesHead(dry.fileCount), stream)
      ensures ok ==> !bw.broken && bw.sent == bw.Pushed()
      ensures !ok && dry.fileTotalSize < U64_LIMIT && dry.fileCount < U64_LIMIT ==> bw.broken
    {
      hide VersionHead, ModeHead, StatBytesHead, StatFilesHead, OnTrack;
      ghost var one, two := VersionHead(), VersionHead() + ModeHead(mode);
      ghost var three := two + StatBytesHead(dry.fileTotalSize);
      assert [] + one == one && one <= stream && two <= stream && three <= stream;
      StatHeadsShort(dry.fileTotalSize, dry.fileCount);
      PushLoose(VersionHead(), [], stream);
      PushLoose(ModeHead(mode), one, stream);
      ok := PushStrict(StatBytesHead(dry.fileTotalSize), two, stream);
      if ok {
        LineNotEmpty(dry.fileCount);
        ok := PushStrict(StatFilesHead(dry.fileCount), three, stream);
      }
    }

    /** From the root: always a dry walk, and unless only that is asked for the header and the real walk. */
    method Walk(t: Tree, mode: Mode, dryOnly: bool) returns (ok: bool)
      requires Valid() && PlainTree(t) && Now() == Progress([], [], false, 0, 0, 0, 0)
      modifies this, bw, bw.buf, dry, dry.buckets
      ensures Valid() && bw.buf == old(bw.buf)
      ensures bw.sent <= SenderStream(P, w, mode, t) && (dryOnly ==> bw.sent == [])
      ensures totalFiles <= TreeCount(w, t, 0) && totalBytes <= TreeBytes(w, t, 0)
      ensures ok ==> dry.fileCount == TreeCount(w, t, 0) && dry.fileTotalSize == TreeBytes(w, t, 0)
      ensures ok && !dryOnly ==> totalFiles == dry.fileCount && totalBytes == dry.fileTotalSize && exists meant ::
        OnTrack(Now(), meant, SenderStream(P, w, mode, t)) && meant + TRAILER == SenderStream(P, w, mode, t)
      ensures ok && !dryOnly ==> !bw.broken && bw.sent == bw.Pushed()
      ensures ok ==> dry.dirCount == old(dry.dirCount) + TreeDirs(w, t, 0)
      ensures !faulty && CanBeSent(w, root, t) && !ok ==> !dryOnly && bw.broken
      ensures ok && !dryOnly ==> PathsFit(w, root, t, [])
    {
      hide TreeDirs, PathsFit;
      hide PlanBytes, WalkPlan, TreeCount, TreeBytes, SenderStream, VersionHead, ModeHead, StatBytesHead, StatFilesHead;
      ghost var stream := SenderStream(P, w, mode, t);
      FullOfRoot(root);
      fullpath, relpath, depth, running := root, [], 0, false;
      ok := WalkDir(t, []);
      if !ok || dryOnly { return; }
      StreamParts(P, w, mode, t);
      ghost var head := VersionHead() + ModeHead(mode) + StatBytesHead(dry.fileTotalSize) +
        StatFilesHead(dry.fileCount);
      ghost var data := PlanBytes(P, WalkPlan(w, t, [], 0));
      assert stream == head + data + TRAILER && head <= stream && head + data <= stream;
      running := true;
      ok := SendHeader(mode, stream);
      if !ok { return; }
      ghost var here := Now();
      ok := WalkDir(t, []);
      StaysOnTrack(here, Now(), head, data, stream, TreeCount(w, t, 0), TreeBytes(w, t, 0), ok);
    }

    /**
     * The sender's run. What reaches the descriptor is a front of the tree's stream, the same one for every order
     * in which directories are read, every split of reads and writes, and every failure. A run that reports success
     * has sent everything before END; END too if and only if the descriptor has not failed, its writes going unchecked.
     * Nothing but a fault of the file system, a failed descriptor, a path too long or a total of 2^64 makes it give up,
     * and a path too long always does.
     */
    method Send(t: Tree, mode: Mode, dryOnly: bool) returns (ok: bool)
      requires Valid() && PlainTree(t) && Now() == Progress([], [], false, 0, 0, 0, 0)
      modifies this, bw, bw.buf, dry, dry.buckets
      ensures Valid() && bw.buf == old(bw.buf)
      ensures bw.sent <= SenderStream(P, w, mode, t) && (dryOnly ==> bw.sent == [])
      ensures ok && !dryOnly ==> exists meant :: meant + TRAILER == SenderStream(P, w, mode, t) && meant <= bw.sent
      ensures ok && !dryOnly ==> (bw.sent == SenderStream(P, w, mode, t) <==> !bw.broken)
      ensures totalFiles <= TreeCount(w, t, 0) && totalBytes <= TreeBytes(w, t, 0)
      ensures ok ==> dry.fileCount == TreeCount(w, t, 0) && dry.fileTotalSize == TreeBytes(w, t, 0)
      ensures ok && !dryOnly ==> totalFiles == dry.fileCount && totalBytes == dry.fileTotalSize
      ensures ok ==> dry.dirCount == old(dry.dirCount) + TreeDirs(w, t, 0)
      ensures !faulty && CanBeSent(w, root, t) && !ok ==> !dryOnly && bw.broken
      ensures ok && !dryOnly ==> PathsFit(w, root, t, [])
      ensures !faulty && CanBeSent(w, root, t) && bw.reliable ==>
        ok && bw.sent == if dryOnly then [] else SenderStream(P, w, mode, t)
    {
      hide TreeCount, TreeBytes, SenderStream, TreeDirs, CanBeSent, PathsFit;
      ok := Walk(t, mode, dryOnly);
      if !ok || dryOnly { return; }
      ghost var meant :| OnTrack(Now(), meant, SenderStream(P, w, mode, t)) &&
        meant + TRAILER == SenderStream(P, w, mode, t);
      assert bw.sent == meant;
      PushLoose(TRAILER, meant, SenderStream(P, w, mode, t));
      assert meant + TRAILER == SenderStream(P, w, mode, t) && meant <= bw.sent;
    }
  }
}
