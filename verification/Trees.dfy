/** The snapshot tree, the plan the walk makes of it, and what the plan promises. */
module Trees {
  import opened Bytes
  import opened FileSystem
  import opened Protocol
  import opened Snapshot
  import opened Batching
  import opened Names

  /** A directory as the walker sees it: its regular files and its subdirectories, by name. */
  datatype Tree = Tree(files: map<Name, seq<byte>>, subs: map<Name, Tree>)

  /** Batch limits and the depth below which no directory is entered (zero: no limit). */
  datatype WalkLimits = WalkLimits(batch: Limits, maxDepth: nat)

  predicate Descends(w: WalkLimits, depth: nat) { w.maxDepth == 0 || depth < w.maxDepth }

  function Specs(names: seq<Name>, files: map<Name, seq<byte>>): (r: seq<FileSpec>)
    requires forall n :: n in names ==> n in files
    ensures |r| == |names| && forall i :: 0 <= i < |r| ==> r[i] == FileSpec(names[i], files[names[i]])
  {
    seq(|names|, i requires 0 <= i < |names| => FileSpec(names[i], files[names[i]]))
  }

  /** The files of a directory in the order they are sent. */
  ghost function FilesOf(t: Tree): seq<FileSpec> {
    SortedNamesMembers(t.files.Keys);
    Specs(SortedNames(t.files.Keys), t.files)
  }

  function BatchCommands(dir: Path, batches: seq<seq<FileSpec>>): Plan {
    if batches == [] then [] else [Batch(dir, batches[0])] + BatchCommands(dir, batches[1..])
  }

  /** A directory without files is never announced. */
  function DirCommands(lim: Limits, dir: Path, files: seq<FileSpec>): Plan {
    if files == [] then [] else [Enter(dir)] + BatchCommands(dir, Batches(lim, files))
  }

  /** Depth first: the files of the directory, then its subdirectories in name order. */
  ghost function WalkPlan(w: WalkLimits, t: Tree, rel: Path, depth: nat): Plan
    decreases t, 1, 0
  {
    SortedNamesMembers(t.subs.Keys);
    DirCommands(w.batch, rel, FilesOf(t)) +
    if Descends(w, depth) then SubPlans(w, t, SortedNames(t.subs.Keys), rel, depth) else []
  }

  ghost function SubPlans(w: WalkLimits, t: Tree, names: seq<Name>, rel: Path, depth: nat): Plan
    requires forall n :: n in names ==> n in t.subs
    decreases t, 0, |names|
  {
    if names == [] then []
    else WalkPlan(w, t.subs[names[0]], Child(rel, names[0]), depth + 1) + SubPlans(w, t, names[1..], rel, depth)
  }

  // ---------------------------------------------------------------- what the tree holds

  /** `q` is the relative path of a file the walk reaches. */
  ghost predicate Visible(w: WalkLimits, t: Tree, q: Path, depth: nat)
    decreases t
  {
    q != [] &&
    if |q| == 1 then q[0] in t.files
    else q[0] in t.subs && Descends(w, depth) && Visible(w, t.subs[q[0]], q[1..], depth + 1)
  }

  ghost function ContentAt(w: WalkLimits, t: Tree, q: Path, depth: nat): seq<byte>
    requires Visible(w, t, q, depth)
    decreases t
  {
    if |q| == 1 then t.files[q[0]] else ContentAt(w, t.subs[q[0]], q[1..], depth + 1)
  }

  /** The names, lengths and sizes are ones the protocol can carry; no name is both a file and a directory. */
  ghost predicate GoodTree(w: WalkLimits, t: Tree, rel: Path, depth: nat)
    decreases t
  {
    |Join(rel)| < PATH_MAX && t.files.Keys !! t.subs.Keys &&
    (forall n :: n in t.files ==> GoodFileName(n) && |t.files[n]| < U64_LIMIT) &&
    (Descends(w, depth) ==>
      forall n :: n in t.subs ==> GoodDirName(n) && GoodTree(w, t.subs[n], Child(rel, n), depth + 1))
  }

  // ---------------------------------------------------------------- plans put together

  lemma {:induction false} SentAppend(a: Plan, b: Plan)
    ensures Sent(a + b) == Sent(a) + Sent(b)
  {
    if a == [] {
      assert a + b == b;
    } else {
      assert (a + b)[0] == a[0] && (a + b)[1..] == a[1..] + b;
      SentAppend(a[1..], b);
    }
  }

  lemma {:induction false} SumsAppend(a: Plan, b: Plan)
    ensures PlanBytesIn(a + b) == PlanBytesIn(a) + PlanBytesIn(b)
    ensures PlanFileCount(a + b) == PlanFileCount(a) + PlanFileCount(b)
  {
    if a == [] {
      assert a + b == b;
    } else {
      assert (a + b)[0] == a[0] && (a + b)[1..] == a[1..] + b;
      SumsAppend(a[1..], b);
    }
  }

  lemma LocatedAppend(dir: Path, a: seq<FileSpec>, b: seq<FileSpec>)
    ensures Located(dir, a + b) == Located(dir, a) + Located(dir, b)
  {
  }

  lemma {:induction false} BatchCommandsSent(dir: Path, batches: seq<seq<FileSpec>>)
    ensures Sent(BatchCommands(dir, batches)) == Located(dir, Rejoin(batches))
    ensures PlanBytesIn(BatchCommands(dir, batches)) == BytesIn(Rejoin(batches))
    ensures PlanFileCount(BatchCommands(dir, batches)) == |Rejoin(batches)|
  {
    if batches != [] {
      var cmds := BatchCommands(dir, batches);
      assert cmds[0] == Batch(dir, batches[0]) && cmds[1..] == BatchCommands(dir, batches[1..]);
      BatchCommandsSent(dir, batches[1..]);
      LocatedAppend(dir, batches[0], Rejoin(batches[1..]));
      BytesInAppend(batches[0], Rejoin(batches[1..]));
    }
  }

  /** However it is batched, a directory's files are sent in order, each once, and nothing else. */
  lemma DirCommandsSent(lim: Limits, dir: Path, files: seq<FileSpec>)
    ensures var plan := DirCommands(lim, dir, files);
      Sent(plan) == Located(dir, files) && PlanBytesIn(plan) == BytesIn(files) && PlanFileCount(plan) == |files|
  {
    if files != [] {
      BatchesValid(lim, files);
      BatchCommandsSent(dir, Batches(lim, files));
      assert DirCommands(lim, dir, files)[1..] == BatchCommands(dir, Batches(lim, files));
    }
  }

  /** A plan that makes sense whatever directory was announced before it. */
  ghost predicate SelfOrdered(plan: Plan) { forall c :: WellOrdered(plan, c) }

  lemma {:induction false} OrderedAppend(a: Plan, b: Plan, c: Option<Path>)
    requires WellOrdered(a, c) && SelfOrdered(b)
    ensures WellOrdered(a + b, c)
    decreases |a|
  {
    if a == [] {
      assert a + b == b;
    } else {
      assert (a + b)[0] == a[0] && (a + b)[1..] == a[1..] + b;
      OrderedAppend(a[1..], b, match a[0] case Enter(dir) => Some(dir) case Batch(_, _) => c);
    }
  }

  lemma SelfOrderedAppend(a: Plan, b: Plan)
    requires SelfOrdered(a) && SelfOrdered(b)
    ensures SelfOrdered(a + b)
  {
    forall c ensures WellOrdered(a + b, c) {
      OrderedAppend(a, b, c);
    }
  }

  lemma {:induction false} BatchCommandsOrdered(dir: Path, batches: seq<seq<FileSpec>>)
    ensures WellOrdered(BatchCommands(dir, batches), Some(dir))
  {
    if batches != [] {
      var cmds := BatchCommands(dir, batches);
      assert cmds[0] == Batch(dir, batches[0]) && cmds[1..] == BatchCommands(dir, batches[1..]);
      BatchCommandsOrdered(dir, batches[1..]);
    }
  }

  lemma DirCommandsOrdered(lim: Limits, dir: Path, files: seq<FileSpec>)
    ensures SelfOrdered(DirCommands(lim, dir, files))
  {
    if files != [] {
      BatchCommandsOrdered(dir, Batches(lim, files));
      assert DirCommands(lim, dir, files)[1..] == BatchCommands(dir, Batches(lim, files));
    }
  }

  lemma {:induction false} WalkOrdered(w: WalkLimits, t: Tree, rel: Path, depth: nat)
    ensures SelfOrdered(WalkPlan(w, t, rel, depth))
    decreases t, 1, 0
  {
    SortedNamesMembers(t.subs.Keys);
    DirCommandsOrdered(w.batch, rel, FilesOf(t));
    if Descends(w, depth) {
      SubsOrdered(w, t, SortedNames(t.subs.Keys), rel, depth);
      SelfOrderedAppend(DirCommands(w.batch, rel, FilesOf(t)), SubPlans(w, t, SortedNames(t.subs.Keys), rel, depth));
    } else {
      assert DirCommands(w.batch, rel, FilesOf(t)) + [] == DirCommands(w.batch, rel, FilesOf(t));
    }
  }

  lemma {:induction false} SubsOrdered(w: WalkLimits, t: Tree, names: seq<Name>, rel: Path, depth: nat)
    requires forall n :: n in names ==> n in t.subs
    ensures SelfOrdered(SubPlans(w, t, names, rel, depth))
    decreases t, 0, |names|
  {
    if names != [] {
      WalkOrdered(w, t.subs[names[0]], Child(rel, names[0]), depth + 1);
      SubsOrdered(w, t, names[1..], rel, depth);
      SelfOrderedAppend(WalkPlan(w, t.subs[names[0]], Child(rel, names[0]), depth + 1),
        SubPlans(w, t, names[1..], rel, depth));
    }
  }

  // ---------------------------------------------------------------- every command is well-formed

  lemma {:induction false} BatchCommandsGood(lim: Limits, dir: Path, batches: seq<seq<FileSpec>>)
    requires GoodDir(dir) && 0 < lim.maxFiles <= MAX_FILES
    requires forall i :: 0 <= i < |batches| ==> ValidBatch(lim, batches[i])
    requires forall f :: f in Rejoin(batches) ==> GoodFile(f)
    ensures GoodPlan(BatchCommands(dir, batches))
  {
    hide GoodDir, GoodFile, ValidBatch;
    if batches != [] {
      var b, cmds := batches[0], BatchCommands(dir, batches);
      assert ValidBatch(lim, b);
      GoodBatch(lim, dir, b, Rejoin(batches[1..]));
      assert forall i :: 0 <= i < |batches[1..]| ==> batches[1..][i] == batches[i + 1];
      BatchCommandsGood(lim, dir, batches[1..]);
      assert forall i :: 0 < i < |cmds| ==> cmds[i] == cmds[1..][i - 1];
    }
  }

  lemma GoodBatch(lim: Limits, dir: Path, b: seq<FileSpec>, rest: seq<FileSpec>)
    requires GoodDir(dir) && 0 < lim.maxFiles <= MAX_FILES && ValidBatch(lim, b)
    requires forall f :: f in b + rest ==> GoodFile(f)
    ensures GoodCommand(Batch(dir, b)) && forall f :: f in rest ==> GoodFile(f)
  {
    hide GoodDir, GoodFile;
    assert forall i :: 0 <= i < |b| ==> b[i] in b + rest;
    assert forall f :: f in rest ==> f in b + rest;
  }

  lemma DirCommandsGood(w: WalkLimits, t: Tree, rel: Path, depth: nat)
    requires GoodTree(w, t, rel, depth) && GoodDir(rel) && 0 < w.batch.maxFiles <= MAX_FILES
    ensures GoodPlan(DirCommands(w.batch, rel, FilesOf(t)))
  {
    hide GoodDir, GoodFileName, Join, Batches, GoodTree;
    var files := FilesOf(t);
    SortedNamesMembers(t.files.Keys);
    assert forall f :: f in files ==> f.name in t.files && f.content == t.files[f.name];
    TreeFilesGood(w, t, rel, depth);
    if files != [] {
      BatchesValid(w.batch, files);
      BatchCommandsGood(w.batch, rel, Batches(w.batch, files));
      var cmds := DirCommands(w.batch, rel, files);
      assert forall i :: 0 < i < |cmds| ==> cmds[i] == BatchCommands(rel, Batches(w.batch, files))[i - 1];
      assert GoodCommand(cmds[0]);
    }
  }

  lemma TreeFilesGood(w: WalkLimits, t: Tree, rel: Path, depth: nat)
    requires GoodTree(w, t, rel, depth)
    ensures forall n :: n in t.files ==> GoodFile(FileSpec(n, t.files[n]))
  {
    hide GoodFileName, Join;
  }

  lemma GoodAppend(a: Plan, b: Plan)
    requires GoodPlan(a) && GoodPlan(b)
    ensures GoodPlan(a + b)
  {
    hide GoodCommand;
  }

  lemma ChildGood(rel: Path, n: Name)
    requires GoodDir(rel) && GoodDirName(n) && |Join(Child(rel, n))| < PATH_MAX
    ensures GoodDir(Child(rel, n))
  {
    hide Join, GoodDirName;
  }

  lemma {:induction false} WalkGood(w: WalkLimits, t: Tree, rel: Path, depth: nat)
    requires GoodTree(w, t, rel, depth) && GoodDir(rel) && 0 < w.batch.maxFiles <= MAX_FILES
    ensures GoodPlan(WalkPlan(w, t, rel, depth))
    decreases t, 1, 0
  {
    hide GoodDir, GoodPlan, DirCommands, GoodFileName, GoodDirName;
    SortedNamesMembers(t.subs.Keys);
    DirCommandsGood(w, t, rel, depth);
    if Descends(w, depth) {
      SubsGood(w, t, SortedNames(t.subs.Keys), rel, depth);
      GoodAppend(DirCommands(w.batch, rel, FilesOf(t)), SubPlans(w, t, SortedNames(t.subs.Keys), rel, depth));
    } else {
      assert DirCommands(w.batch, rel, FilesOf(t)) + [] == DirCommands(w.batch, rel, FilesOf(t));
    }
  }

  lemma {:induction false} SubsGood(w: WalkLimits, t: Tree, names: seq<Name>, rel: Path, depth: nat)
    requires forall n :: n in names ==> n in t.subs
    requires GoodTree(w, t, rel, depth) && Descends(w, depth) && GoodDir(rel) && 0 < w.batch.maxFiles <= MAX_FILES
    ensures GoodPlan(SubPlans(w, t, names, rel, depth))
    decreases t, 0, |names|
  {
    hide GoodDir, GoodDirName, Child;
    if names != [] {
      var n := names[0];
      SubTreeGood(w, t, rel, depth, n);
      WalkGood(w, t.subs[n], Child(rel, n), depth + 1);
      SubsGood(w, t, names[1..], rel, depth);
      GoodAppend(WalkPlan(w, t.subs[n], Child(rel, n), depth + 1), SubPlans(w, t, names[1..], rel, depth));
    }
  }

  lemma SubTreeGood(w: WalkLimits, t: Tree, rel: Path, depth: nat, n: Name)
    requires GoodTree(w, t, rel, depth) && Descends(w, depth) && GoodDir(rel) && n in t.subs
    ensures GoodDirName(n) && GoodTree(w, t.subs[n], Child(rel, n), depth + 1) && GoodDir(Child(rel, n))
  {
    hide GoodDir, GoodDirName, Child, Join;
    assert |Join(Child(rel, n))| < PATH_MAX;
    ChildGood(rel, n);
  }

  // ---------------------------------------------------------------- what is sent is what is visible

  ghost function SubsSent(w: WalkLimits, t: Tree, names: seq<Name>, rel: Path, depth: nat): seq<(Path, FileSpec)>
    requires forall n :: n in names ==> n in t.subs
  {
    Sent(SubPlans(w, t, names, rel, depth))
  }

  /** The files sent for a directory: its own in name order, then those of each subdirectory in name order. */
  lemma WalkSent(w: WalkLimits, t: Tree, rel: Path, depth: nat)
    ensures var subs := SortedNames(t.subs.Keys);
      (forall n :: n in subs <==> n in t.subs) &&
      Sent(WalkPlan(w, t, rel, depth)) ==
        Located(rel, FilesOf(t)) + if Descends(w, depth) then SubsSent(w, t, subs, rel, depth) else []
  {
    hide DirCommands, Located, SubPlans;
    SortedNamesMembers(t.subs.Keys);
    DirCommandsSent(w.batch, rel, FilesOf(t));
    var rest := if Descends(w, depth) then SubPlans(w, t, SortedNames(t.subs.Keys), rel, depth) else [];
    SentAppend(DirCommands(w.batch, rel, FilesOf(t)), rest);
  }

  lemma SubsSentCons(w: WalkLimits, t: Tree, names: seq<Name>, rel: Path, depth: nat)
    requires names != [] && forall n :: n in names ==> n in t.subs
    ensures SubsSent(w, t, names, rel, depth) ==
      Sent(WalkPlan(w, t.subs[names[0]], Child(rel, names[0]), depth + 1)) + SubsSent(w, t, names[1..], rel, depth)
  {
    hide WalkPlan;
    SentAppend(WalkPlan(w, t.subs[names[0]], Child(rel, names[0]), depth + 1), SubPlans(w, t, names[1..], rel, depth));
  }

  /** The file at relative path `q`, as the walk from `rel` sends it. */
  ghost function SentAs(w: WalkLimits, t: Tree, rel: Path, q: Path, depth: nat): (Path, FileSpec)
    requires Visible(w, t, q, depth)
  {
    (rel + q, FileSpec(Leaf(q), ContentAt(w, t, q, depth)))
  }

  /** Everything the walk sends lies below `rel`, is visible there, and carries the tree's content. */
  lemma {:induction false} SentIsVisible(w: WalkLimits, t: Tree, rel: Path, depth: nat, k: nat) returns (q: Path)
    requires k < |Sent(WalkPlan(w, t, rel, depth))|
    ensures Visible(w, t, q, depth) && Sent(WalkPlan(w, t, rel, depth))[k] == SentAs(w, t, rel, q, depth)
    decreases t, 1, 0
  {
    hide WalkPlan, Sent, SubsSent;
    WalkSent(w, t, rel, depth);
    SortedNamesMembers(t.files.Keys);
    var files := FilesOf(t);
    if k < |files| {
      q := [files[k].name];
      assert Child(rel, files[k].name) == rel + q;
    } else {
      var subs := SortedNames(t.subs.Keys);
      assert Sent(WalkPlan(w, t, rel, depth))[k] == SubsSent(w, t, subs, rel, depth)[k - |files|];
      q := SubSentIsVisible(w, t, subs, rel, depth, k - |files|);
    }
  }

  lemma {:induction false} SubSentIsVisible(w: WalkLimits, t: Tree, names: seq<Name>, rel: Path, depth: nat, k: nat)
    returns (q: Path)
    requires forall n :: n in names ==> n in t.subs
    requires Descends(w, depth) && k < |SubsSent(w, t, names, rel, depth)|
    ensures Visible(w, t, q, depth) && |q| > 1 && q[0] in names &&
      SubsSent(w, t, names, rel, depth)[k] == SentAs(w, t, rel, q, depth)
    decreases t, 0, |names|
  {
    hide WalkPlan;
    if names == [] {
      q := [];
      assert false;
    } else {
      hide SubsSent, Sent;
      SubsSentCons(w, t, names, rel, depth);
      var n := names[0];
      var first := Sent(WalkPlan(w, t.subs[n], Child(rel, n), depth + 1));
      if k < |first| {
        var below := SentIsVisible(w, t.subs[n], Child(rel, n), depth + 1, k);
        q := [n] + below;
        DeeperPath(w, t, rel, n, below, depth);
      } else {
        q := SubSentIsVisible(w, t, names[1..], rel, depth, k - |first|);
        assert q[0] in names;
      }
    }
  }

  lemma DeeperPath(w: WalkLimits, t: Tree, rel: Path, n: Name, below: Path, depth: nat)
    requires n in t.subs && Descends(w, depth) && Visible(w, t.subs[n], below, depth + 1)
    ensures Visible(w, t, [n] + below, depth)
    ensures SentAs(w, t.subs[n], Child(rel, n), below, depth + 1) == SentAs(w, t, rel, [n] + below, depth)
  {
    assert ([n] + below)[1..] == below;
    assert Child(rel, n) + below == rel + ([n] + below);
  }

  /** Every visible file is sent. */
  lemma {:induction false} VisibleIsSent(w: WalkLimits, t: Tree, rel: Path, depth: nat, q: Path) returns (k: nat)
    requires Visible(w, t, q, depth)
    ensures k < |Sent(WalkPlan(w, t, rel, depth))| && Sent(WalkPlan(w, t, rel, depth))[k] == SentAs(w, t, rel, q, depth)
    decreases t, 1, 0
  {
    hide WalkPlan, Sent, SubsSent;
    WalkSent(w, t, rel, depth);
    SortedNamesMembers(t.files.Keys);
    var files := FilesOf(t);
    if |q| == 1 {
      var names := SortedNames(t.files.Keys);
      assert q[0] in names;
      k :| 0 <= k < |names| && names[k] == q[0];
      assert Child(rel, files[k].name) == rel + q;
    } else {
      var subs := SortedNames(t.subs.Keys);
      var j := VisibleSubIsSent(w, t, subs, rel, depth, q);
      k := |files| + j;
    }
  }

  lemma {:induction false} VisibleSubIsSent(w: WalkLimits, t: Tree, names: seq<Name>, rel: Path, depth: nat, q: Path)
    returns (k: nat)
    requires forall n :: n in names ==> n in t.subs
    requires Visible(w, t, q, depth) && |q| > 1 && q[0] in names
    ensures k < |SubsSent(w, t, names, rel, depth)| &&
      SubsSent(w, t, names, rel, depth)[k] == SentAs(w, t, rel, q, depth)
    decreases t, 0, |names|
  {
    hide WalkPlan, Sent, SubsSent;
    SubsSentCons(w, t, names, rel, depth);
    var n := names[0];
    if q[0] == n {
      k := VisibleIsSent(w, t.subs[n], Child(rel, n), depth + 1, q[1..]);
      assert q == [n] + q[1..];
      DeeperPath(w, t, rel, n, q[1..], depth);
    } else {
      var j := VisibleSubIsSent(w, t, names[1..], rel, depth, q);
      k := |Sent(WalkPlan(w, t.subs[n], Child(rel, n), depth + 1))| + j;
    }
  }

  // ---------------------------------------------------------------- no path is sent twice

  lemma DistinctAppend(a: seq<(Path, FileSpec)>, b: seq<(Path, FileSpec)>)
    requires DistinctPaths(a) && DistinctPaths(b)
    requires forall i, j :: 0 <= i < |a| && 0 <= j < |b| ==> a[i].0 != b[j].0
    ensures DistinctPaths(a + b)
  {
  }

  lemma LocatedDistinct(rel: Path, names: seq<Name>, files: map<Name, seq<byte>>)
    requires NoRepeats(names) && forall n :: n in names ==> n in files
    ensures DistinctPaths(Located(rel, Specs(names, files)))
  {
    hide Child;
  }

  lemma {:induction false} WalkDistinct(w: WalkLimits, t: Tree, rel: Path, depth: nat)
    ensures DistinctPaths(Sent(WalkPlan(w, t, rel, depth)))
    decreases t, 1, 0
  {
    hide WalkPlan, Sent, SubsSent, DistinctPaths, Child;
    WalkSent(w, t, rel, depth);
    SortedNamesMembers(t.files.Keys);
    SortedNamesSorted(t.files.Keys);
    LocatedDistinct(rel, SortedNames(t.files.Keys), t.files);
    var own, subs := Located(rel, FilesOf(t)), SortedNames(t.subs.Keys);
    if Descends(w, depth) {
      SortedNamesSorted(t.subs.Keys);
      SubsDistinct(w, t, subs, rel, depth);
      forall i, j | 0 <= i < |own| && 0 <= j < |SubsSent(w, t, subs, rel, depth)|
        ensures own[i].0 != SubsSent(w, t, subs, rel, depth)[j].0
      {
        var q := SubSentIsVisible(w, t, subs, rel, depth, j);
        ChildLength(rel, FilesOf(t)[i].name);
        assert |rel + q| > |rel| + 1;
      }
      DistinctAppend(own, SubsSent(w, t, subs, rel, depth));
    } else {
      assert own + [] == own;
    }
  }

  lemma ChildLength(rel: Path, n: Name)
    ensures |Child(rel, n)| == |rel| + 1 && Child(rel, n)[|rel|] == n
  {
  }

  lemma {:induction false} SubsDistinct(w: WalkLimits, t: Tree, names: seq<Name>, rel: Path, depth: nat)
    requires NoRepeats(names) && Descends(w, depth) && forall n :: n in names ==> n in t.subs
    ensures DistinctPaths(SubsSent(w, t, names, rel, depth))
    decreases t, 0, |names|
  {
    hide WalkPlan, Sent, DistinctPaths, Child;
    if names == [] {
      NoneDistinct(w, t, rel, depth);
    } else {
      var n := names[0];
      SubsSentCons(w, t, names, rel, depth);
      WalkDistinct(w, t.subs[n], Child(rel, n), depth + 1);
      SubsDistinct(w, t, names[1..], rel, depth);
      var first, rest := Sent(WalkPlan(w, t.subs[n], Child(rel, n), depth + 1)), SubsSent(w, t, names[1..], rel, depth);
      forall i, j | 0 <= i < |first| && 0 <= j < |rest| ensures first[i].0 != rest[j].0 {
        var below := SentIsVisible(w, t.subs[n], Child(rel, n), depth + 1, i);
        var q := SubSentIsVisible(w, t, names[1..], rel, depth, j);
        ChildLength(rel, n);
        assert (Child(rel, n) + below)[|rel|] == n && (rel + q)[|rel|] == q[0];
        OtherName(names, q[0]);
      }
      DistinctAppend(first, rest);
    }
  }

  lemma OtherName(names: seq<Name>, m: Name)
    requires names != [] && NoRepeats(names) && m in names[1..]
    ensures m != names[0]
  {
  }

  lemma NoneDistinct(w: WalkLimits, t: Tree, rel: Path, depth: nat)
    ensures DistinctPaths(SubsSent(w, t, [], rel, depth))
  {
  }

  // ---------------------------------------------------------------- directories

  /** Every command concerns a directory that holds a visible file. */
  lemma {:induction false} CommandHasFile(w: WalkLimits, t: Tree, rel: Path, depth: nat, i: nat) returns (q: Path)
    requires i < |WalkPlan(w, t, rel, depth)|
    ensures Visible(w, t, q, depth) && WalkPlan(w, t, rel, depth)[i].dir == Parent(rel + q)
    decreases t, 1, 0
  {
    hide SubPlans, DirCommands;
    SortedNamesMembers(t.subs.Keys);
    SortedNamesMembers(t.files.Keys);
    var own := DirCommands(w.batch, rel, FilesOf(t));
    if i < |own| {
      OwnCommands(w.batch, rel, FilesOf(t), i);
      q := [FilesOf(t)[0].name];
      assert Parent(rel + q) == rel;
    } else {
      q := SubCommandHasFile(w, t, SortedNames(t.subs.Keys), rel, depth, i - |own|);
    }
  }

  lemma OwnCommands(lim: Limits, dir: Path, files: seq<FileSpec>, i: nat)
    requires i < |DirCommands(lim, dir, files)|
    ensures files != [] && DirCommands(lim, dir, files)[i].dir == dir
  {
    hide Batches;
    if i > 0 {
      BatchCommandsDir(dir, Batches(lim, files), i - 1);
    }
  }

  lemma {:induction false} BatchCommandsDir(dir: Path, batches: seq<seq<FileSpec>>, i: nat)
    requires i < |BatchCommands(dir, batches)|
    ensures BatchCommands(dir, batches)[i].dir == dir
  {
    if i > 0 {
      BatchCommandsDir(dir, batches[1..], i - 1);
    }
  }

  lemma {:induction false} SubCommandHasFile(w: WalkLimits, t: Tree, names: seq<Name>, rel: Path, depth: nat, i: nat)
    returns (q: Path)
    requires forall n :: n in names ==> n in t.subs
    requires Descends(w, depth) && i < |SubPlans(w, t, names, rel, depth)|
    ensures Visible(w, t, q, depth) && SubPlans(w, t, names, rel, depth)[i].dir == Parent(rel + q)
    decreases t, 0, |names|
  {
    hide WalkPlan;
    var n := names[0];
    var first := WalkPlan(w, t.subs[n], Child(rel, n), depth + 1);
    if i < |first| {
      var below := CommandHasFile(w, t.subs[n], Child(rel, n), depth + 1, i);
      q := [n] + below;
      DeeperPath(w, t, rel, n, below, depth);
      assert Child(rel, n) + below == rel + q;
    } else {
      q := SubCommandHasFile(w, t, names[1..], rel, depth, i - |first|);
    }
  }

  /** `q` is a directory above some visible file: what the receiver needs as a directory. */
  ghost predicate Needed(w: WalkLimits, t: Tree, q: Path) {
    exists p :: Visible(w, t, p, 0) && Above(q, Parent(p))
  }

  lemma PlanDirIsNeeded(w: WalkLimits, t: Tree, q: Path)
    ensures PlanDir(WalkPlan(w, t, [], 0), q) ==> Needed(w, t, q)
  {
    hide WalkPlan, Above;
    var plan := WalkPlan(w, t, [], 0);
    if PlanDir(plan, q) {
      var i :| 0 <= i < |plan| && Above(q, plan[i].dir);
      var p := CommandHasFile(w, t, [], 0, i);
      assert [] + p == p;
    }
  }

  lemma {:induction false} PlannedIsSent(plan: Plan, p: Path)
    requires PlanFile(plan, p)
    ensures exists k :: 0 <= k < |Sent(plan)| && Sent(plan)[k].0 == p
  {
    hide Child;
    var i :| 0 <= i < |plan| && InBatchOf(plan[i], p);
    if i > 0 {
      assert plan[1..][i - 1] == plan[i];
      PlannedIsSent(plan[1..], p);
      var k :| 0 <= k < |Sent(plan[1..])| && Sent(plan[1..])[k].0 == p;
      var before := if plan[0].Batch? then |plan[0].files| else 0;
      assert Sent(plan)[before + k] == Sent(plan[1..])[k];
    } else {
      var j :| 0 <= j < |plan[0].files| && p == Child(plan[0].dir, plan[0].files[j].name);
      assert Sent(plan)[j] == Located(plan[0].dir, plan[0].files)[j];
    }
  }

  lemma PlanFileIsVisible(w: WalkLimits, t: Tree, p: Path)
    ensures PlanFile(WalkPlan(w, t, [], 0), p) ==> Visible(w, t, p, 0)
  {
    hide WalkPlan, Sent;
    var plan := WalkPlan(w, t, [], 0);
    if PlanFile(plan, p) {
      PlannedIsSent(plan, p);
      var k :| 0 <= k < |Sent(plan)| && Sent(plan)[k].0 == p;
      var q := SentIsVisible(w, t, [], 0, k);
      assert [] + q == q;
    }
  }

  /** A directory that holds a visible file is announced, and so its ancestors come to be. */
  lemma {:induction false} SentDirEntered(plan: Plan, current: Option<Path>, k: nat)
    requires WellOrdered(plan, current) && k < |Sent(plan)|
    ensures (current.Some? && Parent(Sent(plan)[k].0) == current.value) ||
            (exists i :: 0 <= i < |plan| && plan[i].Enter? && plan[i].dir == Parent(Sent(plan)[k].0))
    decreases |plan|
  {
    hide Child;
    var p := Sent(plan)[k].0;
    if plan[0].Batch? && k < |plan[0].files| {
    } else {
      var j := if plan[0].Batch? then k - |plan[0].files| else k;
      assert Sent(plan)[k] == Sent(plan[1..])[j];
      var next := match plan[0] case Enter(dir) => Some(dir) case Batch(_, _) => current;
      SentDirEntered(plan[1..], next, j);
      if i :| 0 <= i < |plan[1..]| && plan[1..][i].Enter? && plan[1..][i].dir == Parent(p) {
        assert plan[i + 1] == plan[1..][i];
      } else {
        assert next.Some? && Parent(p) == next.value;
        if plan[0].Enter? { assert plan[0].dir == Parent(p); }
      }
    }
  }

  /** A name is not both a file and a directory, so no visible file is also needed as a directory. */
  lemma {:induction false} VisibleIsNoDir(w: WalkLimits, t: Tree, rel: Path, depth: nat, q: Path, p: Path)
    requires GoodTree(w, t, rel, depth) && Visible(w, t, q, depth) && Visible(w, t, p, depth)
    ensures !Above(q, Parent(p))
    decreases t
  {
    hide GoodFileName, GoodDirName, Join;
    if Above(q, Parent(p)) {
      assert q[0] == p[0] && |p| > 1;
      if |q| > 1 {
        assert Above(q[1..], Parent(p[1..])) by { assert Parent(p)[1..] == Parent(p[1..]); }
        VisibleIsNoDir(w, t.subs[q[0]], Child(rel, q[0]), depth + 1, q[1..], p[1..]);
      }
    }
  }

  // ---------------------------------------------------------------- the plan of a tree

  /** The destination has no file where the snapshot needs a directory, and no directory where it has a file. */
  ghost predicate NoClashWith(fs: FS, w: WalkLimits, t: Tree) {
    IsDir(fs, []) &&
    (forall p :: Visible(w, t, p, 0) && p in fs ==> fs[p].File?) &&
    (forall q :: Needed(w, t, q) && q in fs ==> fs[q].Dir?)
  }

  /** The plan the walk makes of a good tree is one that can be transferred. */
  lemma TreePlan(fs: FS, w: WalkLimits, t: Tree)
    requires GoodTree(w, t, [], 0) && 0 < w.batch.maxFiles <= MAX_FILES && NoClashWith(fs, w, t)
    ensures var plan := WalkPlan(w, t, [], 0);
      GoodPlan(plan) && WellOrdered(plan, None) && NoClash(fs, plan) && DistinctPaths(Sent(plan))
  {
    hide WalkPlan, GoodTree, PlanDir, PlanFile, GoodPlan, Visible, Needed, DistinctPaths;
    var plan := WalkPlan(w, t, [], 0);
    RootGood();
    WalkGood(w, t, [], 0);
    WalkOrdered(w, t, [], 0);
    WalkDistinct(w, t, [], 0);
    forall p ensures PlanFile(plan, p) ==> Visible(w, t, p, 0) && !PlanDir(plan, p) {
      PlanFileIsVisible(w, t, p);
      PlanDirIsNeeded(w, t, p);
      if PlanFile(plan, p) {
        NotNeeded(w, t, p);
      }
    }
    forall q ensures PlanDir(plan, q) ==> Needed(w, t, q) {
      PlanDirIsNeeded(w, t, q);
    }
  }

  lemma RootGood()
    ensures GoodDir([])
  {
  }

  lemma NotNeeded(w: WalkLimits, t: Tree, q: Path)
    requires GoodTree(w, t, [], 0) && Visible(w, t, q, 0)
    ensures !Needed(w, t, q)
  {
    hide GoodTree;
    forall p | Visible(w, t, p, 0) ensures !Above(q, Parent(p)) {
      VisibleIsNoDir(w, t, [], 0, q, p);
    }
  }
}
