/** Which files of a tree the walk reaches and in which order it sends them, without the walk's own recursion. */
module WalkOrder {
  import opened FileSystem
  import opened Snapshot
  import opened Names
  import opened Trees

  // ---------------------------------------------------------------- how deep

  /** `q` is the relative path of a file of the tree, however deep. */
  ghost predicate InTree(t: Tree, q: Path)
    decreases t
  {
    q != [] && if |q| == 1 then q[0] in t.files else q[0] in t.subs && InTree(t.subs[q[0]], q[1..])
  }

  /**
   * What the depth limit cuts off, in a walk that has gone down `depth` directories already: a file of the starting
   * directory is always reached; without a limit every file is; otherwise those at most one level below the limit.
   */
  lemma {:induction false} VisibleExactly(w: WalkLimits, t: Tree, q: Path, depth: nat)
    ensures Visible(w, t, q, depth) <==>
      InTree(t, q) && (w.maxDepth == 0 || |q| == 1 || depth + |q| <= w.maxDepth + 1)
    decreases t
  {
    if |q| > 1 && q[0] in t.subs {
      VisibleExactly(w, t.subs[q[0]], q[1..], depth + 1);
    }
  }

  /** From the root: a file is sent if and only if at most `maxDepth` directories lie above it (or no limit is set). */
  lemma {:induction false} SentIffInReach(w: WalkLimits, t: Tree, q: Path)
    ensures IsSent(Sent(WalkPlan(w, t, [], 0)), q) <==>
      InTree(t, q) && (w.maxDepth == 0 || |Parent(q)| <= w.maxDepth)
  {
    hide WalkPlan, Sent, Visible, InTree;
    VisibleExactly(w, t, q, 0);
    var files := Sent(WalkPlan(w, t, [], 0));
    assert [] + q == q;
    if Visible(w, t, q, 0) {
      var k := VisibleIsSent(w, t, [], 0, q);
    }
    if IsSent(files, q) {
      var i :| 0 <= i < |files| && files[i].0 == q;
      var p := SentIsVisible(w, t, [], 0, i);
      assert [] + p == p;
    }
  }

  // ---------------------------------------------------------------- in which order

  /** strcmp(a, b) < 0: a proper prefix, or the smaller byte at the first difference. */
  ghost predicate NameBefore(a: Name, b: Name) { a != b && (a <= b || exists i: nat :: SmallerAt(a, b, i)) }

  lemma NameBeforeIs(a: Name, b: Name)
    ensures NameBefore(a, b) <==> a != b && AtMost(a, b)
    ensures !(NameBefore(a, b) && NameBefore(b, a))
  {
    hide AtMost;
    AtMostExactly(a, b);
    AtMostExactly(b, a);
    AtMostTotal(a, b);
  }

  /**
   * The paths agree up to component `i`, which is below one directory: there a file of that directory comes before
   * anything in its subdirectories, and files among themselves, and subdirectories among themselves, come by name.
   */
  ghost predicate PartAt(p: Path, q: Path, i: nat) {
    i < |p| && i < |q| && p[..i] == q[..i] &&
    if |p| == i + 1 && |q| > i + 1 then true
    else (|p| == i + 1 <==> |q| == i + 1) && NameBefore(p[i], q[i])
  }

  ghost predicate Precedes(p: Path, q: Path) { exists i: nat :: PartAt(p, q, i) }

  /** No two paths precede each other: the order leaves one possible sequence of given files. */
  lemma PrecedesOneWay(p: Path, q: Path)
    requires Precedes(p, q)
    ensures !Precedes(q, p) && p != q
  {
    hide NameBefore;
    var i: nat :| PartAt(p, q, i);
    forall a, b: Name ensures !(NameBefore(a, b) && NameBefore(b, a)) { NameBeforeIs(a, b); }
    forall j: nat ensures !PartAt(q, p, j) {
      if PartAt(q, p, j) {
        if j < i {
          assert p[..i][j] == q[..i][j];
          NameBeforeIs(q[j], p[j]);
        } else if i < j {
          assert p[..j][i] == q[..j][i];
          NameBeforeIs(p[i], q[i]);
        }
      }
    }
  }

  ghost predicate InOrder(files: seq<(Path, FileSpec)>) {
    forall k, l :: 0 <= k < l < |files| ==> Precedes(files[k].0, files[l].0)
  }

  lemma InOrderAppend(a: seq<(Path, FileSpec)>, b: seq<(Path, FileSpec)>)
    requires InOrder(a) && InOrder(b)
    requires forall i, j :: 0 <= i < |a| && 0 <= j < |b| ==> Precedes(a[i].0, b[j].0)
    ensures InOrder(a + b)
  {
    hide Precedes;
  }

  /** The sorted listing ascends. */
  lemma SortedAscends(s: set<Name>, i: nat, j: nat)
    requires i < j < |SortedNames(s)|
    ensures NameBefore(SortedNames(s)[i], SortedNames(s)[j])
  {
    SortedNamesSorted(s);
    NameBeforeIs(SortedNames(s)[i], SortedNames(s)[j]);
  }

  lemma OwnInOrder(rel: Path, t: Tree)
    ensures InOrder(Located(rel, FilesOf(t)))
  {
    hide NameBefore, Child;
    SortedNamesMembers(t.files.Keys);
    var own := Located(rel, FilesOf(t));
    forall k, l | 0 <= k < l < |own| ensures Precedes(own[k].0, own[l].0) {
      SortedAscends(t.files.Keys, k, l);
      ChildParts(rel, FilesOf(t)[k].name);
      ChildParts(rel, FilesOf(t)[l].name);
      assert PartAt(own[k].0, own[l].0, |rel|);
    }
  }

  lemma ChildParts(rel: Path, n: Name)
    ensures |Child(rel, n)| == |rel| + 1 && Child(rel, n)[..|rel|] == rel && Child(rel, n)[|rel|] == n
  {
  }

  /** The directory's own files come before those below it, and a subdirectory's before a later subdirectory's. */
  lemma OwnFirst(rel: Path, n: Name, q: Path)
    requires |q| > 1
    ensures Precedes(Child(rel, n), rel + q)
  {
    hide NameBefore, Child;
    ChildParts(rel, n);
    assert PartAt(Child(rel, n), rel + q, |rel|);
  }

  lemma SubFirst(rel: Path, n: Name, below: Path, q: Path)
    requires below != [] && |q| > 1 && NameBefore(n, q[0])
    ensures Precedes(Child(rel, n) + below, rel + q)
  {
    hide NameBefore, Child;
    ChildParts(rel, n);
    assert (Child(rel, n) + below)[..|rel|] == rel && (rel + q)[..|rel|] == rel;
    assert PartAt(Child(rel, n) + below, rel + q, |rel|);
  }

  /** Depth first, by name: of any two files sent, the one sent first is the one that precedes. */
  lemma {:induction false} WalkInOrder(w: WalkLimits, t: Tree, rel: Path, depth: nat)
    ensures InOrder(Sent(WalkPlan(w, t, rel, depth)))
    decreases t, 1, 0
  {
    hide WalkPlan, Sent, SubsSent, InOrder, Child, Precedes;
    WalkSent(w, t, rel, depth);
    SortedNamesMembers(t.files.Keys);
    OwnInOrder(rel, t);
    var own, subs := Located(rel, FilesOf(t)), SortedNames(t.subs.Keys);
    if Descends(w, depth) {
      SubsInOrder(w, t, subs, t.subs.Keys, rel, depth);
      forall i, j | 0 <= i < |own| && 0 <= j < |SubsSent(w, t, subs, rel, depth)|
        ensures Precedes(own[i].0, SubsSent(w, t, subs, rel, depth)[j].0)
      {
        var q := SubSentIsVisible(w, t, subs, rel, depth, j);
        OwnFirst(rel, FilesOf(t)[i].name, q);
      }
      InOrderAppend(own, SubsSent(w, t, subs, rel, depth));
    } else {
      assert own + [] == own;
    }
  }

  lemma {:induction false} SubsInOrder(w: WalkLimits, t: Tree, names: seq<Name>, all: set<Name>, rel: Path, depth: nat)
    requires Descends(w, depth) && names == SortedNames(all) && all <= t.subs.Keys
    ensures forall n :: n in names ==> n in t.subs
    ensures InOrder(SubsSent(w, t, names, rel, depth))
    decreases t, 0, |names|
  {
    hide WalkPlan, Sent, InOrder, Child, Precedes, NameBefore;
    SortedNamesMembers(all);
    if names == [] {
      NoneInOrder(w, t, rel, depth);
    } else {
      var n := names[0];
      assert names[1..] == SortedNames(all - {n});
      SubsSentCons(w, t, names, rel, depth);
      WalkInOrder(w, t.subs[n], Child(rel, n), depth + 1);
      SubsInOrder(w, t, names[1..], all - {n}, rel, depth);
      var first, rest := Sent(WalkPlan(w, t.subs[n], Child(rel, n), depth + 1)), SubsSent(w, t, names[1..], rel, depth);
      forall i, j | 0 <= i < |first| && 0 <= j < |rest| ensures Precedes(first[i].0, rest[j].0) {
        var below := SentIsVisible(w, t.subs[n], Child(rel, n), depth + 1, i);
        var q := SubSentIsVisible(w, t, names[1..], rel, depth, j);
        var k :| 0 <= k < |names[1..]| && names[1..][k] == q[0];
        SortedAscends(all, 0, k + 1);
        SubFirst(rel, n, below, q);
      }
      InOrderAppend(first, rest);
    }
  }

  lemma NoneInOrder(w: WalkLimits, t: Tree, rel: Path, depth: nat)
    ensures InOrder(SubsSent(w, t, [], rel, depth))
  {
  }

  /** Of two files sent, the earlier one precedes, and only the earlier one. */
  lemma SentInOrder(w: WalkLimits, t: Tree, k: nat, l: nat)
    requires k < |Sent(WalkPlan(w, t, [], 0))| && l < |Sent(WalkPlan(w, t, [], 0))|
    ensures k < l <==> Precedes(Sent(WalkPlan(w, t, [], 0))[k].0, Sent(WalkPlan(w, t, [], 0))[l].0)
  {
    hide WalkPlan, Sent, Precedes;
    WalkInOrder(w, t, [], 0);
    var files := Sent(WalkPlan(w, t, [], 0));
    if k < l { assert Precedes(files[k].0, files[l].0); }
    if l < k { PrecedesOneWay(files[l].0, files[k].0); }
    if Precedes(files[k].0, files[l].0) { PrecedesOneWay(files[k].0, files[l].0); }
  }

  // ---------------------------------------------------------------- how much

  function SizesOf(files: seq<(Path, FileSpec)>): nat {
    if files == [] then 0 else |files[0].1.content| + SizesOf(files[1..])
  }

  lemma {:induction false} SizesAppend(dir: Path, files: seq<FileSpec>, rest: seq<(Path, FileSpec)>)
    ensures SizesOf(Located(dir, files) + rest) == BytesIn(files) + SizesOf(rest)
  {
    hide Child;
    var all := Located(dir, files) + rest;
    if files == [] {
      assert all == rest;
    } else {
      assert all[1..] == Located(dir, files[1..]) + rest;
      SizesAppend(dir, files[1..], rest);
    }
  }

  /** The totals of a plan are the number and the sizes of the files it sends. */
  lemma {:induction false} TotalsAreSent(plan: Plan)
    ensures PlanFileCount(plan) == |Sent(plan)| && PlanBytesIn(plan) == SizesOf(Sent(plan))
  {
    hide BytesIn;
    if plan != [] {
      TotalsAreSent(plan[1..]);
      if plan[0].Batch? {
        SizesAppend(plan[0].dir, plan[0].files, Sent(plan[1..]));
      }
    }
  }
}
