/** The destination tree: a map from paths to nodes, with the POSIX calls the receiver makes. */
module FileSystem {
  import opened Bytes

  type Name = seq<byte>
  type Path = seq<Name>
  datatype Node = Dir | File(content: seq<byte>)
  type FS = map<Path, Node>

  function Parent(p: Path): Path requires p != [] { p[..|p| - 1] }

  function Leaf(p: Path): Name requires p != [] { p[|p| - 1] }

  /** The path of `name` in directory `dir`. */
  function Child(dir: Path, name: Name): (p: Path)
    ensures p != [] && Parent(p) == dir && Leaf(p) == name
  {
    dir + [name]
  }

  lemma ChildOfParent(p: Path)
    requires p != []
    ensures Child(Parent(p), Leaf(p)) == p
  {
  }

  /** `q` is `p` or one of its ancestor directories. */
  predicate Above(q: Path, p: Path) { q <= p }

  predicate IsDir(fs: FS, p: Path) { p in fs && fs[p].Dir? }

  /** A name that `mkstemp` can make of the template ".tmp.XXXXXX". */
  predicate IsTempName(n: Name) { Ascii(".tmp.") <= n && |n| == 11 }

  predicate IsTemp(p: Path) { p != [] && IsTempName(Leaf(p)) }

  /** The regular files of a tree that are not temporaries: what the protocol's promises are about. */
  function Files(fs: FS): map<Path, Node> {
    map p | p in fs && fs[p].File? && !IsTemp(p) :: fs[p]
  }

  /** `mkdir`, with an existing path (of any kind) taken as success; None for a missing or non-directory parent. */
  function Mkdir(fs: FS, p: Path): Option<FS> {
    if p in fs then Some(fs)
    else if p != [] && IsDir(fs, Parent(p)) then Some(fs[p := Dir])
    else None
  }

  /** Create a directory and its ancestors, outermost first. A failure keeps what was created. */
  function MkdirP(fs: FS, p: Path): (r: (FS, bool))
    decreases |p|
  {
    if p == [] then (fs, [] in fs)
    else
      var (above, ok) := MkdirP(fs, Parent(p));
      if !ok then (above, false)
      else match Mkdir(above, p)
           case None => (above, false)
           case Some(made) => (made, true)
  }

  function Unlink(fs: FS, p: Path): FS {
    if p in fs && fs[p].File? then fs - {p} else fs
  }

  /** Atomic replace; None when the source is missing or the target is a directory. */
  function Rename(fs: FS, from: Path, to: Path): Option<FS> {
    if from !in fs || (to in fs && fs[to].Dir?) then None
    else Some((fs - {from})[to := fs[from]])
  }

  /**
   * `mkstemp` in directory `dir`, the random name being the next one of `tape`. It creates an
   * empty file under a name that is unused, and that no entry of the current batch carries.
   */
  function Mkstemp(fs: FS, dir: Path, tape: seq<Name>, taken: set<Name>): (r: Option<Name>)
    ensures r.Some? ==> tape != [] && r.value == tape[0] && IsTempName(r.value) && r.value !in taken
    ensures r.Some? ==> Child(dir, r.value) !in fs && IsDir(fs, dir)
  {
    if tape != [] && IsTempName(tape[0]) && tape[0] !in taken && Child(dir, tape[0]) !in fs && IsDir(fs, dir)
    then Some(tape[0]) else None
  }

  /** Making directories only adds directories, namely missing prefixes of the path; on success all prefixes exist. */
  lemma {:induction false} MkdirPAdds(fs: FS, p: Path)
    ensures var (made, ok) := MkdirP(fs, p);
      && (forall q :: q in fs ==> q in made && made[q] == fs[q])
      && (forall q :: q in made && q !in fs ==> made[q] == Dir && Above(q, p) && q != [])
      && (ok ==> forall q :: Above(q, p) ==> q in made)
    decreases |p|
  {
    if p != [] {
      MkdirPAdds(fs, Parent(p));
      forall q | Above(q, p) ensures Above(q, Parent(p)) || q == p {
        if |q| == |p| { assert q == p; }
      }
    }
  }

  /** It succeeds when no prefix of the path is a file, and then every prefix is a directory. */
  lemma {:induction false} MkdirPSucceeds(fs: FS, p: Path)
    requires [] in fs && forall q :: Above(q, p) && q in fs ==> fs[q].Dir?
    ensures MkdirP(fs, p).1
    ensures forall q :: Above(q, p) ==> IsDir(MkdirP(fs, p).0, q)
    decreases |p|
  {
    if p != [] {
      forall q | Above(q, Parent(p)) ensures Above(q, p) { }
      MkdirPSucceeds(fs, Parent(p));
      MkdirPAdds(fs, Parent(p));
      forall q | Above(q, p) ensures Above(q, Parent(p)) || q == p {
        if |q| == |p| { assert q == p; }
      }
    } else {
      forall q: Path | Above(q, p) ensures q == [] { }
    }
  }

  /** Every node lies in a directory. */
  ghost predicate IsTree(fs: FS) {
    IsDir(fs, []) && forall p :: p in fs && p != [] ==> IsDir(fs, Parent(p))
  }

  lemma {:induction false} MkdirPKeepsTree(fs: FS, p: Path)
    requires IsTree(fs)
    ensures IsTree(MkdirP(fs, p).0)
    decreases |p|
  {
    if p != [] {
      MkdirPKeepsTree(fs, Parent(p));
    }
  }

  /** A path of which a proper prefix is a file is not made: only a directory takes a new entry. */
  lemma {:induction false} MkdirPFails(fs: FS, p: Path, q: Path)
    requires IsTree(fs) && Above(q, p) && q != p && q in fs && fs[q].File?
    ensures !MkdirP(fs, p).1
    decreases |p|
  {
    if q == Parent(p) {
      assert p !in fs;
      MkdirPAdds(fs, q);
      assert p !in MkdirP(fs, q).0;
    } else {
      assert Above(q, Parent(p));
      MkdirPFails(fs, Parent(p), q);
    }
  }

  /**
   * It succeeds if and only if no proper prefix of the path is a file; the path itself may be one, an existing path
   * of any kind being taken as success.
   */
  lemma MkdirPExactly(fs: FS, p: Path)
    requires IsTree(fs)
    ensures MkdirP(fs, p).1 <==> forall q :: Above(q, p) && q != p && q in fs ==> fs[q].Dir?
  {
    if MkdirP(fs, p).1 {
      forall q | Above(q, p) && q != p && q in fs ensures fs[q].Dir? {
        if fs[q].File? { MkdirPFails(fs, p, q); }
      }
    }
    if p != [] && forall q :: Above(q, p) && q != p && q in fs ==> fs[q].Dir? {
      forall q | Above(q, Parent(p)) ensures Above(q, p) && q != p { }
      MkdirPSucceeds(fs, Parent(p));
    }
  }

  // ---------------------------------------------------------------- path strings

  function SegmentLength(s: seq<byte>): (k: nat)
    ensures k <= |s| && (forall i :: 0 <= i < k ==> s[i] != SLASH) && (k == |s| || s[k] == SLASH)
  {
    if s == [] || s[0] == SLASH then 0 else 1 + SegmentLength(s[1..])
  }

  /** The components of a relative path string; repeated, leading and trailing slashes add none. */
  function Components(s: seq<byte>): (p: Path)
    ensures forall i :: 0 <= i < |p| ==> IsComponent(p[i])
    decreases |s|
  {
    if s == [] then []
    else if s[0] == SLASH then Components(s[1..])
    else [s[..SegmentLength(s)]] + Components(s[SegmentLength(s)..])
  }

  predicate IsComponent(n: Name) { n != [] && SLASH !in n }

  predicate AreComponents(p: Path) { forall i :: 0 <= i < |p| ==> IsComponent(p[i]) }

  /** The relative path string the walker keeps for a list of directory names. */
  function Join(p: Path): seq<byte> {
    if p == [] then [] else if |p| == 1 then p[0] else Join(Parent(p)) + [SLASH] + Leaf(p)
  }

  lemma ComponentsOfOne(n: Name)
    requires IsComponent(n)
    ensures Components(n) == [n]
  {
    assert SegmentLength(n) == |n|;
    assert n[..|n|] == n && n[|n|..] == [];
  }

  lemma {:induction false} ComponentsSnoc(s: seq<byte>, n: Name)
    requires IsComponent(n)
    ensures Components(s + [SLASH] + n) == Components(s) + [n]
    decreases |s|
  {
    var whole := s + [SLASH] + n;
    if s == [] {
      assert whole[1..] == n;
      ComponentsOfOne(n);
    } else if s[0] == SLASH {
      assert whole[1..] == s[1..] + [SLASH] + n;
      ComponentsSnoc(s[1..], n);
    } else {
      var k := SegmentLength(s);
      SegmentStable(s, [SLASH] + n);
      assert whole == s + ([SLASH] + n);
      assert whole[..k] == s[..k] && whole[k..] == s[k..] + [SLASH] + n;
      ComponentsSnoc(s[k..], n);
    }
  }

  lemma SegmentStable(s: seq<byte>, tail: seq<byte>)
    requires tail != [] && tail[0] == SLASH
    ensures SegmentLength(s + tail) == SegmentLength(s)
  {
    var k := SegmentLength(s);
    assert forall i :: 0 <= i < k ==> (s + tail)[i] == s[i];
    assert (s + tail)[k] == SLASH;
  }

  /** Splitting a joined path gives back the directory names. */
  lemma {:induction false} ComponentsOfJoin(p: Path)
    requires AreComponents(p)
    ensures Components(Join(p)) == p
  {
    if |p| == 1 {
      ComponentsOfOne(p[0]);
    } else if |p| > 1 {
      ComponentsOfJoin(Parent(p));
      ComponentsSnoc(Join(Parent(p)), Leaf(p));
      assert Parent(p) + [Leaf(p)] == p;
    }
  }

  /** `base` and `name` with one slash between them; None when the result does not fit a buffer of `size` bytes. */
  function PathJoin(base: seq<byte>, name: seq<byte>, size: nat): Option<seq<byte>> {
    if |base| >= size then None
    else
      var slashed := Slashed(base);
      if |slashed| >= size || |slashed| + |name| >= size then None else Some(slashed + name)
  }

  function Slashed(base: seq<byte>): seq<byte> {
    if base != [] && base[|base| - 1] != SLASH then base + [SLASH] else base
  }

  /** The joined path is given if and only if it and its terminator fit; one slash is put in unless one is there. */
  lemma PathJoinExactly(base: seq<byte>, name: seq<byte>, size: nat)
    ensures var whole := base + (if base != [] && base[|base| - 1] != SLASH then [SLASH] else []) + name;
      PathJoin(base, name, size) == if |whole| < size then Some(whole) else None
  {
    assert base + [] == base;
  }

  /** Joining a name to a relative path that is not the root's is the path of the child. */
  lemma JoinChild(dir: Path, name: Name, size: nat)
    requires AreComponents(dir) && dir != [] && PathJoin(Join(dir), name, size).Some?
    ensures PathJoin(Join(dir), name, size).value == Join(Child(dir, name))
    ensures Join(dir) != []
  {
    JoinEndsInName(dir);
    assert Parent(Child(dir, name)) == dir;
  }

  lemma {:induction false} JoinEndsInName(dir: Path)
    requires AreComponents(dir) && dir != []
    ensures Join(dir) != [] && Join(dir)[|Join(dir)| - 1] != SLASH
  {
    assert IsComponent(Leaf(dir));
  }
}
