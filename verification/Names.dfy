/** The order of directory entries: strcmp on names, and why sorting is canonical. */
module Names {
  import opened FileSystem

  /** strcmp(a, b) <= 0 for names without NUL: bytes compared as unsigned, a prefix comes first. */
  predicate AtMost(a: Name, b: Name) {
    a == [] || (b != [] && (a[0] < b[0] || (a[0] == b[0] && AtMost(a[1..], b[1..]))))
  }

  /** Names that agree before position `i`, where `a` has the smaller byte. */
  ghost predicate SmallerAt(a: Name, b: Name, i: nat) {
    i < |a| && i < |b| && a[..i] == b[..i] && a[i] < b[i]
  }

  lemma FirstDiffers(a: Name, b: Name, i: nat)
    requires SmallerAt(a, b, i)
    ensures i > 0 ==> a[0] == b[0]
  {
    if i > 0 {
      assert a[..i][0] == b[..i][0];
    }
  }

  /** The order without the recursion: a prefix of the other name, or the smaller byte at the first difference. */
  lemma {:induction false} AtMostExactly(a: Name, b: Name)
    ensures AtMost(a, b) <==> a <= b || exists i: nat :: SmallerAt(a, b, i)
  {
    if a != [] && b != [] && a[0] == b[0] {
      AtMostExactly(a[1..], b[1..]);
      assert a <= b <==> a[1..] <= b[1..] by {
        assert a == [a[0]] + a[1..] && b == [b[0]] + b[1..];
      }
      if i: nat :| SmallerAt(a[1..], b[1..], i) {
        assert a[..i + 1] == [a[0]] + a[1..][..i] && b[..i + 1] == [b[0]] + b[1..][..i];
        assert SmallerAt(a, b, i + 1);
      }
      if i: nat :| SmallerAt(a, b, i) {
        assert i > 0 && a[1..][..i - 1] == a[..i][1..] && b[1..][..i - 1] == b[..i][1..];
        assert SmallerAt(a[1..], b[1..], i - 1);
      }
    } else if a != [] && b != [] {
      assert a[..0] == b[..0] && !(a <= b);
      assert SmallerAt(a, b, 0) <==> a[0] < b[0];
      forall i: nat | SmallerAt(a, b, i) ensures i == 0 {
        FirstDiffers(a, b, i);
      }
    }
  }

  lemma {:induction false} AtMostTotal(a: Name, b: Name)
    ensures AtMost(a, b) || AtMost(b, a)
    ensures AtMost(a, b) && AtMost(b, a) ==> a == b
  {
    if a != [] && b != [] && a[0] == b[0] {
      AtMostTotal(a[1..], b[1..]);
      assert a == [a[0]] + a[1..] && b == [b[0]] + b[1..];
    }
  }

  lemma {:induction false} AtMostTransitive(a: Name, b: Name, c: Name)
    requires AtMost(a, b) && AtMost(b, c)
    ensures AtMost(a, c)
  {
    if a != [] && b != [] && c != [] && a[0] == b[0] == c[0] {
      AtMostTransitive(a[1..], b[1..], c[1..]);
    }
  }

  ghost predicate Sorted(names: seq<Name>) {
    forall i, j :: 0 <= i < j < |names| ==> AtMost(names[i], names[j])
  }

  ghost predicate NoRepeats(names: seq<Name>) {
    forall i, j :: 0 <= i < j < |names| ==> names[i] != names[j]
  }

  function Elements(names: seq<Name>): set<Name> { set i | 0 <= i < |names| :: names[i] }

  ghost predicate IsLeast(m: Name, s: set<Name>) { m in s && forall x :: x in s ==> AtMost(m, x) }

  lemma {:induction false} LeastExists(s: set<Name>) returns (m: Name)
    requires s != {}
    ensures IsLeast(m, s)
    decreases |s|
  {
    var x :| x in s;
    if s == {x} {
      m := x;
      AtMostTotal(x, x);
    } else {
      var rest := s - {x};
      assert s == rest + {x};
      assert rest != {};
      var y := LeastExists(rest);
      AtMostTotal(x, y);
      if AtMost(x, y) {
        m := x;
        forall z | z in s ensures AtMost(m, z) {
          if z == x { AtMostTotal(x, x); } else { AtMostTransitive(x, y, z); }
        }
      } else {
        m := y;
      }
    }
  }

  /** The names of a directory in sorted order. */
  ghost function SortedNames(s: set<Name>): (r: seq<Name>)
    decreases |s|
  {
    if s == {} then []
    else
      assert exists m :: IsLeast(m, s) by { var m := LeastExists(s); }
      var m :| IsLeast(m, s);
      [m] + SortedNames(s - {m})
  }

  lemma {:induction false} SortedNamesMembers(s: set<Name>)
    ensures forall n :: n in SortedNames(s) <==> n in s
    decreases |s|
  {
    hide AtMost;
    if s != {} {
      var r := SortedNames(s);
      var m := r[0];
      SortedNamesMembers(s - {m});
      assert r == [m] + r[1..];
    }
  }

  lemma {:induction false} SortedNamesSorted(s: set<Name>)
    ensures Sorted(SortedNames(s)) && NoRepeats(SortedNames(s)) && Elements(SortedNames(s)) == s
    decreases |s|
  {
    hide AtMost;
    SortedNamesMembers(s);
    if s != {} {
      var r := SortedNames(s);
      var m := r[0];
      assert r[1..] == SortedNames(s - {m});
      SortedNamesSorted(s - {m});
      SortedNamesMembers(s - {m});
      SortedCons(m, r[1..], s - {m});
      assert r == [m] + r[1..];
    }
  }

  lemma SortedCons(m: Name, rest: seq<Name>, s: set<Name>)
    requires Sorted(rest) && NoRepeats(rest) && m !in s && forall n :: n in rest <==> n in s
    requires forall x :: x in s ==> AtMost(m, x)
    ensures Sorted([m] + rest) && NoRepeats([m] + rest)
  {
    hide AtMost;
    var r := [m] + rest;
    assert forall i :: 0 < i < |r| ==> r[i] == rest[i - 1] && r[i] in s;
  }

  /**
   * Any sorted listing of a set of names, each once, is that listing: the result of qsort does not depend on its
   * input order.
   */
  lemma {:induction false} SortIsCanonical(names: seq<Name>, s: set<Name>)
    requires Sorted(names) && NoRepeats(names) && Elements(names) == s
    ensures names == SortedNames(s)
  {
    if names == [] {
      assert s == {};
    } else {
      assert names[0] in Elements(names);
      var r := SortedNames(s);
      var m := r[0];
      assert IsLeast(m, s);
      assert AtMost(m, names[0]);
      assert m in Elements(names);
      var k :| 0 <= k < |names| && names[k] == m;
      AtMostTotal(m, names[0]);
      assert names[0] == m;
      var rest := names[1..];
      assert Elements(rest) == s - {m} by {
        assert forall i :: 0 < i < |names| ==> names[i] == rest[i - 1] && names[i] != m;
        forall x | x in s - {m} ensures x in Elements(rest) {
          assert x in Elements(names);
          var i :| 0 <= i < |names| && names[i] == x;
          assert rest[i - 1] == x;
        }
        forall x | x in Elements(rest) ensures x in s - {m} {
          var i :| 0 <= i < |rest| && rest[i] == x;
          assert names[i + 1] == x;
          assert x in Elements(names);
        }
      }
      SortIsCanonical(rest, s - {m});
      assert names == [m] + rest;
    }
  }
}
