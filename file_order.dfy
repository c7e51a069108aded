/**
 * The display order `generateProject` puts files in: the comparator given to
 * `files.sort` and the sort itself, run in place on the file array.
 */
module FileOrder {
  import opened JsStrings
  import opened Types

  /** The sort depth of a path: one more than the number of `/` in it. */
  function Depth(path: string): nat
  {
    Count(path, '/') + 1
  }

  /** The sort depth is `path.split('/').length`, the number of segments. */
  lemma DepthIsSegmentCount(path: string)
    ensures Depth(path) == |Split(path, '/')|
  {
    SplitLength(path, '/');
  }

  /** The comparator: deeper paths first, equal depths by `localeCompare` of the paths. */
  function Compare(a: ProjectFile, b: ProjectFile): int
  {
    var depthA := Depth(a.path);
    var depthB := Depth(b.path);
    if depthA != depthB then depthB - depthA else LocaleCompare(a.path, b.path)
  }

  /** Path `p` is shown before path `q`: it is deeper, or as deep and smaller. */
  predicate PathBefore(p: string, q: string)
  {
    Depth(p) > Depth(q) || (Depth(p) == Depth(q) && CodePointLess(p, q))
  }

  /** The sign of the comparator says which path is shown first; zero means the same path. */
  lemma CompareMeaning(a: ProjectFile, b: ProjectFile)
    ensures Compare(a, b) < 0 <==> PathBefore(a.path, b.path)
    ensures Compare(a, b) == 0 <==> a.path == b.path
    ensures Compare(a, b) > 0 <==> PathBefore(b.path, a.path)
  {
    LocaleCompareConsistent(a.path, b.path);
    LocaleCompareConsistent(b.path, a.path);
  }

  /** Display order is a strict total order on paths. */
  lemma PathBeforeStrictTotal(p: string, q: string, r: string)
    ensures !PathBefore(p, p)
    ensures PathBefore(p, q) && PathBefore(q, r) ==> PathBefore(p, r)
    ensures p != q ==> PathBefore(p, q) || PathBefore(q, p)
  {
    CodePointLessIrreflexive(p);
    if CodePointLess(p, q) && CodePointLess(q, r) {
      CodePointLessTransitive(p, q, r);
    }
    if p != q {
      CodePointLessTotal(p, q);
    }
  }

  /**
   * The comparator is consistent in the sense `Array.prototype.sort` asks
   * for: antisymmetric in sign, zero on a file and itself, and transitive.
   */
  lemma CompareConsistent(a: ProjectFile, b: ProjectFile, c: ProjectFile)
    ensures Compare(a, a) == 0
    ensures Compare(a, b) < 0 <==> Compare(b, a) > 0
    ensures Compare(a, b) <= 0 && Compare(b, c) <= 0 ==> Compare(a, c) <= 0
    ensures Compare(a, b) < 0 && Compare(b, c) < 0 ==> Compare(a, c) < 0
  {
    CompareMeaning(a, a);
    CompareMeaning(a, b);
    CompareMeaning(b, a);
    CompareMeaning(b, c);
    CompareMeaning(a, c);
    PathBeforeStrictTotal(a.path, b.path, c.path);
    PathBeforeStrictTotal(b.path, a.path, c.path);
    PathBeforeStrictTotal(c.path, a.path, b.path);
    PathBeforeStrictTotal(a.path, c.path, b.path);
  }

  /** `s` is ordered by the comparator. */
  predicate Sorted(s: seq<ProjectFile>)
  {
    forall i, j :: 0 <= i < j < |s| ==> Compare(s[i], s[j]) <= 0
  }

  /**
   * In a sorted list depth never increases, and files of equal depth come
   * in path order.
   */
  lemma SortedByDepthThenPath(s: seq<ProjectFile>, i: int, j: int)
    requires Sorted(s) && 0 <= i < j < |s|
    ensures Depth(s[i].path) >= Depth(s[j].path)
    ensures Depth(s[i].path) == Depth(s[j].path) ==> !CodePointLess(s[j].path, s[i].path)
  {
    CompareMeaning(s[i], s[j]);
  }

  // ---------------------------------------------------------------- the sort

  /**
   * Inserts `x` behind every element it does not have to precede; walking
   * from the back, it passes only elements the comparator puts strictly after it.
   */
  function Insert(x: ProjectFile, t: seq<ProjectFile>): (r: seq<ProjectFile>)
    ensures |r| == |t| + 1
    decreases |t|
  {
    if |t| == 0 then [x]
    else if Compare(x, t[|t| - 1]) < 0 then
      Insert(x, t[..|t| - 1]) + [t[|t| - 1]]
    else t + [x]
  }

  /** The stable sort of `s` by the comparator: insertion sort, front to back. */
  function SortFiles(s: seq<ProjectFile>): (r: seq<ProjectFile>)
    ensures |r| == |s|
    decreases |s|
  {
    if |s| == 0 then []
    else
      Insert(s[|s| - 1], SortFiles(s[..|s| - 1]))
  }

  lemma SortFilesUnfold(s: seq<ProjectFile>)
    requires |s| > 0
    ensures SortFiles(s) == Insert(s[|s| - 1], SortFiles(s[..|s| - 1]))
  {
  }

  lemma MultisetOfLast(s: seq<ProjectFile>)
    requires |s| > 0
    ensures multiset(s) == multiset(s[..|s| - 1]) + multiset{s[|s| - 1]}
  {
    assert s == s[..|s| - 1] + [s[|s| - 1]];
  }

  /** Inserting adds exactly `x`. */
  lemma {:induction false} InsertPermutation(x: ProjectFile, t: seq<ProjectFile>)
    ensures multiset(Insert(x, t)) == multiset(t) + multiset{x}
    decreases |t|
  {
    if |t| > 0 && Compare(x, t[|t| - 1]) < 0 {
      InsertPermutation(x, t[..|t| - 1]);
      assert t == t[..|t| - 1] + [t[|t| - 1]];
    }
  }

  /** The sorted list is a permutation of the input: no file is lost, added or duplicated. */
  lemma {:induction false} SortFilesPermutation(s: seq<ProjectFile>)
    ensures multiset(SortFiles(s)) == multiset(s)
    decreases |s|
  {
    if |s| > 0 {
      var init, last := s[..|s| - 1], s[|s| - 1];
      SortFilesUnfold(s);
      SortFilesPermutation(init);
      InsertPermutation(last, SortFiles(init));
      MultisetOfLast(s);
    }
  }

  /** Appending an element no smaller than all others keeps a list sorted. */
  lemma SortedAppend(a: seq<ProjectFile>, y: ProjectFile)
    requires Sorted(a)
    requires forall i :: 0 <= i < |a| ==> Compare(a[i], y) <= 0
    ensures Sorted(a + [y])
  {
  }

  /** The last element of a sorted list is no smaller than any element. */
  lemma SortedLastIsGreatest(s: seq<ProjectFile>, e: ProjectFile)
    requires Sorted(s) && |s| > 0 && e in s
    ensures Compare(e, s[|s| - 1]) <= 0
  {
    CompareConsistent(e, e, e);
  }

  /** Inserting into a sorted list gives a sorted list. */
  lemma {:induction false} InsertSorted(x: ProjectFile, t: seq<ProjectFile>)
    requires Sorted(t)
    ensures Sorted(Insert(x, t))
    decreases |t|
  {
    if |t| > 0 {
      var init, y := t[..|t| - 1], t[|t| - 1];
      if Compare(x, y) < 0 {
        InsertSorted(x, init);
        InsertPermutation(x, init);
        var a := Insert(x, init);
        forall i | 0 <= i < |a|
          ensures Compare(a[i], y) <= 0
        {
          assert a[i] in multiset(a);
          if a[i] != x {
            assert a[i] in init;
          }
        }
        SortedAppend(a, y);
      } else {
        forall i | 0 <= i < |t|
          ensures Compare(t[i], x) <= 0
        {
          CompareConsistent(t[i], y, x);
          CompareConsistent(x, y, x);
          SortedLastIsGreatest(t, t[i]);
        }
        SortedAppend(t, x);
      }
    }
  }

  /** The sort's result is ordered by the comparator. */
  lemma {:induction false} SortFilesSorted(s: seq<ProjectFile>)
    ensures Sorted(SortFiles(s))
    decreases |s|
  {
    if |s| > 0 {
      SortFilesSorted(s[..|s| - 1]);
      InsertSorted(s[|s| - 1], SortFiles(s[..|s| - 1]));
    }
  }

  // ---------------------------------------------------------------- stability

  /** The files of `s` whose path is `p`, in the order `s` has them. */
  function FilterPath(s: seq<ProjectFile>, p: string): seq<ProjectFile>
    decreases |s|
  {
    if |s| == 0 then []
    else FilterPath(s[..|s| - 1], p) + (if s[|s| - 1].path == p then [s[|s| - 1]] else [])
  }

  lemma {:induction false} FilterPathHas(s: seq<ProjectFile>, p: string, x: ProjectFile)
    ensures x in FilterPath(s, p) <==> x in s && x.path == p
    decreases |s|
  {
    if |s| > 0 {
      FilterPathHas(s[..|s| - 1], p, x);
      assert s == s[..|s| - 1] + [s[|s| - 1]];
    }
  }

  lemma FilterPathAppend(a: seq<ProjectFile>, y: ProjectFile, p: string)
    ensures FilterPath(a + [y], p) == FilterPath(a, p) + (if y.path == p then [y] else [])
  {
    assert (a + [y])[..|a|] == a;
  }

  lemma InsertPasses(x: ProjectFile, t: seq<ProjectFile>)
    requires |t| > 0 && Compare(x, t[|t| - 1]) < 0
    ensures Insert(x, t) == Insert(x, t[..|t| - 1]) + [t[|t| - 1]]
  {
  }

  lemma FilterPathPastInsert(x: ProjectFile, init: seq<ProjectFile>, y: ProjectFile, p: string)
    requires x.path != y.path
    requires FilterPath(Insert(x, init), p) == FilterPath(init, p) + (if x.path == p then [x] else [])
    ensures FilterPath(Insert(x, init) + [y], p) == FilterPath(init + [y], p) + (if x.path == p then [x] else [])
  {
    FilterPathAppend(Insert(x, init), y, p);
    FilterPathAppend(init, y, p);
  }

  /** Inserting `x` leaves the files of every other path where they were and puts `x` last among its own. */
  lemma {:induction false} FilterInsert(x: ProjectFile, t: seq<ProjectFile>, p: string)
    ensures FilterPath(Insert(x, t), p) == FilterPath(t, p) + (if x.path == p then [x] else [])
    decreases |t|
  {
    if |t| == 0 {
      FilterPathAppend([], x, p);
    } else if Compare(x, t[|t| - 1]) < 0 {
      var init, y := t[..|t| - 1], t[|t| - 1];
      assert t == init + [y];
      CompareMeaning(x, y);
      InsertPasses(x, t);
      FilterInsert(x, init, p);
      FilterPathPastInsert(x, init, y, p);
    } else {
      FilterPathAppend(t, x, p);
    }
  }

  /** The sort is stable: files sharing a path keep their input order. */
  lemma {:induction false} SortFilesStable(s: seq<ProjectFile>, p: string)
    ensures FilterPath(SortFiles(s), p) == FilterPath(s, p)
    decreases |s|
  {
    if |s| > 0 {
      SortFilesStable(s[..|s| - 1], p);
      FilterInsert(s[|s| - 1], SortFiles(s[..|s| - 1]), p);
    }
  }

  lemma NonEmptyFromFilter(v: seq<ProjectFile>, u: seq<ProjectFile>)
    requires |v| > 0 && FilterPath(u, v[|v| - 1].path) == FilterPath(v, v[|v| - 1].path)
    ensures |u| > 0
  {
    var y := v[|v| - 1];
    FilterPathHas(v, y.path, y);
    FilterPathHas(u, y.path, y);
  }

  lemma SameLastPath(u: seq<ProjectFile>, v: seq<ProjectFile>)
    requires Sorted(u) && Sorted(v) && |u| > 0 && |v| > 0
    requires FilterPath(u, v[|v| - 1].path) == FilterPath(v, v[|v| - 1].path)
    requires FilterPath(u, u[|u| - 1].path) == FilterPath(v, u[|u| - 1].path)
    ensures u[|u| - 1].path == v[|v| - 1].path
  {
    var x, y := u[|u| - 1], v[|v| - 1];
    FilterPathHas(v, y.path, y);
    FilterPathHas(u, y.path, y);
    FilterPathHas(u, x.path, x);
    FilterPathHas(v, x.path, x);
    SortedLastIsGreatest(u, y);
    SortedLastIsGreatest(v, x);
    CompareMeaning(x, y);
    CompareMeaning(y, x);
    PathBeforeStrictTotal(x.path, y.path, x.path);
  }

  /** `u` and `v` list the files of every path in the same order. */
  ghost predicate SamePathOrder(u: seq<ProjectFile>, v: seq<ProjectFile>)
  {
    forall p :: FilterPath(u, p) == FilterPath(v, p)
  }

  lemma DropLast(u': seq<ProjectFile>, x: ProjectFile, v': seq<ProjectFile>, y: ProjectFile)
    requires x.path == y.path
    requires SamePathOrder(u' + [x], v' + [y])
    ensures x == y
    ensures SamePathOrder(u', v')
  {
    var u, v := u' + [x], v' + [y];
    FilterPathAppend(u', x, x.path);
    FilterPathAppend(v', y, x.path);
    assert FilterPath(u, x.path) == FilterPath(v, x.path);
    assert x == FilterPath(u, x.path)[|FilterPath(u, x.path)| - 1];
    forall p
      ensures FilterPath(u', p) == FilterPath(v', p)
    {
      FilterPathAppend(u', x, p);
      FilterPathAppend(v', y, p);
      var fu, fv := FilterPath(u, p), FilterPath(v, p);
      assert fu == fv;
      if p == x.path {
        assert FilterPath(u', p) == fu[..|fu| - 1];
        assert FilterPath(v', p) == fv[..|fv| - 1];
      } else {
        assert FilterPath(u', p) == fu;
        assert FilterPath(v', p) == fv;
      }
    }
  }

  /**
   * A sorted arrangement is fixed by the order of the files within each
   * path: two sorted lists that agree on it are equal.
   */
  lemma {:induction false} SortedUnique(u: seq<ProjectFile>, v: seq<ProjectFile>)
    requires Sorted(u) && Sorted(v)
    requires SamePathOrder(u, v)
    ensures u == v
    decreases |u|
  {
    if |v| > 0 {
      assert FilterPath(u, v[|v| - 1].path) == FilterPath(v, v[|v| - 1].path);
      NonEmptyFromFilter(v, u);
    }
    if |u| > 0 {
      assert FilterPath(v, u[|u| - 1].path) == FilterPath(u, u[|u| - 1].path);
      NonEmptyFromFilter(u, v);
      SameLastPath(u, v);
      var u', v' := u[..|u| - 1], v[..|v| - 1];
      assert u == u' + [u[|u| - 1]] && v == v' + [v[|v| - 1]];
      DropLast(u', u[|u| - 1], v', v[|v| - 1]);
      assert Sorted(u') && Sorted(v');
      SortedUnique(u', v');
    }
  }

  /**
   * Every stable sort by the comparator gives the same list as `SortFiles`:
   * a sorted list that keeps each path's files in input order is `SortFiles(s)`.
   */
  lemma StableSortIsSortFiles(s: seq<ProjectFile>, u: seq<ProjectFile>)
    requires Sorted(u)
    requires forall p :: FilterPath(u, p) == FilterPath(s, p)
    ensures u == SortFiles(s)
  {
    SortFilesSorted(s);
    forall p
      ensures FilterPath(u, p) == FilterPath(SortFiles(s), p)
    {
      SortFilesStable(s, p);
    }
    SortedUnique(u, SortFiles(s));
  }

  // ---------------------------------------------------------------- distinct paths

  /** No two files share a path. */
  predicate DistinctPaths(s: seq<ProjectFile>)
  {
    forall i, j :: 0 <= i < j < |s| ==> s[i].path != s[j].path
  }

  lemma {:induction false} FilterPathCount(s: seq<ProjectFile>, p: string, x: ProjectFile)
    ensures multiset(FilterPath(s, p))[x] == if x.path == p then multiset(s)[x] else 0
    decreases |s|
  {
    if |s| > 0 {
      FilterPathCount(s[..|s| - 1], p, x);
      assert s == s[..|s| - 1] + [s[|s| - 1]];
    }
  }

  lemma {:induction false} FilterPathOfDistinct(s: seq<ProjectFile>, p: string)
    requires DistinctPaths(s)
    ensures |FilterPath(s, p)| <= 1
    decreases |s|
  {
    if |s| > 0 {
      var init := s[..|s| - 1];
      FilterPathOfDistinct(init, p);
      if s[|s| - 1].path == p && FilterPath(init, p) != [] {
        var e := FilterPath(init, p)[0];
        FilterPathHas(init, p, e);
      }
    }
  }

  lemma FilterPathMultiset(s1: seq<ProjectFile>, s2: seq<ProjectFile>, p: string)
    requires multiset(s1) == multiset(s2)
    ensures multiset(FilterPath(s1, p)) == multiset(FilterPath(s2, p))
  {
    forall x
      ensures multiset(FilterPath(s1, p))[x] == multiset(FilterPath(s2, p))[x]
    {
      FilterPathCount(s1, p, x);
      FilterPathCount(s2, p, x);
    }
  }

  lemma ShortSequenceByMultiset(f1: seq<ProjectFile>, f2: seq<ProjectFile>)
    requires multiset(f1) == multiset(f2) && |f1| <= 1
    ensures f1 == f2
  {
    assert |f1| == |multiset(f1)| == |multiset(f2)| == |f2|;
    if |f1| == 1 {
      assert f2[0] in multiset(f1);
    }
  }

  /** Rearranging files with distinct paths does not change any path's files. */
  lemma FilterPathOfPermutation(s1: seq<ProjectFile>, s2: seq<ProjectFile>, p: string)
    requires multiset(s1) == multiset(s2) && DistinctPaths(s1)
    ensures FilterPath(s1, p) == FilterPath(s2, p)
  {
    FilterPathMultiset(s1, s2, p);
    FilterPathOfDistinct(s1, p);
    ShortSequenceByMultiset(FilterPath(s1, p), FilterPath(s2, p));
  }

  /**
   * When paths are distinct the comparator never ties, so the order of the
   * input does not matter: every rearrangement sorts to the same list.
   */
  lemma SortFilesOrderIndependent(s1: seq<ProjectFile>, s2: seq<ProjectFile>)
    requires multiset(s1) == multiset(s2) && DistinctPaths(s1)
    ensures SortFiles(s1) == SortFiles(s2)
  {
    SortFilesSorted(s1);
    forall p
      ensures FilterPath(SortFiles(s1), p) == FilterPath(s2, p)
    {
      SortFilesStable(s1, p);
      FilterPathOfPermutation(s1, s2, p);
    }
    StableSortIsSortFiles(s2, SortFiles(s1));
  }

  // ---------------------------------------------------------------- in place

  /** Putting `x` at `j` in all but the last element of `s`, then appending that element, puts `x` at `j` in `s`. */
  lemma InsertBeforeLast<T>(s: seq<T>, j: int, x: T)
    requires 0 <= j < |s|
    ensures s[..|s| - 1][..j] + [x] + s[..|s| - 1][j..] + [s[|s| - 1]] == s[..j] + [x] + s[j..]
  {
    var init := s[..|s| - 1];
    assert init[..j] == s[..j];
    assert init[j..] + [s[|s| - 1]] == s[j..];
  }

  /**
   * `Insert` puts `x` right after the last element it does not have to
   * precede: behind `sorted[..j]` when every later element goes strictly after `x`.
   */
  lemma {:induction false} InsertAt(x: ProjectFile, sorted: seq<ProjectFile>, j: int)
    requires 0 <= j <= |sorted|
    requires j == 0 || Compare(x, sorted[j - 1]) >= 0
    requires forall k :: j <= k < |sorted| ==> Compare(x, sorted[k]) < 0
    ensures Insert(x, sorted) == sorted[..j] + [x] + sorted[j..]
    decreases |sorted|
  {
    if j < |sorted| {
      var init := sorted[..|sorted| - 1];
      InsertPasses(x, sorted);
      assert forall k :: 0 <= k < |init| ==> init[k] == sorted[k];
      InsertAt(x, init, j);
      InsertBeforeLast(sorted, j, x);
    } else {
      assert sorted[..j] == sorted && sorted[j..] == [];
    }
  }

  /**
   * The array contents an insertion pass leaves: the sorted prefix with `x`
   * placed at `j`, the elements from `j` on shifted one place right.
   */
  lemma PlacedIsInsert(s: seq<ProjectFile>, sorted: seq<ProjectFile>, x: ProjectFile, j: int)
    requires 0 <= j <= |sorted| < |s|
    requires forall k :: 0 <= k < j ==> s[k] == sorted[k]
    requires s[j] == x
    requires forall k :: j < k <= |sorted| ==> s[k] == sorted[k - 1]
    requires j == 0 || Compare(x, sorted[j - 1]) >= 0
    requires forall k :: j <= k < |sorted| ==> Compare(x, sorted[k]) < 0
    ensures s[..|sorted| + 1] == Insert(x, sorted)
  {
    InsertAt(x, sorted, j);
    var inserted := sorted[..j] + [x] + sorted[j..];
    assert forall k :: 0 <= k < j ==> inserted[k] == sorted[k];
    assert forall k :: j < k <= |sorted| ==> inserted[k] == sorted[k - 1];
    assert s[..|sorted| + 1] == inserted;
  }

  /**
   * One pass of the insertion sort: moves `a[i]` left past every element of
   * the sorted prefix `a[..i]` that the comparator puts strictly after it.
   */
  method InsertIntoPrefix(a: array<ProjectFile>, i: int)
    requires 0 <= i < a.Length
    modifies a
    ensures a[..i + 1] == Insert(old(a[i]), old(a[..i]))
    ensures a[i + 1..] == old(a[i + 1..])
  {
    ghost var sorted := a[..i];
    var x := a[i];
    var j := ShiftGreater(a, i, x);
    a[j] := x;
    PlacedIsInsert(a[..], sorted, x, j);
    assert a[..i + 1] == a[..][..i + 1];
  }

  /**
   * The inner loop of the insertion pass: shifts one place to the right every
   * element of `a[..i]`, from the end, that `x` goes strictly before, and
   * returns the hole left where `x` belongs.
   */
  method ShiftGreater(a: array<ProjectFile>, i: int, x: ProjectFile) returns (j: int)
    requires 0 <= i < a.Length
    modifies a
    ensures 0 <= j <= i
    ensures forall k :: 0 <= k < j ==> a[k] == old(a[k])
    ensures forall k :: j < k <= i ==> a[k] == old(a[k - 1])
    ensures forall k :: i < k < a.Length ==> a[k] == old(a[k])
    ensures forall k :: j <= k < i ==> Compare(x, old(a[k])) < 0
    ensures j > 0 ==> Compare(x, old(a[j - 1])) >= 0
  {
    j := i;
    while j > 0 && Compare(x, a[j - 1]) < 0
      invariant 0 <= j <= i
      invariant forall k :: 0 <= k < j ==> a[k] == old(a[k])
      invariant forall k :: j < k <= i ==> a[k] == old(a[k - 1])
      invariant forall k :: i < k < a.Length ==> a[k] == old(a[k])
      invariant forall k :: j <= k < i ==> Compare(x, old(a[k])) < 0
    {
      a[j] := a[j - 1];
      j := j - 1;
    }
  }

  /** `files.sort(compare)` on the file array: an insertion sort, in place. */
  method SortInPlace(a: array<ProjectFile>)
    modifies a
    ensures a[..] == SortFiles(old(a[..]))
  {
    ghost var orig := a[..];
    var i := 0;
    while i < a.Length
      invariant 0 <= i <= a.Length
      invariant a[..i] == SortFiles(orig[..i])
      invariant a[i..] == orig[i..]
    {
      InsertIntoPrefix(a, i);
      assert orig[..i + 1][..i] == orig[..i];
      i := i + 1;
    }
    assert a[..] == a[..a.Length] && orig == orig[..a.Length];
  }

  /** Three files of strictly increasing depth are sorted into reverse order. */
  lemma SortByDecreasingDepth(a: ProjectFile, b: ProjectFile, c: ProjectFile)
    requires Depth(a.path) < Depth(b.path) < Depth(c.path)
    ensures SortFiles([a, b, c]) == [c, b, a]
  {
    SortFilesUnfold([a, b, c]);
    assert [a, b, c][..2] == [a, b];
    SortFilesUnfold([a, b]);
    assert [a, b][..1] == [a];
    SortFilesUnfold([a]);
    assert SortFiles([a]) == [a];
    InsertPasses(b, [a]);
    assert SortFiles([a, b]) == [b, a];
    InsertPasses(c, [b, a]);
    InsertPasses(c, [b]);
  }
}
