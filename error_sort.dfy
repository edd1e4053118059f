/** The order of the error records: the comparator of `execute` and a stable merge sort by it
    (on ties the left element goes first). Any stable sort by (line, column), the JDK's
    included, returns the same list (`SrcUpdate.AnyStableSortAgrees`). */
module ErrorSort {
  import opened Diagnostics

  /** The anonymous comparator: by line, then by column; negative, zero or positive. The
      subtraction is on mathematical integers. */
  function Compare(e1: Error, e2: Error): int
  {
    if e1.line != e2.line then e1.line - e2.line
    else if e1.column != e2.column then e1.column - e2.column
    else 0
  }

  /** The comparator is the lexicographic order on (line, column), and it is antisymmetric in
      sign as `Comparator` demands. */
  lemma CompareIsLexicographic(e1: Error, e2: Error)
    ensures Compare(e1, e2) <= 0 <==> e1.line < e2.line || (e1.line == e2.line && e1.column <= e2.column)
    ensures Compare(e1, e2) == 0 <==> e1.line == e2.line && e1.column == e2.column
    ensures Compare(e1, e2) < 0 <==> Compare(e2, e1) > 0
  {
  }

  /** Non-decreasing by (line, column). */
  ghost predicate Sorted(s: seq<Error>)
  {
    forall i, j :: 0 <= i < j < |s| ==> Compare(s[i], s[j]) <= 0
  }

  /** The records of `s` at one position, in their order in `s`. */
  function At(s: seq<Error>, line: int, column: int): seq<Error>
    decreases |s|
  {
    if s == [] then [] else (if IsAt(s[0], line, column) then [s[0]] else []) + At(s[1..], line, column)
  }

  /** A record is at the position (line, column). */
  predicate IsAt(e: Error, line: int, column: int)
  {
    e.line == line && e.column == column
  }

  /** One merge step of the sort: on a tie the element of the left run goes first. */
  function Merge(a: seq<Error>, b: seq<Error>): seq<Error>
    decreases |a| + |b|
  {
    if a == [] then b
    else if b == [] then a
    else if Compare(a[0], b[0]) <= 0 then [a[0]] + Merge(a[1..], b)
    else [b[0]] + Merge(a, b[1..])
  }

  /** Merging loses and adds nothing. */
  lemma {:induction false} MergePermutes(a: seq<Error>, b: seq<Error>)
    ensures multiset(Merge(a, b)) == multiset(a) + multiset(b)
    decreases |a| + |b|
  {
    if a != [] && b != [] {
      if Compare(a[0], b[0]) <= 0 {
        var rest := Merge(a[1..], b);
        assert Merge(a, b) == [a[0]] + rest;
        MergePermutes(a[1..], b);
        assert multiset(a) == multiset([a[0]]) + multiset(a[1..]) by {
          assert a == [a[0]] + a[1..];
        }
        assert multiset([a[0]] + rest) == multiset([a[0]]) + multiset(rest);
      } else {
        var rest := Merge(a, b[1..]);
        assert Merge(a, b) == [b[0]] + rest;
        MergePermutes(a, b[1..]);
        assert multiset(b) == multiset([b[0]]) + multiset(b[1..]) by {
          assert b == [b[0]] + b[1..];
        }
        assert multiset([b[0]] + rest) == multiset([b[0]]) + multiset(rest);
      }
    }
  }

  /** The elements after the first of a sorted sequence are no earlier than it. */
  lemma SortedFirst(s: seq<Error>, x: Error)
    requires Sorted(s) && |s| > 0 && x in multiset(s)
    ensures Compare(s[0], x) <= 0
  {
    var j :| 0 <= j < |s| && s[j] == x;
    assert j == 0 || Compare(s[0], s[j]) <= 0;
  }

  /** Merging two sorted runs gives a sorted sequence. */
  lemma {:induction false} MergeSorted(a: seq<Error>, b: seq<Error>)
    requires Sorted(a) && Sorted(b)
    ensures Sorted(Merge(a, b))
    decreases |a| + |b|
  {
    if a != [] && b != [] {
      if Compare(a[0], b[0]) <= 0 {
        SortedTail(a);
        MergeSorted(a[1..], b);
        assert |a| > 1 ==> Compare(a[0], a[1]) <= 0;
        MergeAfter(a[0], a[1..], b);
      } else {
        SortedTail(b);
        MergeSorted(a, b[1..]);
        assert |b| > 1 ==> Compare(b[0], b[1]) <= 0;
        MergeAfter(b[0], a, b[1..]);
      }
    }
  }

  /** An element no later than the first of each of two sorted runs can go before their merge. */
  lemma MergeAfter(x: Error, a: seq<Error>, b: seq<Error>)
    requires Sorted(a) && Sorted(b) && Sorted(Merge(a, b))
    requires a != [] ==> Compare(x, a[0]) <= 0
    requires b != [] ==> Compare(x, b[0]) <= 0
    ensures Sorted([x] + Merge(a, b))
  {
    MergePermutes(a, b);
    forall y | y in multiset(Merge(a, b)) ensures Compare(x, y) <= 0 {
      if y in multiset(a) {
        SortedFirst(a, y);
      } else {
        SortedFirst(b, y);
      }
    }
    SortedCons(x, Merge(a, b));
  }

  /** The rest of a sorted sequence is sorted. */
  lemma SortedTail(s: seq<Error>)
    requires Sorted(s) && |s| > 0
    ensures Sorted(s[1..])
  {
    forall i, j | 0 <= i < j < |s[1..]| ensures Compare(s[1..][i], s[1..][j]) <= 0 {
      assert s[1..][i] == s[i + 1] && s[1..][j] == s[j + 1];
    }
  }

  /** Putting in front of a sorted sequence an element no later than any of its elements keeps
      it sorted. */
  lemma SortedCons(x: Error, s: seq<Error>)
    requires Sorted(s)
    requires forall y :: y in multiset(s) ==> Compare(x, y) <= 0
    ensures Sorted([x] + s)
  {
    forall i, j | 0 <= i < j < |[x] + s| ensures Compare(([x] + s)[i], ([x] + s)[j]) <= 0 {
      if i == 0 {
        assert ([x] + s)[j] == s[j - 1];
        assert s[j - 1] in multiset(s);
      } else {
        assert ([x] + s)[i] == s[i - 1] && ([x] + s)[j] == s[j - 1];
      }
    }
  }

  /** Merging the sorted halves of `s` gives a sorted permutation of `s`. */
  lemma MergeHalves(s: seq<Error>, mid: nat, left: seq<Error>, right: seq<Error>)
    requires mid <= |s|
    requires multiset(left) == multiset(s[..mid]) && multiset(right) == multiset(s[mid..])
    requires Sorted(left) && Sorted(right)
    ensures multiset(Merge(left, right)) == multiset(s) && Sorted(Merge(left, right))
  {
    assert s == s[..mid] + s[mid..];
    MergePermutes(left, right);
    MergeSorted(left, right);
  }

  /** A stable merge sort by (line, column): split in halves, sort each, merge. */
  function MergeSort(s: seq<Error>): (r: seq<Error>)
    ensures multiset(r) == multiset(s)
    ensures Sorted(r)
    decreases |s|
  {
    if |s| <= 1 then s
    else
      var mid := |s| / 2;
      var left, right := MergeSort(s[..mid]), MergeSort(s[mid..]);
      MergeHalves(s, mid, left, right);
      Merge(left, right)
  }

  /** The records at one position of a concatenation: those of the left part, then those of
      the right part. */
  lemma {:induction false} AtAppend(a: seq<Error>, b: seq<Error>, line: int, column: int)
    ensures At(a + b, line, column) == At(a, line, column) + At(b, line, column)
    decreases |a|
  {
    if a == [] {
      assert a + b == b;
    } else {
      assert (a + b)[0] == a[0];
      assert (a + b)[1..] == a[1..] + b;
      AtAppend(a[1..], b, line, column);
    }
  }

  /** A sequence with no record at a position has nothing at that position. */
  lemma {:induction false} AtAbsent(s: seq<Error>, line: int, column: int)
    requires forall i :: 0 <= i < |s| ==> s[i].line != line || s[i].column != column
    ensures At(s, line, column) == []
    decreases |s|
  {
    if s != [] {
      AtAbsent(s[1..], line, column);
    }
  }

  /** Merging keeps, at every position, the left run's records before the right run's. */
  lemma {:induction false} MergeStable(a: seq<Error>, b: seq<Error>, line: int, column: int)
    requires Sorted(a) && Sorted(b)
    ensures At(Merge(a, b), line, column) == At(a, line, column) + At(b, line, column)
    decreases |a| + |b|
  {
    if a == [] {
      assert At(a, line, column) == [];
    } else if b == [] {
      assert At(b, line, column) == [];
    } else if Compare(a[0], b[0]) <= 0 {
      var r := Merge(a, b);
      assert r == [a[0]] + Merge(a[1..], b);
      assert r[0] == a[0] && r[1..] == Merge(a[1..], b);
      MergeStable(a[1..], b, line, column);
    } else {
      var r := Merge(a, b);
      assert r == [b[0]] + Merge(a, b[1..]);
      assert r[0] == b[0] && r[1..] == Merge(a, b[1..]);
      MergeStable(a, b[1..], line, column);
      if b[0].line == line && b[0].column == column {
        forall i | 0 <= i < |a| ensures a[i].line != line || a[i].column != column {
          assert i == 0 || Compare(a[0], a[i]) <= 0;
        }
        AtAbsent(a, line, column);
      }
    }
  }

  /** The sort is stable: at every position the records keep their input order. */
  lemma {:induction false} MergeSortStable(s: seq<Error>, line: int, column: int)
    ensures At(MergeSort(s), line, column) == At(s, line, column)
    decreases |s|
  {
    if |s| > 1 {
      var mid := |s| / 2;
      assert s == s[..mid] + s[mid..];
      MergeSortStable(s[..mid], line, column);
      MergeSortStable(s[mid..], line, column);
      MergeStable(MergeSort(s[..mid]), MergeSort(s[mid..]), line, column);
      AtAppend(s[..mid], s[mid..], line, column);
    }
  }

  /** An element of a sequence appears in the records at its own position. */
  lemma {:induction false} AtHolds(s: seq<Error>, i: int)
    requires 0 <= i < |s|
    ensures s[i] in At(s, s[i].line, s[i].column)
    decreases |s|
  {
    if i > 0 {
      AtHolds(s[1..], i - 1);
    }
  }

  /** Every record at a position belongs to the sequence and lies at that position. */
  lemma {:induction false} AtMembers(s: seq<Error>, line: int, column: int)
    ensures forall e :: e in At(s, line, column) ==> e in s && e.line == line && e.column == column
    decreases |s|
  {
    if s != [] {
      AtMembers(s[1..], line, column);
    }
  }

  /** Two sorted sequences that agree at the positions of their first records start with the
      same record. */
  lemma FirstsAgree(s: seq<Error>, t: seq<Error>)
    requires Sorted(s) && Sorted(t) && |s| > 0 && |t| > 0
    requires At(s, s[0].line, s[0].column) == At(t, s[0].line, s[0].column)
    requires At(s, t[0].line, t[0].column) == At(t, t[0].line, t[0].column)
    ensures s[0] == t[0]
  {
    AtHolds(s, 0);
    AtHolds(t, 0);
    AtMembers(t, s[0].line, s[0].column);
    AtMembers(s, t[0].line, t[0].column);
    SortedFirst(t, s[0]);
    SortedFirst(s, t[0]);
    assert s[0].line == t[0].line && s[0].column == t[0].column;
    assert At(s, s[0].line, s[0].column)[0] == s[0];
    assert At(t, s[0].line, s[0].column)[0] == t[0];
  }

  /** Removing the same first record from two sequences that agree at every position leaves
      two sequences that agree at every position. */
  lemma TailsAgree(s: seq<Error>, t: seq<Error>)
    requires |s| > 0 && |t| > 0 && s[0] == t[0]
    requires forall line, column :: At(s, line, column) == At(t, line, column)
    ensures forall line, column :: At(s[1..], line, column) == At(t[1..], line, column)
  {
    forall line, column ensures At(s[1..], line, column) == At(t[1..], line, column) {
      var head := if s[0].line == line && s[0].column == column then [s[0]] else [];
      assert At(s, line, column) == head + At(s[1..], line, column);
      assert At(t, line, column) == head + At(t[1..], line, column);
      assert At(s[1..], line, column) == At(s, line, column)[|head|..];
      assert At(t[1..], line, column) == At(t, line, column)[|head|..];
    }
  }

  /** Two sorted sequences that agree at every position are equal: the output of any stable
      sort by (line, column) is the output of this one. */
  lemma {:induction false} SortedDeterminedByPositions(s: seq<Error>, t: seq<Error>)
    requires Sorted(s) && Sorted(t)
    requires forall line, column :: At(s, line, column) == At(t, line, column)
    ensures s == t
    decreases |s|
  {
    if s == [] || t == [] {
      if s != [] {
        AtHolds(s, 0);
        assert false;
      } else if t != [] {
        AtHolds(t, 0);
        assert false;
      }
    } else {
      assert At(s, s[0].line, s[0].column) == At(t, s[0].line, s[0].column);
      assert At(s, t[0].line, t[0].column) == At(t, t[0].line, t[0].column);
      FirstsAgree(s, t);
      TailsAgree(s, t);
      SortedTail(s);
      SortedTail(t);
      SortedDeterminedByPositions(s[1..], t[1..]);
      assert s == [s[0]] + s[1..];
      assert t == [t[0]] + t[1..];
    }
  }
}
