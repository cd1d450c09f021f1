/** Sorting by a strict order, and the lexicographic order of text. */
module Sorting {

  function Insert<T>(x: T, s: seq<T>, less: (T, T) -> bool): seq<T>
    decreases |s|
  {
    if s == [] then [x]
    else if less(s[0], x) then [s[0]] + Insert(x, s[1..], less)
    else [x] + s
  }

  function Sort<T>(s: seq<T>, less: (T, T) -> bool): seq<T>
    decreases |s|
  {
    if s == [] then [] else Insert(s[0], Sort(s[1..], less), less)
  }

  ghost predicate Sorted<T>(s: seq<T>, less: (T, T) -> bool) {
    forall i, j :: 0 <= i < j < |s| ==> less(s[i], s[j])
  }

  /** `less` is a strict total order on the elements of `s`. */
  ghost predicate Orders<T(!new)>(less: (T, T) -> bool, s: set<T>) {
    && (forall x :: x in s ==> !less(x, x))
    && (forall x, y :: x in s && y in s && x != y ==> less(x, y) || less(y, x))
    && (forall x, y, z :: x in s && y in s && z in s && less(x, y) && less(y, z) ==> less(x, z))
  }

  function Members<T>(s: seq<T>): set<T> {
    set x | x in s
  }

  ghost predicate Distinct<T>(s: seq<T>) {
    forall i, j :: 0 <= i < j < |s| ==> s[i] != s[j]
  }

  lemma {:induction false} InsertKeeps<T>(x: T, s: seq<T>, less: (T, T) -> bool)
    ensures multiset(Insert(x, s, less)) == multiset(s) + multiset{x}
    decreases |s|
  {
    if s == [] {
    } else if less(s[0], x) {
      InsertKeeps(x, s[1..], less);
      assert s == [s[0]] + s[1..];
    }
  }

  /** Sorting is a permutation. */
  lemma {:induction false} SortKeeps<T>(s: seq<T>, less: (T, T) -> bool)
    ensures multiset(Sort(s, less)) == multiset(s)
    decreases |s|
  {
    if s != [] {
      SortKeeps(s[1..], less);
      InsertKeeps(s[0], Sort(s[1..], less), less);
      assert s == [s[0]] + s[1..];
    }
  }

  lemma SameMembers<T>(s: seq<T>, t: seq<T>)
    requires multiset(s) == multiset(t)
    ensures |s| == |t| && Members(s) == Members(t)
  {
    assert |multiset(s)| == |s| && |multiset(t)| == |t|;
    forall x ensures x in s <==> x in t {
      assert x in s <==> x in multiset(s);
      assert x in t <==> x in multiset(t);
    }
  }

  lemma {:induction false} InsertSorts<T(!new)>(x: T, s: seq<T>, less: (T, T) -> bool)
    requires Sorted(s, less) && x !in s && Orders(less, Members(s) + {x})
    ensures Sorted(Insert(x, s, less), less)
    decreases |s|
  {
    if s == [] {
    } else if less(s[0], x) {
      var rest := s[1..];
      assert Members(rest) + {x} <= Members(s) + {x};
      InsertSorts(x, rest, less);
      InsertKeeps(x, rest, less);
      var tail := Insert(x, rest, less);
      forall i | 0 <= i < |tail| ensures less(s[0], tail[i]) {
        assert tail[i] in multiset(tail);
        assert tail[i] == x || tail[i] in rest;
        if tail[i] != x {
          var k :| 0 <= k < |rest| && rest[k] == tail[i];
          assert less(s[0], s[k + 1]);
        }
      }
    } else {
      assert x in Members(s) + {x} && s[0] in Members(s) + {x};
      assert less(x, s[0]);
      forall i | 0 <= i < |s| ensures less(x, s[i]) {
        assert s[i] in Members(s) + {x};
        assert i > 0 ==> less(s[0], s[i]);
      }
    }
  }

  lemma {:induction false} SortSorts<T(!new)>(s: seq<T>, less: (T, T) -> bool)
    requires Distinct(s) && Orders(less, Members(s))
    ensures Sorted(Sort(s, less), less)
    decreases |s|
  {
    if s != [] {
      var rest := s[1..];
      SortSorts(rest, less);
      SortKeeps(rest, less);
      SameMembers(Sort(rest, less), rest);
      assert s[0] !in rest;
      assert s[0] !in Members(rest);
      assert Members(Sort(rest, less)) + {s[0]} == Members(s);
      InsertSorts(s[0], Sort(rest, less), less);
    }
  }

  lemma HeadsAgree<T(!new)>(a: seq<T>, b: seq<T>, less: (T, T) -> bool)
    requires a != [] && b != [] && a[0] in b && b[0] in a
    requires Sorted(a, less) && Sorted(b, less) && Orders(less, Members(a))
    ensures a[0] == b[0]
  {
    assert a[0] in Members(a) && b[0] in Members(a);
    var i :| 0 <= i < |b| && b[i] == a[0];
    var j :| 0 <= j < |a| && a[j] == b[0];
  }

  lemma {:induction false} SortedIsUnique<T(!new)>(a: seq<T>, b: seq<T>, less: (T, T) -> bool)
    requires multiset(a) == multiset(b) && Sorted(a, less) && Sorted(b, less) && Orders(less, Members(a))
    ensures a == b
    decreases |a|
  {
    hide *;
    SameMembers(a, b);
    if a != [] {
      HeadOfBoth(a, b);
      HeadsAgree(a, b, less);
      TailOf(a, less);
      TailOf(b, less);
      SortedIsUnique(a[1..], b[1..], less);
      Reassemble(a, b);
    }
  }

  lemma Reassemble<T>(a: seq<T>, b: seq<T>)
    requires a != [] && b != [] && a[0] == b[0] && a[1..] == b[1..]
    ensures a == b
  {
    assert a == [a[0]] + a[1..] && b == [b[0]] + b[1..];
  }

  lemma HeadOfBoth<T>(a: seq<T>, b: seq<T>)
    requires a != [] && b != [] && multiset(a) == multiset(b)
    ensures a[0] in b && b[0] in a
  {
    assert a[0] in multiset(a) && b[0] in multiset(b);
  }

  lemma TailOf<T(!new)>(a: seq<T>, less: (T, T) -> bool)
    requires a != []
    ensures multiset(a[1..]) == multiset(a) - multiset{a[0]}
    ensures Sorted(a, less) ==> Sorted(a[1..], less)
    ensures Orders(less, Members(a)) ==> Orders(less, Members(a[1..]))
  {
    assert a == [a[0]] + a[1..];
    assert Members(a[1..]) <= Members(a);
  }

  /** What is sorted does not depend on the order it came in. */
  lemma SortForgetsOrder<T(!new)>(s: seq<T>, t: seq<T>, less: (T, T) -> bool)
    requires multiset(s) == multiset(t) && Distinct(s) && Distinct(t) && Orders(less, Members(s))
    ensures Sort(s, less) == Sort(t, less)
  {
    SameMembers(s, t);
    SortSorts(s, less);
    SortSorts(t, less);
    SortKeeps(s, less);
    SortKeeps(t, less);
    SameMembers(Sort(s, less), s);
    SortedIsUnique(Sort(s, less), Sort(t, less), less);
  }

  // ----- Lexicographic order -----

  predicate TextBefore(a: string, b: string)
    decreases |a|
  {
    if a == "" then b != ""
    else b != "" && (a[0] < b[0] || (a[0] == b[0] && TextBefore(a[1..], b[1..])))
  }

  lemma {:induction false} TextOrderIsTotal(a: string, b: string)
    ensures a != b ==> TextBefore(a, b) || TextBefore(b, a)
    ensures !(TextBefore(a, b) && TextBefore(b, a)) && !TextBefore(a, a)
    decreases |a|
  {
    if a != "" {
      TextOrderIsTotal(a[1..], a[1..]);
      if b != "" {
        TextOrderIsTotal(a[1..], b[1..]);
        assert a == [a[0]] + a[1..] && b == [b[0]] + b[1..];
      }
    }
  }

  lemma {:induction false} TextOrderIsTransitive(a: string, b: string, c: string)
    requires TextBefore(a, b) && TextBefore(b, c)
    ensures TextBefore(a, c)
    decreases |a|
  {
    if a != "" && a[0] == b[0] && b[0] == c[0] {
      TextOrderIsTransitive(a[1..], b[1..], c[1..]);
    }
  }
}
