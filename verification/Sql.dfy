/** The one query shape several components share: rows ordered by a key and then
    by id, cut off by LIMIT. */
module Sql {

  /** Row `a` comes before row `b` under ORDER BY key, id. */
  predicate Before(key: map<nat, int>, a: nat, b: nat)
    requires a in key && b in key
  {
    key[a] < key[b] || (key[a] == key[b] && a < b)
  }

  ghost predicate IsFirst(key: map<nat, int>, m: nat) {
    m in key && forall j :: j in key && j != m ==> Before(key, m, j)
  }

  lemma {:induction false} FirstExists(key: map<nat, int>)
    requires key != map[]
    ensures exists m :: IsFirst(key, m)
    decreases |key|
  {
    var i :| i in key;
    var rest := key - {i};
    assert forall j :: j in key <==> j == i || j in rest;
    if rest == map[] {
      assert forall j :: j in key ==> j == i;
      assert IsFirst(key, i);
    } else {
      FirstExists(rest);
      var m :| IsFirst(rest, m);
      assert IsFirst(key, if Before(key, i, m) then i else m);
    }
  }

  function First(key: map<nat, int>): (m: nat)
    requires key != map[]
    ensures IsFirst(key, m)
  {
    FirstExists(key);
    var m :| m in key && forall j :: j in key && j != m ==> Before(key, m, j);
    m
  }

  /** SELECT id ... ORDER BY key, id. */
  function OrderBy(key: map<nat, int>): (ids: seq<nat>)
    ensures forall i :: i in ids <==> i in key
    ensures forall k :: 0 <= k < |ids| ==> ids[k] in key
    ensures |ids| == |key|
    decreases |key|
  {
    if key == map[] then [] else
      var m := First(key);
      var rest := key - {m};
      assert forall j :: j in key <==> j == m || j in rest;
      assert key.Keys == {m} + rest.Keys;
      [m] + OrderBy(rest)
  }

  lemma {:induction false} OrderByIsOrdered(key: map<nat, int>)
    ensures forall i, j :: 0 <= i < j < |OrderBy(key)| ==> Before(key, OrderBy(key)[i], OrderBy(key)[j])
    decreases |key|
  {
    if key != map[] {
      var m := First(key);
      var rest := key - {m};
      var tail := OrderBy(rest);
      assert key.Keys == {m} + rest.Keys;
      OrderByIsOrdered(rest);
      assert OrderBy(key) == [m] + tail;
      forall i, j | 0 <= i < j < |tail| + 1
        ensures Before(key, ([m] + tail)[i], ([m] + tail)[j])
      {
        assert tail[j - 1] in rest;
        if i > 0 {
          assert Before(rest, tail[i - 1], tail[j - 1]);
        }
      }
    }
  }

  /** SELECT id ... ORDER BY id. */
  function Ascending(ids: set<nat>): (sorted: seq<nat>)
    ensures forall i :: i in sorted <==> i in ids
    ensures forall k :: 0 <= k < |sorted| ==> sorted[k] in ids
    ensures |sorted| == |ids|
  {
    var key: map<nat, int> := map i | i in ids :: 0;
    assert key.Keys == ids;
    OrderBy(key)
  }

  /** The same, of the rows whose ids are listed. */
  function ById(ids: seq<nat>): (sorted: seq<nat>)
    ensures forall i :: i in sorted <==> i in ids
    ensures forall k :: 0 <= k < |sorted| ==> sorted[k] in ids
  {
    Ascending(Elements(ids))
  }

  /** ... LIMIT n. */
  function Limit(ids: seq<nat>, n: nat): seq<nat> {
    if n < |ids| then ids[..n] else ids
  }

  lemma DroppedIsBeyond(ids: seq<nat>, n: nat, b: nat)
    requires b < |ids| && ids[b] !in Limit(ids, n)
    ensures |Limit(ids, n)| <= b
  {
    assert forall k :: 0 <= k < |Limit(ids, n)| ==> Limit(ids, n)[k] == ids[k];
  }

  /** LIMIT keeps n rows or all of them, each before every row it drops. */
  lemma LimitKeepsTheFirst(key: map<nat, int>, n: nat, i: nat, j: nat)
    requires i in Limit(OrderBy(key), n) && j in key && j !in Limit(OrderBy(key), n)
    ensures i in key && Before(key, i, j)
  {
    var all := OrderBy(key);
    OrderByIsOrdered(key);
    var a :| 0 <= a < |Limit(all, n)| && Limit(all, n)[a] == i;
    assert all[a] == i;
    assert j in all;
    var b :| 0 <= b < |all| && all[b] == j;
    DroppedIsBeyond(all, n, b);
  }

  lemma OrderByHasNoRepeats(key: map<nat, int>)
    ensures forall i, j :: 0 <= i < j < |OrderBy(key)| ==> OrderBy(key)[i] != OrderBy(key)[j]
  {
    OrderByIsOrdered(key);
  }

  lemma AscendingIsStrict(ids: set<nat>)
    ensures forall i, j :: 0 <= i < j < |Ascending(ids)| ==> Ascending(ids)[i] < Ascending(ids)[j]
  {
    OrderByIsOrdered(map i | i in ids :: 0);
  }

  lemma ByIdHasNoRepeats(ids: seq<nat>)
    ensures forall i, j :: 0 <= i < j < |ById(ids)| ==> ById(ids)[i] != ById(ids)[j]
  {
    AscendingIsStrict(Elements(ids));
  }

  lemma LimitIsComplete(key: map<nat, int>, n: nat)
    ensures |Limit(OrderBy(key), n)| == if n < |key| then n else |key|
    ensures forall i :: i in Limit(OrderBy(key), n) ==> i in key
    ensures |key| <= n ==> forall i :: i in key ==> i in Limit(OrderBy(key), n)
  {
  }

  ghost predicate Strict(s: seq<nat>) {
    forall i, j :: 0 <= i < j < |s| ==> s[i] < s[j]
  }

  /** An ascending list is determined by its elements. */
  lemma {:induction false} StrictIsUnique(a: seq<nat>, b: seq<nat>)
    requires Strict(a) && Strict(b)
    requires forall i :: i in a <==> i in b
    ensures a == b
    decreases |a|
  {
    if a == [] {
      assert forall k :: 0 <= k < |b| ==> b[k] in a;
    } else {
      assert a[0] in b;
      assert b[0] in a;
      assert a[0] == b[0];
      forall i ensures i in a[1..] <==> i in b[1..] {
        assert i in a[1..] <==> i in a && i != a[0];
        assert i in b[1..] <==> i in b && i != b[0];
      }
      StrictIsUnique(a[1..], b[1..]);
    }
  }

  lemma RestOfStrict(all: seq<nat>, n: nat)
    requires Strict(all) && 0 < n <= |all|
    ensures Strict(all[n..])
    ensures forall i :: i in all[n..] <==> i in all && i > all[n - 1]
  {
    forall i | i in all && i > all[n - 1] ensures i in all[n..] {
      var k :| 0 <= k < |all| && all[k] == i;
      assert all[n..][k - n] == i;
    }
  }

  /** Keyset paging: the rows after the n-th one are the rest of the list. */
  lemma PageAfterCursor(ids: set<nat>, all: seq<nat>, n: nat)
    requires all == Ascending(ids) && 0 < n <= |all|
    ensures Ascending(set i | i in ids && i > all[n - 1]) == all[n..]
  {
    AscendingIsStrict(ids);
    RestOfStrict(all, n);
    var rest := set i | i in ids && i > all[n - 1];
    AscendingIsStrict(rest);
    StrictIsUnique(Ascending(rest), all[n..]);
  }

  function Elements(ids: seq<nat>): set<nat> {
    set i | i in ids
  }

  lemma {:induction false} StrictSize(ids: seq<nat>)
    requires Strict(ids)
    ensures |Elements(ids)| == |ids|
    decreases |ids|
  {
    if ids == [] {
      assert Elements(ids) == {};
    } else {
      var first, rest := ids[0], Elements(ids[1..]);
      assert first !in ids[1..];
      assert forall i :: i in ids <==> i == first || i in ids[1..];
      assert Elements(ids) == {first} + rest;
      StrictSize(ids[1..]);
    }
  }

  lemma LimitIsPrefix(ids: seq<nat>, n: nat)
    ensures Limit(ids, n) <= ids
    ensures |Limit(ids, n)| == if n < |ids| then n else |ids|
    ensures Strict(ids) ==> Strict(Limit(ids, n))
    ensures forall id :: id in Limit(ids, n) ==> id in ids
  {
    assert forall k :: 0 <= k < |Limit(ids, n)| ==> Limit(ids, n)[k] == ids[k];
  }

  /** SELECT id ... ORDER BY id LIMIT n. */
  function Page(ids: set<nat>, n: nat): seq<nat> {
    Limit(Ascending(ids), n)
  }

  lemma PageOfAscending(ids: set<nat>, n: nat)
    ensures Strict(Page(ids, n)) && |Page(ids, n)| == if n < |ids| then n else |ids|
    ensures forall i :: i in Page(ids, n) ==> i in ids
  {
    AscendingIsStrict(ids);
    LimitIsPrefix(Ascending(ids), n);
  }

  lemma Pick<T>(s: set<T>) returns (x: T)
    requires s != {}
    ensures x in s
  {
    x :| x in s;
  }

  lemma {:induction false} LeastExists(s: set<int>)
    requires s != {}
    ensures exists m :: m in s && forall x :: x in s ==> m <= x
    decreases |s|
  {
    var x := Pick(s);
    if s - {x} == {} {
      assert s == {x};
    } else {
      LeastExists(s - {x});
      var m :| m in s - {x} && forall y :: y in s - {x} ==> m <= y;
      var least := if x < m then x else m;
      assert forall y :: y in s ==> y == x || y in s - {x};
      assert least in s && forall y :: y in s ==> least <= y;
    }
  }

  function Least(s: set<int>): (m: int)
    requires s != {}
    ensures m in s && forall x :: x in s ==> m <= x
  {
    LeastExists(s);
    var m :| m in s && forall x :: x in s ==> m <= x;
    m
  }
}
