/**
 * Sequence operations shared by the store and the views: LINQ `Where` and
 * JavaScript `filter` (Filter), SQL `count(*)` (Count), and grouping by a key
 * in order of first appearance (LINQ `GroupBy`, and the grouping loop of the
 * library page).
 */
module Seqs {

  // ----- filtering -----

  /** The elements of `s` that satisfy `p`, in their original order. */
  function Filter<T>(s: seq<T>, p: T -> bool): (r: seq<T>)
    ensures |r| <= |s|
    decreases |s|
  {
    if |s| == 0 then [] else (if p(s[0]) then [s[0]] else []) + Filter(s[1..], p)
  }

  /** The filter keeps exactly the elements that pass the test. */
  lemma {:induction false} FilterMembers<T>(s: seq<T>, p: T -> bool)
    ensures forall i :: 0 <= i < |Filter(s, p)| ==> Filter(s, p)[i] in s && p(Filter(s, p)[i])
    ensures forall i :: 0 <= i < |s| && p(s[i]) ==> s[i] in Filter(s, p)
    decreases |s|
  {
    if |s| > 0 {
      FilterMembers(s[1..], p);
      var h: seq<T> := if p(s[0]) then [s[0]] else [];
      assert Filter(s, p) == h + Filter(s[1..], p);
      forall i | 0 <= i < |s| && p(s[i])
        ensures s[i] in Filter(s, p)
      {
        if i > 0 {
          assert s[i] == s[1..][i - 1];
        }
      }
    }
  }

  /** Filtering distributes over concatenation: relative order is kept. */
  lemma {:induction false} FilterConcat<T>(a: seq<T>, b: seq<T>, p: T -> bool)
    ensures Filter(a + b, p) == Filter(a, p) + Filter(b, p)
    decreases |a|
  {
    if |a| > 0 {
      assert (a + b)[0] == a[0];
      assert (a + b)[1..] == a[1..] + b;
      FilterConcat(a[1..], b, p);
      calc {
        Filter(a + b, p);
        (if p(a[0]) then [a[0]] else []) + Filter(a[1..] + b, p);
        (if p(a[0]) then [a[0]] else []) + (Filter(a[1..], p) + Filter(b, p));
      }
    } else {
      assert a + b == b;
    }
  }

  lemma FilterSingle<T>(x: T, p: T -> bool)
    ensures Filter([x], p) == if p(x) then [x] else []
  {
    assert [x][1..] == [];
  }

  /** A filter that every element passes returns the sequence itself. */
  lemma {:induction false} FilterKeepsAll<T>(s: seq<T>, p: T -> bool)
    requires forall i :: 0 <= i < |s| ==> p(s[i])
    ensures Filter(s, p) == s
    decreases |s|
  {
    if |s| > 0 {
      FilterKeepsAll(s[1..], p);
      assert [s[0]] + s[1..] == s;
    }
  }

  /** A filter that no element passes returns the empty sequence. */
  lemma FilterKeepsNone<T>(s: seq<T>, p: T -> bool)
    requires forall i :: 0 <= i < |s| ==> !p(s[i])
    ensures Filter(s, p) == []
  {
    FilterMembers(s, p);
  }

  /** Two complementary filters split a sequence into two parts that together hold every element. */
  lemma {:induction false} FilterPartition<T>(s: seq<T>, p: T -> bool, q: T -> bool)
    requires forall x :: q(x) == !p(x)
    ensures multiset(Filter(s, p)) + multiset(Filter(s, q)) == multiset(s)
    ensures |Filter(s, p)| + |Filter(s, q)| == |s|
    decreases |s|
  {
    if |s| > 0 {
      FilterPartition(s[1..], p, q);
      assert s == [s[0]] + s[1..];
    }
  }

  // ----- counting -----

  /** Number of elements of `s` that satisfy `p` (SQL `count(*)` with a `where` clause). */
  function Count<T>(s: seq<T>, p: T -> bool): nat {
    |Filter(s, p)|
  }

  lemma CountSnoc<T>(s: seq<T>, x: T, p: T -> bool)
    ensures Count(s + [x], p) == Count(s, p) + (if p(x) then 1 else 0)
  {
    FilterConcat(s, [x], p);
    FilterSingle(x, p);
  }

  lemma CountCons<T>(s: seq<T>, p: T -> bool)
    requires |s| > 0
    ensures Count(s, p) == (if p(s[0]) then 1 else 0) + Count(s[1..], p)
  {
  }

  /** A filter of a sequence whose elements have pairwise distinct `f`-images keeps that property. */
  lemma {:induction false} FilterDistinct<T, K>(s: seq<T>, p: T -> bool, f: T -> K)
    requires forall i, j :: 0 <= i < j < |s| ==> f(s[i]) != f(s[j])
    ensures forall i, j :: 0 <= i < j < |Filter(s, p)| ==> f(Filter(s, p)[i]) != f(Filter(s, p)[j])
    decreases |s|
  {
    if |s| > 0 {
      FilterDistinct(s[1..], p, f);
      FilterMembers(s[1..], p);
      var r := Filter(s[1..], p);
      forall k | 0 <= k < |r|
        ensures f(r[k]) != f(s[0])
      {
        var m :| 0 <= m < |s[1..]| && s[1..][m] == r[k];
        assert s[m + 1] == r[k];
      }
    }
  }

  /** The count is positive exactly when some element passes the test. */
  lemma CountPositive<T>(s: seq<T>, p: T -> bool)
    ensures Count(s, p) > 0 <==> exists i :: 0 <= i < |s| && p(s[i])
  {
    FilterMembers(s, p);
    if Count(s, p) > 0 {
      var x := Filter(s, p)[0];
      assert x in Filter(s, p);
      var i :| 0 <= i < |s| && s[i] == x;
    }
    if exists i :: 0 <= i < |s| && p(s[i]) {
      var i :| 0 <= i < |s| && p(s[i]);
      assert s[i] in Filter(s, p);
    }
  }

  // ----- first occurrences -----

  /** The distinct elements of `ks`, each at the place of its first occurrence. */
  function Dedup<K(==)>(ks: seq<K>): (r: seq<K>)
    ensures forall i :: 0 <= i < |r| ==> r[i] in ks
    ensures forall i :: 0 <= i < |ks| ==> ks[i] in r
    ensures forall i, j :: 0 <= i < j < |r| ==> r[i] != r[j]
    decreases |ks|
  {
    if |ks| == 0 then []
    else
      var p := Dedup(ks[..|ks| - 1]);
      assert ks == ks[..|ks| - 1] + [ks[|ks| - 1]];
      if ks[|ks| - 1] in p then p else p + [ks[|ks| - 1]]
  }

  // ----- grouping -----

  /** A group of items sharing one key. */
  datatype Group<K, T> = Group(key: K, items: seq<T>)

  function Keys<K, T>(gs: seq<Group<K, T>>): seq<K> {
    seq(|gs|, i requires 0 <= i < |gs| => gs[i].key)
  }

  predicate DistinctKeys<K(==), T>(gs: seq<Group<K, T>>) {
    forall i, j :: 0 <= i < j < |gs| ==> gs[i].key != gs[j].key
  }

  /** Appends `x` to the items of every group whose key is `k`. */
  function PushMatching<K(==), T>(gs: seq<Group<K, T>>, k: K, x: T): seq<Group<K, T>> {
    seq(|gs|, i requires 0 <= i < |gs| => if gs[i].key == k then Group(k, gs[i].items + [x]) else gs[i])
  }

  /** One step of grouping: push into the existing group(s) with key `k`, or open a new group at the end. */
  function AddToGroups<K(==), T>(gs: seq<Group<K, T>>, k: K, x: T): seq<Group<K, T>> {
    if k in Keys(gs) then PushMatching(gs, k, x) else gs + [Group(k, [x])]
  }

  /** Groups `s` by `key`, groups in order of their key's first appearance, items in input order. */
  function GroupBy<K(==), T>(s: seq<T>, key: T -> K): seq<Group<K, T>>
    decreases |s|
  {
    if |s| == 0 then [] else AddToGroups(GroupBy(s[..|s| - 1], key), key(s[|s| - 1]), s[|s| - 1])
  }

  /** The keys of the elements of `s`, in order. */
  function KeysOf<K, T>(s: seq<T>, key: T -> K): seq<K> {
    seq(|s|, i requires 0 <= i < |s| => key(s[i]))
  }

  /** The test "has key `k`". */
  function HasKey<K(==), T>(key: T -> K, k: K): T -> bool {
    (x: T) => key(x) == k
  }

  function TotalItems<K, T>(gs: seq<Group<K, T>>): nat
    decreases |gs|
  {
    if |gs| == 0 then 0 else |gs[0].items| + TotalItems(gs[1..])
  }

  lemma {:induction false} TotalItemsSnoc<K, T>(gs: seq<Group<K, T>>, g: Group<K, T>)
    ensures TotalItems(gs + [g]) == TotalItems(gs) + |g.items|
    decreases |gs|
  {
    if |gs| > 0 {
      assert (gs + [g])[1..] == gs[1..] + [g];
      TotalItemsSnoc(gs[1..], g);
    }
  }

  lemma KeysPush<K, T>(gs: seq<Group<K, T>>, k: K, x: T)
    ensures Keys(PushMatching(gs, k, x)) == Keys(gs)
  {
  }

  lemma KeysSnoc<K, T>(gs: seq<Group<K, T>>, g: Group<K, T>)
    ensures Keys(gs + [g]) == Keys(gs) + [g.key]
  {
  }

  lemma KeysOfSnoc<K, T>(s: seq<T>, x: T, key: T -> K)
    ensures KeysOf(s + [x], key) == KeysOf(s, key) + [key(x)]
  {
  }

  /** One grouping step keeps the keys equal to the first occurrences of the input's keys. */
  lemma AddToGroupsKeys<K, T>(gs: seq<Group<K, T>>, ks: seq<K>, k: K, x: T)
    requires Keys(gs) == Dedup(ks)
    ensures Keys(AddToGroups(gs, k, x)) == Dedup(ks + [k])
  {
    assert (ks + [k])[..|ks|] == ks;
    if k in Keys(gs) {
      KeysPush(gs, k, x);
    } else {
      KeysSnoc(gs, Group(k, [x]));
    }
  }

  /** The groups' keys are the distinct keys of the input, in order of first appearance. */
  lemma {:induction false} GroupByKeys<K, T>(s: seq<T>, key: T -> K)
    ensures Keys(GroupBy(s, key)) == Dedup(KeysOf(s, key))
    ensures DistinctKeys(GroupBy(s, key))
    decreases |s|
  {
    if |s| > 0 {
      var n := |s| - 1;
      assert s == s[..n] + [s[n]];
      GroupByKeys(s[..n], key);
      KeysOfSnoc(s[..n], s[n], key);
      AddToGroupsKeys(GroupBy(s[..n], key), KeysOf(s[..n], key), key(s[n]), s[n]);
    }
    var gs := GroupBy(s, key);
    assert forall i :: 0 <= i < |gs| ==> gs[i].key == Keys(gs)[i];
  }

  /** Groups that hold exactly the elements of `s` with their key, covering every element. */
  ghost predicate GroupsOf<K, T>(gs: seq<Group<K, T>>, s: seq<T>, key: T -> K) {
    && DistinctKeys(gs)
    && (forall i :: 0 <= i < |gs| ==> gs[i].items == Filter(s, HasKey(key, gs[i].key)))
    && (forall i :: 0 <= i < |s| ==> key(s[i]) in Keys(gs))
  }

  lemma FilterSnocKey<K, T>(s: seq<T>, x: T, key: T -> K, k: K)
    ensures Filter(s + [x], HasKey(key, k)) == Filter(s, HasKey(key, k)) + (if key(x) == k then [x] else [])
  {
    FilterConcat(s, [x], HasKey(key, k));
    FilterSingle(x, HasKey(key, k));
  }

  /** One grouping step, into an existing group. */
  lemma PushKeepsGroups<K, T>(gs: seq<Group<K, T>>, s: seq<T>, key: T -> K, x: T)
    requires GroupsOf(gs, s, key)
    requires key(x) in Keys(gs)
    ensures GroupsOf(PushMatching(gs, key(x), x), s + [x], key)
  {
    var r := PushMatching(gs, key(x), x);
    KeysPush(gs, key(x), x);
    forall i | 0 <= i < |r|
      ensures r[i].items == Filter(s + [x], HasKey(key, r[i].key))
    {
      FilterSnocKey(s, x, key, gs[i].key);
    }
    forall i | 0 <= i < |s + [x]|
      ensures key((s + [x])[i]) in Keys(r)
    {
      if i < |s| {
        assert (s + [x])[i] == s[i];
      }
    }
    assert forall i :: 0 <= i < |r| ==> r[i].key == Keys(r)[i];
    assert forall i :: 0 <= i < |gs| ==> gs[i].key == Keys(gs)[i];
  }

  /** One grouping step, opening a new group. */
  lemma SnocKeepsGroups<K, T>(gs: seq<Group<K, T>>, s: seq<T>, key: T -> K, x: T)
    requires GroupsOf(gs, s, key)
    requires key(x) !in Keys(gs)
    ensures GroupsOf(gs + [Group(key(x), [x])], s + [x], key)
  {
    var r := gs + [Group(key(x), [x])];
    KeysSnoc(gs, Group(key(x), [x]));
    forall i | 0 <= i < |r|
      ensures r[i].items == Filter(s + [x], HasKey(key, r[i].key))
    {
      FilterSnocKey(s, x, key, r[i].key);
      if i < |gs| {
        assert gs[i].key == Keys(gs)[i];
      } else {
        FilterKeepsNone(s, HasKey(key, key(x)));
      }
    }
    forall i | 0 <= i < |s + [x]|
      ensures key((s + [x])[i]) in Keys(r)
    {
      if i < |s| {
        assert (s + [x])[i] == s[i];
      }
    }
    assert forall i :: 0 <= i < |r| ==> r[i].key == Keys(r)[i];
    assert forall i :: 0 <= i < |gs| ==> gs[i].key == Keys(gs)[i];
  }

  /**
   * Every group holds exactly the input elements with its key, in input
   * order, and every input element's key has a group.
   */
  lemma {:induction false} GroupByItems<K, T>(s: seq<T>, key: T -> K)
    ensures GroupsOf(GroupBy(s, key), s, key)
    decreases |s|
  {
    if |s| > 0 {
      var n := |s| - 1;
      assert s == s[..n] + [s[n]];
      GroupByItems(s[..n], key);
      if key(s[n]) in Keys(GroupBy(s[..n], key)) {
        PushKeepsGroups(GroupBy(s[..n], key), s[..n], key, s[n]);
      } else {
        SnocKeepsGroups(GroupBy(s[..n], key), s[..n], key, s[n]);
      }
    }
  }

  /** Pushing into the one group with key `k` adds exactly one item overall. */
  lemma {:induction false} TotalItemsPush<K, T>(gs: seq<Group<K, T>>, k: K, x: T)
    requires DistinctKeys(gs)
    requires k in Keys(gs)
    ensures TotalItems(PushMatching(gs, k, x)) == TotalItems(gs) + 1
    decreases |gs|
  {
    var r := PushMatching(gs, k, x);
    assert r[1..] == PushMatching(gs[1..], k, x);
    assert Keys(gs) == [gs[0].key] + Keys(gs[1..]);
    if gs[0].key == k {
      assert k !in Keys(gs[1..]);
      assert PushMatching(gs[1..], k, x) == gs[1..];
    } else {
      TotalItemsPush(gs[1..], k, x);
    }
  }

  /** Every group is non-empty and the groups hold as many items as the input has elements. */
  lemma {:induction false} GroupBySizes<K, T>(s: seq<T>, key: T -> K)
    ensures forall i :: 0 <= i < |GroupBy(s, key)| ==> |GroupBy(s, key)[i].items| > 0
    ensures TotalItems(GroupBy(s, key)) == |s|
    decreases |s|
  {
    if |s| > 0 {
      var n := |s| - 1;
      var gs := GroupBy(s[..n], key);
      GroupBySizes(s[..n], key);
      GroupByKeys(s[..n], key);
      var k := key(s[n]);
      if k in Keys(gs) {
        TotalItemsPush(gs, k, s[n]);
      } else {
        TotalItemsSnoc(gs, Group(k, [s[n]]));
      }
    }
  }

  /** Each element of the input lies in exactly one group: the one with its key. */
  lemma GroupByPartition<K, T>(s: seq<T>, key: T -> K, j: nat)
    requires j < |s|
    ensures key(s[j]) in Keys(GroupBy(s, key))
    ensures forall i :: 0 <= i < |GroupBy(s, key)| ==>
              (s[j] in GroupBy(s, key)[i].items <==> GroupBy(s, key)[i].key == key(s[j]))
  {
    GroupByItems(s, key);
    FilterMembers(s, HasKey(key, key(s[j])));
    forall i | 0 <= i < |GroupBy(s, key)|
      ensures s[j] in GroupBy(s, key)[i].items ==> GroupBy(s, key)[i].key == key(s[j])
    {
      FilterMembers(s, HasKey(key, GroupBy(s, key)[i].key));
    }
    assert s[j] in Filter(s, HasKey(key, key(s[j])));
  }

  // ----- narrowing groups -----

  /** Each group's items narrowed to those satisfying `p`; keys and order stay. */
  function NarrowGroups<K, T>(gs: seq<Group<K, T>>, p: T -> bool): seq<Group<K, T>> {
    seq(|gs|, i requires 0 <= i < |gs| => Group(gs[i].key, Filter(gs[i].items, p)))
  }

  function NonEmptyGroup<K, T>(g: Group<K, T>): bool {
    |g.items| > 0
  }

  function GroupKey<K, T>(g: Group<K, T>): K {
    g.key
  }

  /** The `m`-th narrowed group keeps its key and holds the elements of that key that satisfy `p`. */
  lemma NarrowedGroupAt<K, T>(s: seq<T>, key: T -> K, p: T -> bool, m: nat)
    requires m < |GroupBy(s, key)|
    ensures NarrowGroups(GroupBy(s, key), p)[m].key == GroupBy(s, key)[m].key
    ensures NarrowGroups(GroupBy(s, key), p)[m].items ==
              Filter(Filter(s, HasKey(key, GroupBy(s, key)[m].key)), p)
  {
    GroupByItems(s, key);
  }

  /** Narrowing and dropping empty groups keeps the keys distinct. */
  lemma NarrowedGroupsDistinct<K, T>(s: seq<T>, key: T -> K, p: T -> bool)
    ensures DistinctKeys(Filter(NarrowGroups(GroupBy(s, key), p), NonEmptyGroup))
  {
    var n := NarrowGroups(GroupBy(s, key), p);
    GroupByKeys(s, key);
    assert forall i, j :: 0 <= i < j < |n| ==> GroupKey(n[i]) != GroupKey(n[j]);
    FilterDistinct(n, NonEmptyGroup, GroupKey);
    var r := Filter(n, NonEmptyGroup);
    assert forall i, j :: 0 <= i < j < |r| ==> GroupKey(r[i]) != GroupKey(r[j]);
  }

  /**
   * Narrowing a grouping by `p` and dropping the empty groups leaves groups
   * with distinct keys, none empty, each holding exactly the elements of its
   * key that satisfy `p`.
   */
  lemma NarrowedGroupsShape<K, T>(s: seq<T>, key: T -> K, p: T -> bool)
    ensures DistinctKeys(Filter(NarrowGroups(GroupBy(s, key), p), NonEmptyGroup))
    ensures forall i :: 0 <= i < |Filter(NarrowGroups(GroupBy(s, key), p), NonEmptyGroup)| ==>
              var g := Filter(NarrowGroups(GroupBy(s, key), p), NonEmptyGroup)[i];
              |g.items| > 0 && g.items == Filter(Filter(s, HasKey(key, g.key)), p)
  {
    NarrowedGroupsDistinct(s, key, p);
    var n := NarrowGroups(GroupBy(s, key), p);
    var r := Filter(n, NonEmptyGroup);
    FilterMembers(n, NonEmptyGroup);
    forall i | 0 <= i < |r|
      ensures |r[i].items| > 0 && r[i].items == Filter(Filter(s, HasKey(key, r[i].key)), p)
    {
      var m :| 0 <= m < |n| && n[m] == r[i];
      NarrowedGroupAt(s, key, p, m);
    }
  }

  /** An element satisfying `p` survives narrowing, in a non-empty group. */
  lemma NarrowedGroupsKeepHit<K, T>(s: seq<T>, key: T -> K, p: T -> bool, j: nat)
    requires j < |s| && p(s[j])
    ensures exists i :: 0 <= i < |Filter(NarrowGroups(GroupBy(s, key), p), NonEmptyGroup)| &&
              s[j] in Filter(NarrowGroups(GroupBy(s, key), p), NonEmptyGroup)[i].items
  {
    var gs := GroupBy(s, key);
    var n := NarrowGroups(gs, p);
    var r := Filter(n, NonEmptyGroup);
    GroupByPartition(s, key, j);
    var m :| 0 <= m < |gs| && Keys(gs)[m] == key(s[j]);
    assert s[j] in gs[m].items;
    var t :| 0 <= t < |gs[m].items| && gs[m].items[t] == s[j];
    FilterMembers(gs[m].items, p);
    assert s[j] in n[m].items;
    FilterMembers(n, NonEmptyGroup);
    assert n[m] in r;
    var i :| 0 <= i < |r| && r[i] == n[m];
    assert s[j] in r[i].items;
  }

  /** Whatever survives narrowing satisfies `p`. */
  lemma NarrowedGroupsOnlyHits<K, T>(gs: seq<Group<K, T>>, p: T -> bool, x: T, i: nat)
    requires i < |Filter(NarrowGroups(gs, p), NonEmptyGroup)|
    requires x in Filter(NarrowGroups(gs, p), NonEmptyGroup)[i].items
    ensures p(x)
  {
    var n := NarrowGroups(gs, p);
    var r := Filter(n, NonEmptyGroup);
    FilterMembers(n, NonEmptyGroup);
    var m :| 0 <= m < |n| && n[m] == r[i];
    FilterMembers(gs[m].items, p);
    var t :| 0 <= t < |n[m].items| && n[m].items[t] == x;
  }
}
