/** Grouping a list into a dictionary of buckets with a running total, the
    `reduce((acc, o) => { if (!acc[k]) acc[k] = ...; acc[k].push(o); ... }, {})`
    idiom several components use. The dictionary is a sequence of groups in
    the order their keys were first met, which is the order `Object.values`
    gives for keys that do not look like array indices. */
module Aggregation {
  import opened Seqs

  /** One bucket: its key, the orders that fell into it in list order, and
      the running total of their weights. */
  datatype Group<T> = Group(key: string, items: seq<T>, total: int)

  /** The distinct keys of `os`, in order of first appearance. */
  function KeysOf<T(!new)>(os: seq<T>, keyOf: T -> string): (r: seq<string>)
    ensures NoDuplicates(r)
    ensures forall k :: k in r <==> k in Project(os, keyOf)
    ensures forall o :: o in os ==> keyOf(o) in r
  {
    var r := Distinct(Project(os, keyOf));
    assert forall o :: o in os ==> keyOf(o) in Project(os, keyOf) by {
      forall o | o in os ensures keyOf(o) in Project(os, keyOf) {
        var i :| 0 <= i < |os| && os[i] == o;
        assert Project(os, keyOf)[i] == keyOf(o);
      }
    }
    r
  }

  /** The orders with key `k`, in list order. */
  function WithKey<T(!new)>(os: seq<T>, keyOf: T -> string, k: string): seq<T> {
    Filter(os, o => keyOf(o) == k)
  }

  function GroupOf<T(!new)>(os: seq<T>, keyOf: T -> string, w: T -> int, k: string): Group<T> {
    var items := WithKey(os, keyOf, k);
    Group(k, items, Sum(items, w))
  }

  /** What the grouping produces: one group per distinct key. */
  function GroupsOf<T(!new)>(os: seq<T>, keyOf: T -> string, w: T -> int): (gs: seq<Group<T>>)
    ensures |gs| == |KeysOf(os, keyOf)|
    ensures forall j :: 0 <= j < |gs| ==> gs[j].key == KeysOf(os, keyOf)[j]
  {
    var ks := KeysOf(os, keyOf);
    seq(|ks|, j requires 0 <= j < |ks| => GroupOf(os, keyOf, w, ks[j]))
  }

  /** The position of the group with key `k` (the dictionary lookup `acc[k]`),
      or `|gs|` when there is none. */
  function IndexOfKey<T>(gs: seq<Group<T>>, k: string): (r: nat)
    ensures r <= |gs|
    ensures r < |gs| ==> gs[r].key == k
    ensures forall j :: 0 <= j < r ==> gs[j].key != k
  {
    if gs == [] then 0
    else if gs[0].key == k then 0
    else 1 + IndexOfKey(gs[1..], k)
  }

  /** One step of the `reduce`: create the bucket if it is missing, then push
      the order and add its weight. */
  function AddTo<T>(gs: seq<Group<T>>, o: T, keyOf: T -> string, w: T -> int): seq<Group<T>> {
    var k := keyOf(o);
    var j := IndexOfKey(gs, k);
    var gs' := if j == |gs| then gs + [Group(k, [], 0)] else gs;
    gs'[j := Group(k, gs'[j].items + [o], gs'[j].total + w(o))]
  }

  lemma WithKeySnoc<T(!new)>(s: seq<T>, o: T, keyOf: T -> string, k: string)
    ensures WithKey(s + [o], keyOf, k) == WithKey(s, keyOf, k) + (if keyOf(o) == k then [o] else [])
  {
    assert (s + [o])[..|s|] == s;
  }

  lemma SumSnoc<T>(s: seq<T>, o: T, w: T -> int)
    ensures Sum(s + [o], w) == Sum(s, w) + w(o)
  {
    assert (s + [o])[..|s|] == s;
  }

  lemma KeysOfSnoc<T(!new)>(s: seq<T>, o: T, keyOf: T -> string)
    ensures KeysOf(s + [o], keyOf) ==
      if keyOf(o) in KeysOf(s, keyOf) then KeysOf(s, keyOf) else KeysOf(s, keyOf) + [keyOf(o)]
  {
    ProjectSnoc(s, o, keyOf);
    DistinctSnoc(Project(s, keyOf), keyOf(o));
  }

  lemma GroupOfSnoc<T(!new)>(s: seq<T>, o: T, keyOf: T -> string, w: T -> int, k: string)
    ensures GroupOf(s + [o], keyOf, w, k).key == k
    ensures GroupOf(s + [o], keyOf, w, k).items == GroupOf(s, keyOf, w, k).items + (if keyOf(o) == k then [o] else [])
    ensures GroupOf(s + [o], keyOf, w, k).total == GroupOf(s, keyOf, w, k).total + (if keyOf(o) == k then w(o) else 0)
  {
    WithKeySnoc(s, o, keyOf, k);
    SumAppend(WithKey(s, keyOf, k), if keyOf(o) == k then [o] else [], w);
  }

  lemma GroupOfSnocHit<T(!new)>(s: seq<T>, o: T, keyOf: T -> string, w: T -> int)
    ensures var g := GroupOf(s, keyOf, w, keyOf(o));
      GroupOf(s + [o], keyOf, w, keyOf(o)) == Group(keyOf(o), g.items + [o], g.total + w(o))
  {
    GroupOfSnoc(s, o, keyOf, w, keyOf(o));
  }

  lemma GroupOfSnocMiss<T(!new)>(s: seq<T>, o: T, keyOf: T -> string, w: T -> int, k: string)
    requires keyOf(o) != k
    ensures GroupOf(s + [o], keyOf, w, k) == GroupOf(s, keyOf, w, k)
  {
    GroupOfSnoc(s, o, keyOf, w, k);
  }

  /** What one step does to the groups: the bucket for the order's key gets
      the order and its weight, a missing bucket is added at the end, and
      every other bucket is left alone. */
  lemma AddToShape<T>(gs: seq<Group<T>>, o: T, keyOf: T -> string, w: T -> int)
    ensures var r, j := AddTo(gs, o, keyOf, w), IndexOfKey(gs, keyOf(o));
      && |r| == (if j == |gs| then |gs| + 1 else |gs|)
      && (forall i :: 0 <= i < |gs| && i != j ==> r[i] == gs[i])
      && r[j] == (if j == |gs| then Group(keyOf(o), [o], w(o))
                  else Group(keyOf(o), gs[j].items + [o], gs[j].total + w(o)))
  {
  }

  /** A key nobody has gives an empty group. */
  lemma GroupOfMissing<T(!new)>(s: seq<T>, keyOf: T -> string, w: T -> int, k: string)
    requires k !in KeysOf(s, keyOf)
    ensures GroupOf(s, keyOf, w, k) == Group(k, [], 0)
  {
    FilterNone(s, o => keyOf(o) == k);
  }

  lemma GroupsOfAt<T(!new)>(s: seq<T>, keyOf: T -> string, w: T -> int, i: nat)
    requires i < |KeysOf(s, keyOf)|
    ensures GroupsOf(s, keyOf, w)[i] == GroupOf(s, keyOf, w, KeysOf(s, keyOf)[i])
  {
  }

  /** A bucket whose key is not the new order's is unchanged. */
  lemma GroupsOfSnocKept<T(!new)>(s: seq<T>, o: T, keyOf: T -> string, w: T -> int, i: nat)
    requires i < |KeysOf(s, keyOf)| && KeysOf(s, keyOf)[i] != keyOf(o)
    ensures i < |GroupsOf(s + [o], keyOf, w)|
    ensures GroupsOf(s + [o], keyOf, w)[i] == GroupsOf(s, keyOf, w)[i]
  {
    var ks := KeysOf(s, keyOf);
    KeysOfSnoc(s, o, keyOf);
    assert KeysOf(s + [o], keyOf)[i] == ks[i];
    GroupsOfAt(s + [o], keyOf, w, i);
    GroupsOfAt(s, keyOf, w, i);
    GroupOfSnocMiss(s, o, keyOf, w, ks[i]);
  }

  /** The bucket of the new order's key gets the order and its weight. */
  lemma GroupsOfSnocHit<T(!new)>(s: seq<T>, o: T, keyOf: T -> string, w: T -> int, i: nat)
    requires i < |KeysOf(s, keyOf)| && KeysOf(s, keyOf)[i] == keyOf(o)
    ensures i < |GroupsOf(s + [o], keyOf, w)|
    ensures var g := GroupsOf(s, keyOf, w)[i];
      GroupsOf(s + [o], keyOf, w)[i] == Group(keyOf(o), g.items + [o], g.total + w(o))
  {
    var ks := KeysOf(s, keyOf);
    KeysOfSnoc(s, o, keyOf);
    assert KeysOf(s + [o], keyOf)[i] == ks[i];
    GroupsOfAt(s + [o], keyOf, w, i);
    GroupsOfAt(s, keyOf, w, i);
    GroupOfSnocHit(s, o, keyOf, w);
  }

  /** A key met for the first time opens a bucket at the end. */
  lemma GroupsOfSnocNew<T(!new)>(s: seq<T>, o: T, keyOf: T -> string, w: T -> int)
    requires keyOf(o) !in KeysOf(s, keyOf)
    ensures |GroupsOf(s + [o], keyOf, w)| == |GroupsOf(s, keyOf, w)| + 1
    ensures GroupsOf(s + [o], keyOf, w)[|GroupsOf(s, keyOf, w)|] == Group(keyOf(o), [o], w(o))
  {
    var ks := KeysOf(s, keyOf);
    KeysOfSnoc(s, o, keyOf);
    assert KeysOf(s + [o], keyOf)[|ks|] == keyOf(o);
    GroupsOfAt(s + [o], keyOf, w, |ks|);
    GroupOfMissing(s, keyOf, w, keyOf(o));
    GroupOfSnocHit(s, o, keyOf, w);
  }

  /** Where the new order's key sits among the keys met so far. */
  lemma IndexOfKeyInKeys<T(!new)>(s: seq<T>, keyOf: T -> string, w: T -> int, k: string)
    ensures var gs, ks, j := GroupsOf(s, keyOf, w), KeysOf(s, keyOf), IndexOfKey(GroupsOf(s, keyOf, w), k);
      && (j < |gs| ==> ks[j] == k)
      && (j == |gs| ==> k !in ks)
  {
    var gs, ks := GroupsOf(s, keyOf, w), KeysOf(s, keyOf);
    if IndexOfKey(gs, k) == |gs| {
      forall i | 0 <= i < |ks| ensures ks[i] != k {
        assert gs[i].key == ks[i];
      }
    }
  }

  /** Position `i` after grouping one more order. */
  lemma GroupsOfSnocAt<T(!new)>(s: seq<T>, o: T, keyOf: T -> string, w: T -> int, i: nat)
    requires i < |GroupsOf(s + [o], keyOf, w)|
    ensures i < |AddTo(GroupsOf(s, keyOf, w), o, keyOf, w)|
    ensures GroupsOf(s + [o], keyOf, w)[i] == AddTo(GroupsOf(s, keyOf, w), o, keyOf, w)[i]
  {
    var gs, k, ks := GroupsOf(s, keyOf, w), keyOf(o), KeysOf(s, keyOf);
    KeysOfSnoc(s, o, keyOf);
    AddToShape(gs, o, keyOf, w);
    IndexOfKeyInKeys(s, keyOf, w, k);
    var j := IndexOfKey(gs, k);
    if i == |gs| {
      GroupsOfSnocNew(s, o, keyOf, w);
    } else if i == j {
      GroupsOfSnocHit(s, o, keyOf, w, i);
    } else {
      assert ks[i] != k by {
        if j < |gs| { assert ks[j] == k; }
      }
      GroupsOfSnocKept(s, o, keyOf, w, i);
    }
  }

  /** Grouping one more order is one more step of the `reduce`. */
  lemma GroupsOfSnoc<T(!new)>(s: seq<T>, o: T, keyOf: T -> string, w: T -> int)
    ensures GroupsOf(s + [o], keyOf, w) == AddTo(GroupsOf(s, keyOf, w), o, keyOf, w)
  {
    var left, right := GroupsOf(s + [o], keyOf, w), AddTo(GroupsOf(s, keyOf, w), o, keyOf, w);
    KeysOfSnoc(s, o, keyOf);
    AddToShape(GroupsOf(s, keyOf, w), o, keyOf, w);
    IndexOfKeyInKeys(s, keyOf, w, keyOf(o));
    assert |left| == |right|;
    forall i | 0 <= i < |left| ensures left[i] == right[i] {
      GroupsOfSnocAt(s, o, keyOf, w, i);
    }
    EqualByIndex(left, right);
  }

  /** The `reduce` callback: create the bucket if it is missing, then push
      the order and add its weight. */
  method Accumulate<T>(acc: seq<Group<T>>, o: T, keyOf: T -> string, w: T -> int) returns (r: seq<Group<T>>)
    ensures r == AddTo(acc, o, keyOf, w)
  {
    var k := keyOf(o);
    var j := IndexOfKey(acc, k);
    r := acc;
    if j == |r| {
      r := r + [Group(k, [], 0)];
    }
    r := r[j := Group(k, r[j].items + [o], r[j].total + w(o))];
  }

  /** The loop of the `reduce`, proved to compute `GroupsOf`. */
  method GroupBy<T(!new)>(os: seq<T>, keyOf: T -> string, w: T -> int) returns (gs: seq<Group<T>>)
    ensures gs == GroupsOf(os, keyOf, w)
  {
    gs := [];
    for i := 0 to |os|
      invariant gs == GroupsOf(os[..i], keyOf, w)
    {
      gs := Accumulate(gs, os[i], keyOf, w);
      assert os[..i + 1] == os[..i] + [os[i]];
      GroupsOfSnoc(os[..i], os[i], keyOf, w);
    }
    assert os[..|os|] == os;
  }

  // ---- what the groups are ----

  /** The keys of the groups are never repeated, and a group holds exactly
      the orders carrying its key, with their summed weight as its total. */
  lemma GroupsAreByKey<T(!new)>(os: seq<T>, keyOf: T -> string, w: T -> int)
    ensures var gs := GroupsOf(os, keyOf, w);
      && (forall i, j :: 0 <= i < j < |gs| ==> gs[i].key != gs[j].key)
      && (forall j, x :: 0 <= j < |gs| ==> (x in gs[j].items <==> x in os && keyOf(x) == gs[j].key))
      && (forall j :: 0 <= j < |gs| ==> gs[j].total == Sum(gs[j].items, w))
  {
    var gs, ks := GroupsOf(os, keyOf, w), KeysOf(os, keyOf);
    forall j | 0 <= j < |gs| ensures gs[j] == GroupOf(os, keyOf, w, ks[j]) {
      GroupsOfAt(os, keyOf, w, j);
    }
  }

  /** Every order has a group, and every group is non-empty. */
  lemma GroupsCover<T(!new)>(os: seq<T>, keyOf: T -> string, w: T -> int)
    ensures var gs := GroupsOf(os, keyOf, w);
      && (forall o :: o in os ==> exists j :: 0 <= j < |gs| && gs[j].key == keyOf(o))
      && (forall j :: 0 <= j < |gs| ==> gs[j].items != [])
  {
    var gs, ks := GroupsOf(os, keyOf, w), KeysOf(os, keyOf);
    forall j | 0 <= j < |gs| ensures gs[j].items != [] {
      GroupsOfAt(os, keyOf, w, j);
      assert ks[j] in Project(os, keyOf);
      var i :| 0 <= i < |os| && Project(os, keyOf)[i] == ks[j];
      assert os[i] in gs[j].items;
    }
    forall o | o in os ensures exists j :: 0 <= j < |gs| && gs[j].key == keyOf(o) {
      var j :| 0 <= j < |ks| && ks[j] == keyOf(o);
      assert gs[j].key == keyOf(o);
    }
  }

  /** There are as many groups as distinct keys. */
  lemma GroupCount<T(!new)>(os: seq<T>, keyOf: T -> string, w: T -> int)
    ensures |GroupsOf(os, keyOf, w)| == |set o | o in os :: keyOf(o)|
  {
    DistinctCardinality(Project(os, keyOf));
    assert (set x | x in Project(os, keyOf)) == (set o | o in os :: keyOf(o)) by {
      forall x | x in Project(os, keyOf) ensures x in (set o | o in os :: keyOf(o)) {
        var i :| 0 <= i < |os| && Project(os, keyOf)[i] == x;
        assert os[i] in os;
      }
    }
  }

  /** The first order of a group is the first order in the list with its key. */
  lemma GroupHeadIsFirst<T(!new)>(os: seq<T>, keyOf: T -> string, w: T -> int, j: nat)
    requires j < |GroupsOf(os, keyOf, w)|
    ensures var g := GroupsOf(os, keyOf, w)[j];
      g.items != [] &&
      (exists i :: 0 <= i < |os| && os[i] == g.items[0] && keyOf(os[i]) == g.key &&
        forall i' :: 0 <= i' < i ==> keyOf(os[i']) != g.key)
  {
    var g := GroupsOf(os, keyOf, w)[j];
    var ks := KeysOf(os, keyOf);
    assert g.key == ks[j] && g.items == WithKey(os, keyOf, ks[j]);
    assert ks[j] in Project(os, keyOf);
    var m :| 0 <= m < |os| && Project(os, keyOf)[m] == ks[j];
    assert os[m] in os && keyOf(os[m]) == g.key;
    var i := FirstWithKey(os, keyOf, g.key);
    FilterFirst(os, o => keyOf(o) == g.key, i);
  }

  /** The position of the first order whose key is `k`. */
  lemma FirstWithKey<T(!new)>(os: seq<T>, keyOf: T -> string, k: string) returns (i: nat)
    requires exists o :: o in os && keyOf(o) == k
    ensures i < |os| && keyOf(os[i]) == k
    ensures forall i' :: 0 <= i' < i ==> keyOf(os[i']) != k
  {
    var o :| o in os && keyOf(o) == k;
    var m :| 0 <= m < |os| && os[m] == o;
    i := 0;
    while keyOf(os[i]) != k
      invariant i <= m
      invariant forall i' :: 0 <= i' < i ==> keyOf(os[i']) != k
      decreases m - i
    {
      i := i + 1;
    }
  }

  // ---- the groups partition the list ----

  /** The weights of the orders with each of the keys `ks`, added up. */
  function SumByKeys<T(!new)>(ks: seq<string>, os: seq<T>, keyOf: T -> string, v: T -> int): int {
    if ks == [] then 0 else Sum(WithKey(os, keyOf, ks[0]), v) + SumByKeys(ks[1..], os, keyOf, v)
  }

  /** The weights inside the groups, added up. */
  function SumOfGroups<T>(gs: seq<Group<T>>, v: T -> int): int {
    if gs == [] then 0 else Sum(gs[0].items, v) + SumOfGroups(gs[1..], v)
  }

  /** The group totals, added up. */
  function SumOfTotals<T>(gs: seq<Group<T>>): int {
    if gs == [] then 0 else gs[0].total + SumOfTotals(gs[1..])
  }

  lemma {:induction false} SumByKeysEmpty<T(!new)>(ks: seq<string>, keyOf: T -> string, v: T -> int)
    ensures SumByKeys(ks, [], keyOf, v) == 0
  {
    if ks != [] {
      SumByKeysEmpty(ks[1..], keyOf, v);
    }
  }

  lemma {:induction false} SumByKeysSnoc<T(!new)>(ks: seq<string>, s: seq<T>, o: T, keyOf: T -> string, v: T -> int)
    requires NoDuplicates(ks)
    ensures SumByKeys(ks, s + [o], keyOf, v) == SumByKeys(ks, s, keyOf, v) + (if keyOf(o) in ks then v(o) else 0)
  {
    if ks != [] {
      SumByKeysSnoc(ks[1..], s, o, keyOf, v);
      WithKeySnoc(s, o, keyOf, ks[0]);
      assert ks == [ks[0]] + ks[1..];
      if keyOf(o) == ks[0] {
        SumSnoc(WithKey(s, keyOf, ks[0]), o, v);
        assert keyOf(o) !in ks[1..];
      } else {
        assert WithKey(s + [o], keyOf, ks[0]) == WithKey(s, keyOf, ks[0]);
        assert keyOf(o) in ks <==> keyOf(o) in ks[1..];
      }
    }
  }

  /** Summing per key over keys that cover the list, each key once, sums the list. */
  lemma {:induction false} SumByKeysCovers<T(!new)>(ks: seq<string>, os: seq<T>, keyOf: T -> string, v: T -> int)
    requires NoDuplicates(ks)
    requires forall o :: o in os ==> keyOf(o) in ks
    ensures SumByKeys(ks, os, keyOf, v) == Sum(os, v)
    decreases |os|
  {
    if os == [] {
      SumByKeysEmpty(ks, keyOf, v);
    } else {
      var s, o := os[..|os| - 1], os[|os| - 1];
      assert os == s + [o];
      SumByKeysCovers(ks, s, keyOf, v);
      SumByKeysSnoc(ks, s, o, keyOf, v);
      SumSnoc(s, o, v);
    }
  }

  lemma {:induction false} SumOfGroupsByKeys<T(!new)>(gs: seq<Group<T>>, ks: seq<string>, os: seq<T>, keyOf: T -> string, v: T -> int)
    requires |gs| == |ks|
    requires forall j :: 0 <= j < |gs| ==> gs[j].items == WithKey(os, keyOf, ks[j])
    ensures SumOfGroups(gs, v) == SumByKeys(ks, os, keyOf, v)
  {
    if gs != [] {
      SumOfGroupsByKeys(gs[1..], ks[1..], os, keyOf, v);
    }
  }

  lemma {:induction false} SumOfTotalsIsSum<T>(gs: seq<Group<T>>, w: T -> int)
    requires forall j :: 0 <= j < |gs| ==> gs[j].total == Sum(gs[j].items, w)
    ensures SumOfTotals(gs) == SumOfGroups(gs, w)
  {
    if gs != [] {
      SumOfTotalsIsSum(gs[1..], w);
    }
  }

  /** The groups partition the list: every weight is counted once, so the
      group sizes add up to the length and the group totals to the total. */
  lemma GroupsPartition<T(!new)>(os: seq<T>, keyOf: T -> string, w: T -> int, v: T -> int)
    ensures SumOfGroups(GroupsOf(os, keyOf, w), v) == Sum(os, v)
    ensures SumOfTotals(GroupsOf(os, keyOf, w)) == Sum(os, w)
  {
    var gs, ks := GroupsOf(os, keyOf, w), KeysOf(os, keyOf);
    SumOfGroupsByKeys(gs, ks, os, keyOf, v);
    SumByKeysCovers(ks, os, keyOf, v);
    SumOfGroupsByKeys(gs, ks, os, keyOf, w);
    SumByKeysCovers(ks, os, keyOf, w);
    SumOfTotalsIsSum(gs, w);
  }

  /** The number of orders inside the groups, added up. */
  function SizeOfGroups<T>(gs: seq<Group<T>>): nat {
    if gs == [] then 0 else |gs[0].items| + SizeOfGroups(gs[1..])
  }

  lemma {:induction false} SizeOfGroupsIsSum<T>(gs: seq<Group<T>>)
    ensures SizeOfGroups(gs) == SumOfGroups(gs, One<T>)
  {
    if gs != [] {
      SizeOfGroupsIsSum(gs[1..]);
      SumOneIsLength(gs[0].items);
    }
  }

  /** Every order lands in exactly one group, so the group sizes add up to
      the number of orders. */
  lemma GroupSizesAddUp<T(!new)>(os: seq<T>, keyOf: T -> string, w: T -> int)
    ensures SizeOfGroups(GroupsOf(os, keyOf, w)) == |os|
  {
    SizeOfGroupsIsSum(GroupsOf(os, keyOf, w));
    GroupsPartition(os, keyOf, w, One<T>);
    SumOneIsLength(os);
  }
}
