/** The print page: this week's orders sorted by table and grouped under
    each table, the tables in numeric order with the orders that give no
    table last, and a details line per order. */
module PrintOrders {
  import opened Wrappers
  import opened Seqs
  import opened Text
  import opened Records
  import opened Aggregation

  /** The heading for orders that give no table. */
  const NoTable: string := "No Table"

  /** `o.table_number || "No Table"`. */
  function TableKey(o: Order): string {
    match o.data.tableNumber
    case Some(t) => if t == "" then NoTable else t
    case None => NoTable
  }

  /** A number as the sort comparators see it: a value, `Infinity`, or `NaN`. */
  datatype Rank = Finite(n: int) | Infinite | NotANumber

  /** `parseInt(t)`, `NaN` when no digits lead. */
  function NumberOf(t: string): Rank {
    match ParseInt(t)
    case Some(n) => Finite(n)
    case None => NotANumber
  }

  /** The rank the order sort gives: `Infinity` for no table. */
  function OrderRank(o: Order): Rank {
    match o.data.tableNumber
    case Some(t) => if t == "" then Infinite else NumberOf(t)
    case None => Infinite
  }

  /** The rank the table sort gives: `Infinity` for "No Table". */
  function KeyRank(k: string): Rank {
    if k == NoTable then Infinite else NumberOf(k)
  }

  /** Whether the comparator `aNum - bNum` lets `a` stay in front of `b`:
      the difference is not positive. `Infinity - Infinity` and anything
      involving `NaN` give `NaN`, which the sort reads as "equal". */
  predicate RankLe(a: Rank, b: Rank) {
    match a
    case Finite(x) => (match b case Finite(y) => x <= y case Infinite => true case NotANumber => true)
    case Infinite => !b.Finite?
    case NotANumber => true
  }

  predicate OrderLe(a: Order, b: Order) {
    RankLe(OrderRank(a), OrderRank(b))
  }

  predicate KeyLe(a: string, b: string) {
    RankLe(KeyRank(a), KeyRank(b))
  }

  function KeyOfGroup(g: Group<Order>): string { g.key }

  /** What the page groups: the week's orders after the table sort, each
      pushed onto the list for its table. */
  function GroupedOf(orders: seq<Order>, currentWeek: string): seq<Group<Order>> {
    GroupsOf(SortBy(WeekOrders(orders, currentWeek), OrderLe), TableKey, One<Order>)
  }

  /** `grouped`: filter, sort, then the `forEach` that fills the groups. */
  method Grouped(orders: seq<Order>, currentWeek: string) returns (groups: seq<Group<Order>>)
    ensures groups == GroupedOf(orders, currentWeek)
  {
    var weekOrders := WeekOrders(orders, currentWeek);
    weekOrders := SortBy(weekOrders, OrderLe);
    groups := GroupBy(weekOrders, TableKey, One<Order>);
  }

  /** Only this week's orders are printed; each sits under its own table
      (or "No Table"), no table heading repeats, and every order of the
      week is under one. */
  lemma GroupsHoldWeekOrders(orders: seq<Order>, currentWeek: string)
    ensures var gs := GroupedOf(orders, currentWeek);
      && (forall i, j :: 0 <= i < j < |gs| ==> gs[i].key != gs[j].key)
      && (forall j, o :: 0 <= j < |gs| ==>
            (o in gs[j].items <==> o in orders && o.data.week == currentWeek && TableKey(o) == gs[j].key))
      && (forall o :: o in orders && o.data.week == currentWeek ==>
            exists j :: 0 <= j < |gs| && gs[j].key == TableKey(o))
  {
    var week := WeekOrders(orders, currentWeek);
    var sorted := SortBy(week, OrderLe);
    forall o ensures o in sorted <==> o in week {
      assert o in sorted <==> o in multiset(sorted);
      assert o in week <==> o in multiset(week);
    }
    GroupsAreByKey(sorted, TableKey, One<Order>);
    GroupsCover(sorted, TableKey, One<Order>);
  }

  /** The groups hold as many orders as the week has. */
  lemma GroupSizesAreWeekCount(orders: seq<Order>, currentWeek: string)
    ensures SizeOfGroups(GroupedOf(orders, currentWeek)) == |WeekOrders(orders, currentWeek)|
  {
    GroupSizesAddUp(SortBy(WeekOrders(orders, currentWeek), OrderLe), TableKey, One<Order>);
  }

  /** `sortedTables`: the table headings in comparator order. */
  function SortedTables(groups: seq<Group<Order>>): seq<string> {
    SortBy(Project(groups, KeyOfGroup), KeyLe)
  }

  /** A heading ranks as infinite exactly when it is "No Table". */
  lemma KeyRankInfinite(k: string)
    ensures KeyRank(k) == Infinite <==> k == NoTable
  {
  }

  /** Without `NaN`, the rank comparison is total and transitive. */
  lemma RankLeTotalTransitive(a: Rank, b: Rank, c: Rank)
    requires a != NotANumber && b != NotANumber && c != NotANumber
    ensures RankLe(a, b) || RankLe(b, a)
    ensures RankLe(a, b) && RankLe(b, c) ==> RankLe(a, c)
  {
  }

  /** A comparator that compares ranks orders elements none of which ranks
      as `NaN` consistently. */
  lemma RankLeOrdersOn<T>(s: seq<T>, le: (T, T) -> bool, rank: T -> Rank)
    requires forall a, b :: le(a, b) == RankLe(rank(a), rank(b))
    requires forall x :: x in s ==> rank(x) != NotANumber
    ensures TotalPreorderOn(s, le)
  {
    forall a, b | a in s && b in s ensures le(a, b) || le(b, a) {
      RankLeTotalTransitive(rank(a), rank(b), rank(b));
    }
    forall a, b, c | a in s && b in s && c in s && le(a, b) && le(b, c) ensures le(a, c) {
      RankLeTotalTransitive(rank(a), rank(b), rank(c));
    }
  }

  /** A sequence without repeats, sorted by a comparator that compares
      ranks, none of them `NaN` and at most one infinite: every element but
      the last ranks finite, and the finite ranks ascend. */
  lemma RankSortedAscend<T>(r: seq<T>, le: (T, T) -> bool, rank: T -> Rank)
    requires forall a, b :: le(a, b) == RankLe(rank(a), rank(b))
    requires forall i :: 0 <= i < |r| ==> rank(r[i]) != NotANumber
    requires forall i, j :: 0 <= i < j < |r| ==> !(rank(r[i]) == Infinite && rank(r[j]) == Infinite)
    requires SortedBy(r, le)
    ensures forall i :: 0 <= i < |r| - 1 ==> rank(r[i]).Finite?
    ensures forall i, j :: 0 <= i < j < |r| && rank(r[j]).Finite? ==> rank(r[i]).Finite? && rank(r[i]).n <= rank(r[j]).n
  {
    forall i | 0 <= i < |r| - 1 ensures rank(r[i]).Finite? {
      assert le(r[i], r[i + 1]);
    }
    forall i, j | 0 <= i < j < |r| && rank(r[j]).Finite? ensures rank(r[i]).Finite? && rank(r[i]).n <= rank(r[j]).n {
      assert le(r[i], r[j]);
    }
  }

  /** The table comparator is the rank comparison of the headings. */
  lemma KeyLeIsRankLe()
    ensures forall a, b :: KeyLe(a, b) == RankLe(KeyRank(a), KeyRank(b))
  {
  }

  /** When every heading is a number or "No Table" and no heading repeats,
      the tables print in ascending numeric order, "No Table" after all of
      them, each heading once. */
  lemma SortedTablesNumericThenNoTable(groups: seq<Group<Order>>)
    requires forall j :: 0 <= j < |groups| ==> KeyRank(groups[j].key) != NotANumber
    requires forall i, j :: 0 <= i < j < |groups| ==> groups[i].key != groups[j].key
    ensures var ts := SortedTables(groups);
      && (forall t :: t in ts <==> exists j :: 0 <= j < |groups| && groups[j].key == t)
      && NoDuplicates(ts)
      && (forall i :: 0 <= i < |ts| - 1 ==> ts[i] != NoTable && KeyRank(ts[i]).Finite?)
      && (forall i, j :: 0 <= i < j < |ts| && ts[j] != NoTable ==>
            KeyRank(ts[i]).Finite? && KeyRank(ts[j]).Finite? && KeyRank(ts[i]).n <= KeyRank(ts[j]).n)
  {
    var keys := Project(groups, KeyOfGroup);
    var ts := SortBy(keys, KeyLe);
    assert forall k :: k in keys <==> exists j :: 0 <= j < |groups| && groups[j].key == k by {
      forall k ensures k in keys <==> exists j :: 0 <= j < |groups| && groups[j].key == k {
        if k in keys {
          var j :| 0 <= j < |keys| && keys[j] == k;
          assert groups[j].key == k;
        }
        if exists j :: 0 <= j < |groups| && groups[j].key == k {
          var j :| 0 <= j < |groups| && groups[j].key == k;
          assert keys[j] == k;
        }
      }
    }
    assert NoDuplicates(keys) by {
      forall i, j | 0 <= i < j < |keys| ensures keys[i] != keys[j] {
        assert keys[i] == groups[i].key && keys[j] == groups[j].key;
      }
    }
    KeyLeIsRankLe();
    RankLeOrdersOn(keys, KeyLe, KeyRank);
    SortBySorted(keys, KeyLe);
    MultisetMembers(keys, ts);
    NoDuplicatesPermutation(keys, ts);
    forall i | 0 <= i < |ts| ensures KeyRank(ts[i]) != NotANumber {
      assert ts[i] in keys;
    }
    forall i, j | 0 <= i < j < |ts| ensures !(KeyRank(ts[i]) == Infinite && KeyRank(ts[j]) == Infinite) {
      KeyRankInfinite(ts[i]);
      KeyRankInfinite(ts[j]);
    }
    RankSortedAscend(ts, KeyLe, KeyRank);
    forall i | 0 <= i < |ts| - 1 ensures ts[i] != NoTable {
      KeyRankInfinite(ts[i]);
    }
    forall j | 0 <= j < |ts| && ts[j] != NoTable ensures KeyRank(ts[j]).Finite? {
      KeyRankInfinite(ts[j]);
    }
  }

  // ---- the details column ----

  function NonEmpty(t: string): bool { t != "" }

  /** The labelled optional fields, each only when it is given. */
  function Labelled(heading: string, field: Option<string>): seq<string> {
    match field
    case Some(v) => if v == "" then [] else [heading + v]
    case None => []
  }

  lemma LabelledNonEmpty(heading: string, field: Option<string>)
    ensures forall x :: x in Labelled(heading, field) ==> x != ""
  {
  }

  function Extras(o: Order): seq<string> {
    Labelled("Dessert: ", o.data.dessert) + Labelled("Drink: ", o.data.drink) +
      Labelled("Special: ", o.data.specialRequest)
  }

  /** The parts of the details line: sub-items, then the labelled fields,
      empty entries dropped (`filter(Boolean)`). */
  function DetailParts(o: Order): seq<string> {
    Filter(o.data.subItems + Extras(o), NonEmpty)
  }

  /** The details line. */
  function DetailsLine(o: Order): string {
    Join(DetailParts(o), ", ")
  }

  /** The sub-items come first, in order and without the empty ones, then
      dessert, drink and special request, each only when given. */
  lemma DetailPartsOrder(o: Order)
    ensures DetailParts(o) == Filter(o.data.subItems, NonEmpty) + Extras(o)
  {
    var extras := Extras(o);
    FilterAppend(o.data.subItems, extras, NonEmpty);
    LabelledNonEmpty("Dessert: ", o.data.dessert);
    LabelledNonEmpty("Drink: ", o.data.drink);
    LabelledNonEmpty("Special: ", o.data.specialRequest);
    FilterKeepsAll(extras, NonEmpty);
  }
}
