/** The attendance page: the weeks that have orders, and for the chosen week
    the head count, the distinct customers, the revenue and average spend,
    a summary per customer and the three most ordered meals. */
module AttendanceSummary {
  import opened Wrappers
  import opened Seqs
  import opened Text
  import opened Records
  import opened Aggregation

  function CustomerOf(o: Order): string { o.data.customerName }
  function MealOf(o: Order): string { o.data.mealChoice }
  function WeekOf(o: Order): string { o.data.week }

  // ---- the week picker ----

  /** `allWeeks`: the weeks of the orders, each once, sorted and reversed. */
  function AllWeeks(orders: seq<Order>): seq<string> {
    Reverse(SortBy(Distinct(Project(orders, WeekOf)), StrLe))
  }

  /** Every week that has an order is listed, once, latest first in the
      string order of the week keys. */
  lemma AllWeeksDescending(orders: seq<Order>)
    ensures var r := AllWeeks(orders);
      && (forall w :: w in r <==> w in Project(orders, WeekOf))
      && NoDuplicates(r)
      && (forall i, j :: 0 <= i < j < |r| ==> StrLe(r[j], r[i]))
  {
    var weeks := Distinct(Project(orders, WeekOf));
    SortedWeeks(weeks);
    ReverseSorted(SortBy(weeks, StrLe), StrLe);
  }

  /** Sorting distinct weeks keeps them distinct and gives them all, in order. */
  lemma SortedWeeks(weeks: seq<string>)
    requires NoDuplicates(weeks)
    ensures var sorted := SortBy(weeks, StrLe);
      && NoDuplicates(sorted)
      && SortedBy(sorted, StrLe)
      && forall w :: w in sorted <==> w in weeks
  {
    var sorted := SortBy(weeks, StrLe);
    StrLeIsTotalPreorder();
    TotalPreorderEverywhere(weeks, StrLe);
    SortBySorted(weeks, StrLe);
    NoDuplicatesPermutation(weeks, sorted);
    forall w ensures w in sorted <==> w in weeks {
      assert w in sorted <==> w in multiset(sorted);
      assert w in weeks <==> w in multiset(weeks);
    }
  }

  /** Every week of an order is listed. */
  lemma AllWeeksListsEveryOrder(orders: seq<Order>, o: Order)
    requires o in orders
    ensures o.data.week in AllWeeks(orders)
  {
    var i :| 0 <= i < |orders| && orders[i] == o;
    assert Project(orders, WeekOf)[i] == o.data.week;
    AllWeeksDescending(orders);
  }

  // ---- head counts and money ----

  /** `totalAttendees`. */
  function TotalAttendees(weekOrders: seq<Order>): nat {
    |weekOrders|
  }

  /** `uniqueCustomers`: the number of different names. */
  function UniqueCustomers(weekOrders: seq<Order>): (n: nat)
    ensures n == |set o | o in weekOrders :: o.data.customerName|
    ensures n <= |weekOrders|
  {
    var names := Project(weekOrders, CustomerOf);
    DistinctCardinality(names);
    assert (set x | x in names) == (set o | o in weekOrders :: o.data.customerName) by {
      forall x | x in names ensures x in (set o | o in weekOrders :: o.data.customerName) {
        var i :| 0 <= i < |weekOrders| && names[i] == x;
        assert weekOrders[i] in weekOrders;
      }
    }
    NoDuplicatesCardinality(Distinct(names));
    assert |Distinct(names)| <= |names| by {
      SetOfSeqBound(names);
    }
    |Distinct(names)|
  }

  lemma {:induction false} SetOfSeqBound<T>(s: seq<T>)
    ensures |set x | x in s| <= |s|
    decreases |s|
  {
    if s != [] {
      var init, last := s[..|s| - 1], s[|s| - 1];
      assert s == init + [last];
      SetOfSeqBound(init);
      assert (set x | x in s) == (set x | x in init) + {last};
    }
  }

  /** `averageSpend`, in pence: nothing when nobody came, otherwise the
      revenue shared out evenly. */
  function AverageSpend(weekOrders: seq<Order>): (r: real)
    ensures |weekOrders| == 0 ==> r == 0.0
    ensures |weekOrders| > 0 ==> r * (|weekOrders| as real) == Revenue(weekOrders) as real
  {
    if |weekOrders| > 0 then (Revenue(weekOrders) as real) / (|weekOrders| as real) else 0.0
  }

  // ---- per customer ----

  /** One row of the customer table. */
  datatype CustomerSummary = CustomerSummary(
    name: string,
    orders: seq<Order>,
    totalSpent: int,
    tableNumber: Option<string>)

  /** A customer's bucket as a row: the table is the one given on the
      bucket's first order, the one that created it. */
  function SummaryOf(g: Group<Order>): CustomerSummary {
    CustomerSummary(g.key, g.items, g.total, if g.items == [] then None else g.items[0].data.tableNumber)
  }

  /** `Object.values(customerSummary)`. */
  function CustomerSummaries(weekOrders: seq<Order>): seq<CustomerSummary> {
    Project(GroupsOf(weekOrders, CustomerOf, PaidOrZero), SummaryOf)
  }

  /** The `reduce` that fills the customer dictionary. */
  method BuildCustomerSummaries(weekOrders: seq<Order>) returns (cs: seq<CustomerSummary>)
    ensures cs == CustomerSummaries(weekOrders)
  {
    var groups := GroupBy(weekOrders, CustomerOf, PaidOrZero);
    cs := Project(groups, SummaryOf);
  }

  function TotalSpent(cs: seq<CustomerSummary>): int {
    if cs == [] then 0 else cs[0].totalSpent + TotalSpent(cs[1..])
  }

  function OrdersCounted(cs: seq<CustomerSummary>): nat {
    if cs == [] then 0 else |cs[0].orders| + OrdersCounted(cs[1..])
  }

  lemma {:induction false} SummarySums(gs: seq<Group<Order>>)
    ensures TotalSpent(Project(gs, SummaryOf)) == SumOfTotals(gs)
    ensures OrdersCounted(Project(gs, SummaryOf)) == SizeOfGroups(gs)
  {
    if gs != [] {
      assert Project(gs, SummaryOf)[1..] == Project(gs[1..], SummaryOf);
      SummarySums(gs[1..]);
    }
  }

  /** The customer rows split the week: one row per name, names never
      repeated, each row holding exactly that customer's orders. */
  lemma CustomersPartitionWeek(weekOrders: seq<Order>)
    ensures var cs := CustomerSummaries(weekOrders);
      && |cs| == UniqueCustomers(weekOrders)
      && (forall i, j :: 0 <= i < j < |cs| ==> cs[i].name != cs[j].name)
      && (forall j, o :: 0 <= j < |cs| ==> (o in cs[j].orders <==> o in weekOrders && o.data.customerName == cs[j].name))
  {
    GroupCount(weekOrders, CustomerOf, PaidOrZero);
    GroupsAreByKey(weekOrders, CustomerOf, PaidOrZero);
  }

  /** The rows' order counts add up to the head count and their spending to
      the revenue. */
  lemma CustomerTotalsAddUp(weekOrders: seq<Order>)
    ensures OrdersCounted(CustomerSummaries(weekOrders)) == TotalAttendees(weekOrders)
    ensures TotalSpent(CustomerSummaries(weekOrders)) == Revenue(weekOrders)
  {
    GroupSizesAddUp(weekOrders, CustomerOf, PaidOrZero);
    GroupsPartition(weekOrders, CustomerOf, PaidOrZero, PaidOrZero);
    SummarySums(GroupsOf(weekOrders, CustomerOf, PaidOrZero));
  }

  /** A row's table is the table of that customer's first order of the week. */
  lemma CustomerTableIsFirstOrders(weekOrders: seq<Order>, j: nat)
    requires j < |CustomerSummaries(weekOrders)|
    ensures var c := CustomerSummaries(weekOrders)[j];
      exists i :: 0 <= i < |weekOrders| && weekOrders[i].data.customerName == c.name &&
        c.tableNumber == weekOrders[i].data.tableNumber &&
        forall i' :: 0 <= i' < i ==> weekOrders[i'].data.customerName != c.name
  {
    GroupHeadIsFirst(weekOrders, CustomerOf, PaidOrZero, j);
  }

  // ---- meal popularity ----

  datatype MealCount = MealCount(meal: string, count: int)

  function CountOf(g: Group<Order>): MealCount {
    MealCount(g.key, g.total)
  }

  /** `Object.entries(mealCounts)`: each meal with its number of orders, in
      the order the meals were first ordered. */
  function MealCounts(weekOrders: seq<Order>): seq<MealCount> {
    Project(GroupsOf(weekOrders, MealOf, One<Order>), CountOf)
  }

  /** The `reduce` that counts meals. */
  method BuildMealCounts(weekOrders: seq<Order>) returns (counts: seq<MealCount>)
    ensures counts == MealCounts(weekOrders)
  {
    var groups := GroupBy(weekOrders, MealOf, One<Order>);
    counts := Project(groups, CountOf);
  }

  function Counted(ms: seq<MealCount>): int {
    if ms == [] then 0 else ms[0].count + Counted(ms[1..])
  }

  lemma {:induction false} CountedIsSumOfTotals(gs: seq<Group<Order>>)
    ensures Counted(Project(gs, CountOf)) == SumOfTotals(gs)
  {
    if gs != [] {
      assert Project(gs, CountOf)[1..] == Project(gs[1..], CountOf);
      CountedIsSumOfTotals(gs[1..]);
    }
  }

  /** Each meal is counted once, with the number of orders for it, and the
      counts add up to the head count. */
  lemma MealCountsAddUp(weekOrders: seq<Order>)
    ensures var ms := MealCounts(weekOrders);
      && (forall i, j :: 0 <= i < j < |ms| ==> ms[i].meal != ms[j].meal)
      && (forall j :: 0 <= j < |ms| ==> ms[j].count == |WithKey(weekOrders, MealOf, ms[j].meal)|)
      && Counted(ms) == TotalAttendees(weekOrders)
  {
    var gs := GroupsOf(weekOrders, MealOf, One<Order>);
    GroupsAreByKey(weekOrders, MealOf, One<Order>);
    forall j | 0 <= j < |gs| ensures gs[j].total == |gs[j].items| {
      SumOneIsLength(gs[j].items);
      GroupsOfAt(weekOrders, MealOf, One<Order>, j);
    }
    GroupsPartition(weekOrders, MealOf, One<Order>, One<Order>);
    SumOneIsLength(weekOrders);
    CountedIsSumOfTotals(gs);
  }

  /** The comparator `([, a], [, b]) => b - a`, read as "may come first". */
  predicate MoreOrEqual(a: MealCount, b: MealCount) {
    a.count >= b.count
  }

  /** `popularMeals`: the counts sorted from most to least ordered, ties
      kept in first-ordered order, cut to three. */
  function PopularMeals(weekOrders: seq<Order>): seq<MealCount> {
    Take(SortBy(MealCounts(weekOrders), MoreOrEqual), 3)
  }

  /** Sorting any list of meal counts and keeping three: at most three
      meals, most ordered first, each one of the counts, and no count left
      out is higher than one kept. */
  lemma TopThree(ms: seq<MealCount>)
    ensures |Take(SortBy(ms, MoreOrEqual), 3)| == (if |ms| < 3 then |ms| else 3)
    ensures var top := Take(SortBy(ms, MoreOrEqual), 3);
      forall i, j :: 0 <= i < j < |top| ==> top[i].count >= top[j].count
    ensures forall m :: m in Take(SortBy(ms, MoreOrEqual), 3) ==> m in ms
    ensures var top := Take(SortBy(ms, MoreOrEqual), 3);
      forall m :: m in ms ==> m in top || forall k :: 0 <= k < |top| ==> top[k].count >= m.count
  {
    var sorted := SortBy(ms, MoreOrEqual);
    var top := Take(sorted, 3);
    TotalPreorderEverywhere(ms, MoreOrEqual);
    SortBySorted(ms, MoreOrEqual);
    MultisetMembers(ms, sorted);
    forall m | m in top ensures m in sorted {
      var k :| 0 <= k < |top| && top[k] == m;
      assert sorted[k] == m;
    }
    forall m | m in ms ensures m in top || forall k :: 0 <= k < |top| ==> top[k].count >= m.count {
      var i :| 0 <= i < |sorted| && sorted[i] == m;
      if i >= |top| {
        forall k | 0 <= k < |top| ensures top[k].count >= m.count {
          assert top[k] == sorted[k];
        }
      } else {
        assert top[i] == m;
      }
    }
  }

  /** At most three meals, most ordered first, each one of the week's meal
      counts, and no meal left out was ordered more often than one shown. */
  lemma PopularMealsAreTop(weekOrders: seq<Order>)
    ensures var top, ms := PopularMeals(weekOrders), MealCounts(weekOrders);
      && |top| <= 3
      && |top| == (if |ms| < 3 then |ms| else 3)
      && (forall i, j :: 0 <= i < j < |top| ==> top[i].count >= top[j].count)
      && (forall m :: m in top ==> m in ms)
      && (forall m :: m in ms ==> m in top || forall k :: 0 <= k < |top| ==> top[k].count >= m.count)
  {
    TopThree(MealCounts(weekOrders));
  }
}
