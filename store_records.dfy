/** The records the hosted store keeps -- orders, dessert stock, menu options
    -- and the week filter and revenue sum every screen computes over them.
    Money is held in whole pence. */
module Records {
  import opened Wrappers
  import opened Seqs

  /** The columns of an order the client writes; the store adds the id and
      the creation time. A missing column is `None` (SQL `null`). */
  datatype OrderData = OrderData(
    customerName: string,
    mealChoice: string,
    subItems: seq<string>,
    dessert: Option<string>,
    drink: Option<string>,
    specialRequest: Option<string>,
    tableNumber: Option<string>,
    paidAmount: Option<int>,
    payItForwardAmount: Option<int>,
    week: string,
    timestamp: string)

  /** A stored order. */
  datatype Order = Order(id: string, createdAt: string, data: OrderData)

  /** A stored dessert and its stock. */
  datatype DessertItem = DessertItem(id: string, name: string, startingStock: int, remainingStock: int, active: bool)

  /** A stored meal or extra-item option. */
  datatype MenuOption = MenuOption(id: string, name: string, active: bool, sortOrder: int)

  /** What one insert into the store gives back: the values the store
      assigned, or a failure (the thrown error). */
  datatype Insert<K> = Inserted(keys: K) | Rejected

  /** What the store assigns to a new order. */
  datatype OrderKeys = OrderKeys(id: string, createdAt: string)

  /** What the store assigns to a new menu option: its id and the default of
      its `active` column. */
  datatype OptionKeys = OptionKeys(id: string, active: bool)

  /** The paid amount of an order, an absent amount counting as nothing
      (`paid_amount ?? 0`, and `paid_amount || 0`, which agrees with it on
      numbers). */
  function PaidOrZero(o: Order): int {
    o.data.paidAmount.GetOr(0)
  }

  /** The orders of one week, in their original order. */
  function WeekOrders(orders: seq<Order>, week: string): (r: seq<Order>)
    ensures |r| <= |orders|
    ensures forall o :: o in r <==> o in orders && o.data.week == week
  {
    Filter(orders, (o: Order) => o.data.week == week)
  }

  /** The orders of every other week. */
  function OtherWeeks(orders: seq<Order>, week: string): (r: seq<Order>)
    ensures forall o :: o in r <==> o in orders && o.data.week != week
  {
    Filter(orders, (o: Order) => o.data.week != week)
  }

  /** Filtering by week keeps the relative order: the week orders of a
      concatenation are those of each part, one after the other. */
  lemma WeekOrdersAppend(a: seq<Order>, b: seq<Order>, week: string)
    ensures WeekOrders(a + b, week) == WeekOrders(a, week) + WeekOrders(b, week)
  {
    FilterAppend(a, b, (o: Order) => o.data.week == week);
  }

  /** The revenue of a list of orders: the sum of their paid amounts. */
  function Revenue(os: seq<Order>): int {
    Sum(os, PaidOrZero)
  }

  /** An order without a paid amount adds nothing to the revenue. */
  lemma RevenueSnoc(os: seq<Order>, o: Order)
    ensures Revenue(os + [o]) == Revenue(os) + (if o.data.paidAmount.Some? then o.data.paidAmount.value else 0)
  {
    assert (os + [o])[..|os|] == os;
  }

  /** The revenue of one week plus that of all other weeks is the revenue of
      every order: nothing is counted twice or missed. */
  lemma RevenueSplitsByWeek(orders: seq<Order>, week: string)
    ensures Revenue(WeekOrders(orders, week)) + Revenue(OtherWeeks(orders, week)) == Revenue(orders)
  {
    SumFilterSplit(orders, (o: Order) => o.data.week == week, (o: Order) => o.data.week != week, PaidOrZero);
  }
}
