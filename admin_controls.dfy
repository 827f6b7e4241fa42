/** The admin tools of the browser-storage version: the week's takings,
    clearing the week, the attendance sheet, resetting stock, the export
    and clearing everything. Amounts are text, read as pence. */
module AdminControls {
  import opened Wrappers
  import opened Seqs
  import opened Text
  import opened OrderUtils
  import opened Aggregation

  /** `parseFloat(order.paidAmount) || 0`. */
  function LocalPaid(o: LocalOrder): int {
    ParsePence(o.paidAmount).GetOr(0)
  }

  function LocalCustomerOf(o: LocalOrder): string { o.customerName }

  /** `currentWeekOrders`. */
  function LocalWeekOrders(orders: seq<LocalOrder>, week: string): (r: seq<LocalOrder>)
    ensures forall o :: o in r <==> o in orders && o.week == week
  {
    Filter(orders, (o: LocalOrder) => o.week == week)
  }

  /** `orders.filter(order => order.week !== currentWeek)`. */
  function OtherLocalWeeks(orders: seq<LocalOrder>, week: string): (r: seq<LocalOrder>)
    ensures forall o :: o in r <==> o in orders && o.week != week
  {
    Filter(orders, (o: LocalOrder) => o.week != week)
  }

  /** The week's orders and the rest split the orders: together they hold
      every order as often as the list does, and clearing keeps the rest in
      their order. */
  lemma WeekSplitsOrders(orders: seq<LocalOrder>, more: seq<LocalOrder>, week: string)
    ensures multiset(LocalWeekOrders(orders, week)) + multiset(OtherLocalWeeks(orders, week)) == multiset(orders)
    ensures |LocalWeekOrders(orders, week)| + |OtherLocalWeeks(orders, week)| == |orders|
    ensures OtherLocalWeeks(orders + more, week) == OtherLocalWeeks(orders, week) + OtherLocalWeeks(more, week)
  {
    var p := (o: LocalOrder) => o.week == week;
    var q := (o: LocalOrder) => o.week != week;
    FilterMultiset(orders, p);
    FilterMultiset(orders, q);
    assert multiset(Filter(orders, p)) + multiset(Filter(orders, q)) == multiset(orders);
    assert |multiset(Filter(orders, p)) + multiset(Filter(orders, q))| == |multiset(orders)|;
    FilterAppend(orders, more, q);
  }

  /** `totalRevenue`: the week's takings, an unreadable amount counting as
      nothing. */
  function LocalRevenue(orders: seq<LocalOrder>, week: string): int {
    Sum(LocalWeekOrders(orders, week), LocalPaid)
  }

  /** The takings of the week and of the other weeks add up to the takings
      of all the orders. */
  lemma LocalRevenueSplits(orders: seq<LocalOrder>, week: string)
    ensures LocalRevenue(orders, week) + Sum(OtherLocalWeeks(orders, week), LocalPaid) == Sum(orders, LocalPaid)
  {
    SumFilterSplit(orders, (o: LocalOrder) => o.week == week, (o: LocalOrder) => o.week != week, LocalPaid);
  }

  /** The number of distinct customer names among `ws`. */
  function LocalUniqueCustomers(ws: seq<LocalOrder>): (n: nat)
    ensures n == |set o | o in ws :: o.customerName|
  {
    var names := Project(ws, LocalCustomerOf);
    DistinctCardinality(names);
    assert (set x | x in names) == (set o | o in ws :: o.customerName) by {
      forall x | x in names ensures x in (set o | o in ws :: o.customerName) {
        var i :| 0 <= i < |ws| && names[i] == x;
        assert ws[i] in ws;
      }
    }
    |Distinct(names)|
  }

  /** An attendance record. */
  datatype AttendanceRecord = AttendanceRecord(
    week: string,
    attendees: seq<Group<LocalOrder>>,
    totalRevenue: int,
    totalAttendees: nat,
    uniqueCustomers: nat,
    timestamp: string,
    id: string)

  /** The record `generateAttendanceSheet` builds; the clock readings are
      parameters. */
  function SheetFor(orders: seq<LocalOrder>, week: string, timestamp: string, id: string): AttendanceRecord {
    var ws := LocalWeekOrders(orders, week);
    var attendees := GroupsOf(ws, LocalCustomerOf, LocalPaid);
    AttendanceRecord(week, attendees, Sum(ws, LocalPaid), |ws|, |attendees|, timestamp, id)
  }

  /** The record counts the week's orders and its distinct customers, and
      the attendees' orders and totals add up to those counts. */
  lemma SheetForCounts(orders: seq<LocalOrder>, week: string, timestamp: string, id: string)
    ensures SheetFor(orders, week, timestamp, id).week == week
    ensures SheetFor(orders, week, timestamp, id).totalAttendees == |LocalWeekOrders(orders, week)|
    ensures SheetFor(orders, week, timestamp, id).uniqueCustomers
         == LocalUniqueCustomers(LocalWeekOrders(orders, week))
    ensures SizeOfGroups(SheetFor(orders, week, timestamp, id).attendees)
         == SheetFor(orders, week, timestamp, id).totalAttendees
    ensures SumOfTotals(SheetFor(orders, week, timestamp, id).attendees)
         == SheetFor(orders, week, timestamp, id).totalRevenue
  {
    var ws := LocalWeekOrders(orders, week);
    GroupSizesAddUp(ws, LocalCustomerOf, LocalPaid);
    GroupsPartition(ws, LocalCustomerOf, LocalPaid, LocalPaid);
  }

  /** One attendee per distinct name, holding exactly that customer's
      orders of the week and their takings. */
  lemma SheetForAttendees(orders: seq<LocalOrder>, week: string, timestamp: string, id: string)
    ensures var gs := SheetFor(orders, week, timestamp, id).attendees;
      && (forall i, j :: 0 <= i < j < |gs| ==> gs[i].key != gs[j].key)
      && (forall j, o :: 0 <= j < |gs| ==>
            (o in gs[j].items <==> o in orders && o.week == week && o.customerName == gs[j].key))
      && (forall j :: 0 <= j < |gs| ==> gs[j].total == Sum(gs[j].items, LocalPaid))
  {
    GroupsAreByKey(LocalWeekOrders(orders, week), LocalCustomerOf, LocalPaid);
  }

  /** A dessert with its remaining stock put back to its starting stock. */
  function Restock(d: LocalDessert): LocalDessert {
    d.(remainingStock := d.startingStock)
  }

  /** `resetAllStock` and the reset in `clearAllData`. */
  function ResetStock(ds: seq<LocalDessert>): (r: seq<LocalDessert>)
    ensures |r| == |ds|
  {
    Project(ds, Restock)
  }

  /** Resetting keeps every dessert's name, starting stock and switch and
      leaves it with its starting stock remaining; resetting again changes
      nothing. */
  lemma ResetStockRestocks(ds: seq<LocalDessert>)
    ensures var r := ResetStock(ds);
      && (forall i :: 0 <= i < |ds| ==>
            && r[i].remainingStock == r[i].startingStock
            && r[i].name == ds[i].name && r[i].startingStock == ds[i].startingStock
            && r[i].active == ds[i].active)
      && ResetStock(r) == r
  {
    var r := ResetStock(ds);
    assert forall i :: 0 <= i < |r| ==> ResetStock(r)[i] == r[i];
  }

  /** The download `exportData` builds, without its date. */
  datatype Export = Export(
    orders: seq<LocalOrder>,
    attendance: seq<AttendanceRecord>,
    dessertInventory: seq<LocalDessert>,
    week: string)

  function ExportOf(orders: seq<LocalOrder>, attendance: seq<AttendanceRecord>, inventory: seq<LocalDessert>, week: string)
    : (e: Export)
    ensures forall o :: o in e.orders <==> o in orders && o.week == week
    ensures forall r :: r in e.attendance <==> r in attendance && r.week == week
    ensures e.dessertInventory == inventory && e.week == week
  {
    Export(LocalWeekOrders(orders, week), Filter(attendance, (r: AttendanceRecord) => r.week == week), inventory, week)
  }

  class AdminControls {
    const currentWeek: string
    var orders: seq<LocalOrder>
    var attendance: seq<AttendanceRecord>
    var dessertInventory: seq<LocalDessert>

    constructor(currentWeek: string, orders: seq<LocalOrder>, attendance: seq<AttendanceRecord>, inventory: seq<LocalDessert>)
      ensures this.currentWeek == currentWeek && this.orders == orders
      ensures this.attendance == attendance && dessertInventory == inventory
    {
      this.currentWeek := currentWeek;
      this.orders := orders;
      this.attendance := attendance;
      dessertInventory := inventory;
    }

    /** `clearWeekOrders`. */
    method ClearWeekOrders()
      modifies this
      ensures orders == OtherLocalWeeks(old(orders), currentWeek)
      ensures attendance == old(attendance) && dessertInventory == old(dessertInventory)
    {
      orders := OtherLocalWeeks(orders, currentWeek);
    }

    /** `generateAttendanceSheet`: the `reduce` that fills the attendee
        dictionary is the grouping loop; one record is appended. */
    method GenerateAttendanceSheet(timestamp: string, id: string)
      modifies this
      ensures attendance == old(attendance) + [SheetFor(old(orders), currentWeek, timestamp, id)]
      ensures orders == old(orders) && dessertInventory == old(dessertInventory)
    {
      var weekOrders := LocalWeekOrders(orders, currentWeek);
      var attendees := GroupBy(weekOrders, LocalCustomerOf, LocalPaid);
      var record := AttendanceRecord(currentWeek, attendees, Sum(weekOrders, LocalPaid), |weekOrders|,
        |attendees|, timestamp, id);
      attendance := attendance + [record];
    }

    /** `resetAllStock`. */
    method ResetAllStock()
      modifies this
      ensures dessertInventory == ResetStock(old(dessertInventory))
      ensures orders == old(orders) && attendance == old(attendance)
    {
      dessertInventory := ResetStock(dessertInventory);
    }

    /** `clearAllData`. */
    method ClearAllData()
      modifies this
      ensures orders == [] && attendance == []
      ensures dessertInventory == ResetStock(old(dessertInventory))
    {
      orders := [];
      attendance := [];
      dessertInventory := ResetStock(dessertInventory);
    }
  }
}
