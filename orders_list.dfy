/** The orders page: this week's orders, narrowed by a name search and a
    table filter, the week's takings and order count, the tables for the
    filter menu, and the amount shown and saved in the payment dialog. */
module OrdersList {
  import opened Wrappers
  import opened Seqs
  import opened Text
  import opened Records

  /** The value of the table menu that shows every table. */
  const AllTables: string := "all"

  /** One order passes the search box and the table menu. */
  predicate Matches(o: Order, searchTerm: string, filterTable: string) {
    && Contains(ToLower(o.data.customerName), ToLower(searchTerm))
    && (filterTable == AllTables || o.data.tableNumber == Some(filterTable))
  }

  /** `filteredOrders`: the week's orders that pass, in their order. */
  function FilteredOrders(weekOrders: seq<Order>, searchTerm: string, filterTable: string): (r: seq<Order>)
    ensures |r| <= |weekOrders|
    ensures forall o :: o in r <==> o in weekOrders && Matches(o, searchTerm, filterTable)
  {
    Filter(weekOrders, (o: Order) => Matches(o, searchTerm, filterTable))
  }

  /** Every text contains the empty text. */
  lemma ContainsEmpty(s: string)
    ensures Contains(s, "")
  {
    assert s[..0] == "";
  }

  /** An empty search with every table shown lists the whole week. */
  lemma UnfilteredShowsWeek(weekOrders: seq<Order>)
    ensures FilteredOrders(weekOrders, "", AllTables) == weekOrders
  {
    forall o | o in weekOrders ensures Matches(o, "", AllTables) {
      ContainsEmpty(ToLower(o.data.customerName));
    }
    FilterKeepsAll(weekOrders, (o: Order) => Matches(o, "", AllTables));
  }

  /** Searching keeps the page order: the filtered week is the filtered
      first part followed by the filtered rest. */
  lemma FilteredKeepsOrder(a: seq<Order>, b: seq<Order>, searchTerm: string, filterTable: string)
    ensures FilteredOrders(a + b, searchTerm, filterTable) ==
      FilteredOrders(a, searchTerm, filterTable) + FilteredOrders(b, searchTerm, filterTable)
  {
    FilterAppend(a, b, (o: Order) => Matches(o, searchTerm, filterTable));
  }

  /** `totalOrders`. */
  function TotalOrders(weekOrders: seq<Order>): nat {
    |weekOrders|
  }

  // ---- the table menu ----

  /** An order's table as text, an absent table reading as empty
      (both are dropped by `filter(Boolean)`). */
  function TableText(o: Order): string {
    o.data.tableNumber.GetOr("")
  }

  function NonEmpty(t: string): bool { t != "" }

  /** `uniqueTables`: the tables given, each once, in string order. */
  function UniqueTables(weekOrders: seq<Order>): seq<string> {
    SortBy(Distinct(Filter(Project(weekOrders, TableText), NonEmpty)), StrLe)
  }

  /** The menu lists exactly the non-empty tables of the week's orders,
      none of them twice, in ascending string order. */
  lemma UniqueTablesSorted(weekOrders: seq<Order>)
    ensures var ts := UniqueTables(weekOrders);
      && (forall t :: t in ts <==> t != "" && t in Project(weekOrders, TableText))
      && NoDuplicates(ts)
      && SortedBy(ts, StrLe)
  {
    var given := Distinct(Filter(Project(weekOrders, TableText), NonEmpty));
    var ts := SortBy(given, StrLe);
    StrLeIsTotalPreorder();
    TotalPreorderEverywhere(given, StrLe);
    SortBySorted(given, StrLe);
    NoDuplicatesPermutation(given, ts);
    forall t ensures t in ts <==> t in given {
      assert t in ts <==> t in multiset(ts);
      assert t in given <==> t in multiset(given);
    }
  }

  /** A table some order names is in the menu. */
  lemma UniqueTablesHasOrderTable(weekOrders: seq<Order>, o: Order, t: string)
    requires o in weekOrders && o.data.tableNumber == Some(t) && t != ""
    ensures t in UniqueTables(weekOrders)
  {
    var i :| 0 <= i < |weekOrders| && weekOrders[i] == o;
    assert Project(weekOrders, TableText)[i] == t;
    UniqueTablesSorted(weekOrders);
  }

  // ---- the payment dialog ----

  /** The amount the dialog saves: nothing for an empty box, otherwise the
      parsed amount, where text that is not a number is stored as nothing
      too (`parseFloat` gives `NaN`, which is sent as `null`). */
  function PaymentPatch(text: string): (r: Option<int>)
    ensures text == "" ==> r == None
  {
    if text == "" then None else ParsePence(text)
  }

  /** The dialog starts with `AmountText` of the amount paid. Opening it
      and saving without typing keeps the amount, except
      that a zero amount is cleared. */
  lemma PaymentRoundTrip(paid: Option<int>)
    ensures PaymentPatch(AmountText(paid)) == if paid == Some(0) then None else paid
  {
    if paid.Some? && paid.value != 0 {
      PencePrintParse(paid.value);
    }
  }

  /** Saving what a person types as pounds, or pounds, a point and up to
      two digits, stores that many pounds and pence ("12.5" is twelve pounds
      fifty). */
  lemma PaymentPatchTyped(w: nat, f: string)
    requires AllDigits(f) && |f| <= 2
    ensures PaymentPatch(NatText(w)) == Some(w * 100)
    ensures PaymentPatch(NatText(w) + "." + f) == Some(w * 100 + TypedCents(f))
  {
    TypedPoundsPence(w);
    TypedAmountPence(w, f);
  }

  /** Saving an amount written with an exponent stores no amount. */
  lemma PaymentPatchExponent(w: nat, f: string, ds: string)
    requires AllDigits(f) && ds != [] && AllDigits(ds)
    ensures PaymentPatch(NatText(w) + "e" + ds) == None
    ensures PaymentPatch(NatText(w) + "." + f + "e" + ds) == None
  {
    ExponentPoundsNotRead(w, ds);
    ExponentAmountNotRead(w, f, ds);
  }
}
