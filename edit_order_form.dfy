/** The dialog that edits a stored order: the form filled from the order,
    the update sent on save, and the dessert stock moved from the old
    dessert to the new one. */
module EditOrderForm {
  import opened Wrappers
  import opened Seqs
  import opened Text
  import opened Records
  import opened StoreHooks
  import opened OrderUtils

  /** The form of the dialog: the order form plus the pay-it-forward box. */
  datatype EditForm = EditForm(base: FormData, payItForwardAmount: string)

  /** An absent text field shows as empty (`field || ""`). */
  function FieldText(field: Option<string>): string {
    field.GetOr("")
  }

  /** An empty text field is stored as `null` (`field || null`). */
  function Blank(text: string): (r: Option<string>)
    ensures r == None <==> text == ""
    ensures r.Some? ==> r.value == text
  {
    if text == "" then None else Some(text)
  }

  /** `getFormDataFromOrder`. */
  function FormFromOrder(o: Order): EditForm {
    EditForm(
      FormData(
        o.data.customerName, o.data.mealChoice, o.data.subItems,
        FieldText(o.data.dessert), FieldText(o.data.drink), FieldText(o.data.specialRequest),
        FieldText(o.data.tableNumber), AmountText(o.data.paidAmount)),
      AmountText(o.data.payItForwardAmount))
  }

  /** The columns the dialog sends to `updateOrder`. */
  datatype OrderPatch = OrderPatch(
    customerName: string,
    mealChoice: string,
    subItems: seq<string>,
    dessert: Option<string>,
    drink: Option<string>,
    specialRequest: Option<string>,
    tableNumber: Option<string>)

  function PatchOf(f: FormData): OrderPatch {
    OrderPatch(f.customerName, f.mealChoice, f.subItems, Blank(f.dessert), Blank(f.drink),
      Blank(f.specialRequest), Blank(f.tableNumber))
  }

  /** A field read into the form and sent back unchanged keeps its value,
      except that an empty text is sent as `null`. */
  function Normalised(field: Option<string>): Option<string> {
    if field == Some("") then None else field
  }

  /** Saving without editing sends the order's own values back (empty texts
      as `null`); the amounts are not sent. */
  lemma SaveUnchangedKeepsOrder(o: Order)
    ensures var p := PatchOf(FormFromOrder(o).base);
      && p.customerName == o.data.customerName
      && p.mealChoice == o.data.mealChoice
      && p.subItems == o.data.subItems
      && p.dessert == Normalised(o.data.dessert)
      && p.drink == Normalised(o.data.drink)
      && p.specialRequest == Normalised(o.data.specialRequest)
      && p.tableNumber == Normalised(o.data.tableNumber)
  {
  }

  /** The amounts shown read back as the stored amounts, zero showing as
      empty. */
  lemma FormAmountsReadBack(o: Order)
    ensures var f := FormFromOrder(o);
      && (f.base.paidAmount == "" <==> o.data.paidAmount == None || o.data.paidAmount == Some(0))
      && (f.base.paidAmount != "" ==> ParsePence(f.base.paidAmount) == o.data.paidAmount)
      && (f.payItForwardAmount != "" ==> ParsePence(f.payItForwardAmount) == o.data.payItForwardAmount)
  {
    if o.data.paidAmount.Some? && o.data.paidAmount.value != 0 {
      PencePrintParse(o.data.paidAmount.value);
    }
    if o.data.payItForwardAmount.Some? && o.data.payItForwardAmount.value != 0 {
      PencePrintParse(o.data.payItForwardAmount.value);
    }
  }

  /** `desserts.find(d => d.name === name)`. */
  function FindDessert(ds: seq<DessertItem>, name: string): (r: Option<nat>)
    ensures r.Some? ==>
      && r.value < |ds| && ds[r.value].name == name
      && forall j :: 0 <= j < r.value ==> ds[j].name != name
    ensures r.None? ==> forall j :: 0 <= j < |ds| ==> ds[j].name != name
  {
    if ds == [] then None
    else if ds[0].name == name then Some(0)
    else match FindDessert(ds[1..], name)
      case None => None
      case Some(i) => Some(i + 1)
  }

  /** `availableDesserts`: the desserts that are on and in stock. */
  function AvailableDesserts(ds: seq<DessertItem>): (r: seq<DessertItem>)
    ensures forall d :: d in r <==> d in ds && d.active && d.remainingStock > 0
  {
    Filter(ds, (d: DessertItem) => d.active && d.remainingStock > 0)
  }

  function OptionName(o: MenuOption): string { o.name }

  /** `activeMealOptions` and `activeSubItemOptions`: the names of the
      options that are on. */
  function ActiveNames(os: seq<MenuOption>): (r: seq<string>)
    ensures forall n :: n in r <==> exists o :: o in os && o.active && o.name == n
  {
    var on := Filter(os, (o: MenuOption) => o.active);
    var r := Project(on, OptionName);
    assert forall n :: n in r <==> exists o :: o in on && o.name == n by {
      forall n ensures n in r <==> exists o :: o in on && o.name == n {
        if n in r {
          var i :| 0 <= i < |r| && r[i] == n;
          assert on[i] in on && on[i].name == n;
        }
        if exists o :: o in on && o.name == n {
          var o :| o in on && o.name == n;
          var i :| 0 <= i < |on| && on[i] == o;
          assert r[i] == n;
        }
      }
    }
    r
  }

  /** The dessert the order had is given back one unit, when it changed and
      it is in the list (found by name, its stock read from the list the
      dialog shows). */
  function ReturnCall(ds: seq<DessertItem>, previous: string, chosen: string): Option<nat> {
    if previous != "" && previous != chosen then FindDessert(ds, previous) else None
  }

  /** The dessert now chosen loses one unit, when it changed and it is in
      the list. */
  function TakeCall(ds: seq<DessertItem>, previous: string, chosen: string): Option<nat> {
    if chosen != "" && chosen != previous then FindDessert(ds, chosen) else None
  }

  /** The update a stock call sends for the dessert at `i`, shifting its
      remaining stock by `delta`. */
  function StockShift(ds: seq<DessertItem>, i: nat, delta: int): DessertPatch
    requires i < |ds|
  {
    RemainingPatch(ds[i].remainingStock + delta)
  }

  /** Keeping the dessert makes no stock call. */
  lemma SameDessertNoStockCall(ds: seq<DessertItem>, dessert: string)
    ensures ReturnCall(ds, dessert, dessert) == None && TakeCall(ds, dessert, dessert) == None
  {
  }

  /** Swapping one listed dessert for another, ids unique: the old dessert
      gains a unit, the new one loses a unit, everything else stays. */
  lemma SwapMovesOneUnit(ds: seq<DessertItem>, previous: string, chosen: string)
    requires UniqueIds(ds)
    requires ReturnCall(ds, previous, chosen).Some? && TakeCall(ds, previous, chosen).Some?
    ensures var a, b := ReturnCall(ds, previous, chosen).value, TakeCall(ds, previous, chosen).value;
      var after := MergeById(MergeById(ds, ds[a].id, StockShift(ds, a, 1)), ds[b].id, StockShift(ds, b, -1));
      && after == StockAfterSave(ds, previous, chosen)
      && a != b
      && |after| == |ds|
      && after[a] == ds[a].(remainingStock := ds[a].remainingStock + 1)
      && after[b] == ds[b].(remainingStock := ds[b].remainingStock - 1)
      && forall i :: 0 <= i < |ds| && i != a && i != b ==> after[i] == ds[i]
  {
    var a, b := ReturnCall(ds, previous, chosen).value, TakeCall(ds, previous, chosen).value;
    var mid := MergeById(ds, ds[a].id, StockShift(ds, a, 1));
    var after := MergeById(mid, ds[b].id, StockShift(ds, b, -1));
    assert ds[a].name == previous && ds[b].name == chosen;
    MergeByIdEffect(ds, ds[a].id, StockShift(ds, a, 1));
    MergeByIdEffect(mid, ds[b].id, StockShift(ds, b, -1));
    forall i | 0 <= i < |ds| && i != a ensures mid[i] == ds[i] {
      assert ds[i].id != ds[a].id;
    }
    forall i | 0 <= i < |ds| && i != b ensures after[i] == mid[i] {
      assert ds[i].id != ds[b].id;
    }
  }

  /** The stock list after a successful save: the return call, then the
      take call, each merged into the list left by the one before. */
  function StockAfterSave(ds: seq<DessertItem>, previous: string, chosen: string): (r: seq<DessertItem>)
    ensures |r| == |ds|
  {
    var mid := match ReturnCall(ds, previous, chosen)
      case Some(a) => MergeById(ds, ds[a].id, StockShift(ds, a, 1))
      case None => ds;
    match TakeCall(ds, previous, chosen)
    case Some(b) => MergeById(mid, ds[b].id, StockShift(ds, b, -1))
    case None => mid
  }

  /** What a save does after the order update is accepted: the stock list
      it leaves and whether the dialog closes. A refused stock call stops
      the save there. */
  function SaveEffect(ds: seq<DessertItem>, previous: string, chosen: string, returnOk: bool, takeOk: bool)
    : (seq<DessertItem>, bool)
  {
    var ret, take := ReturnCall(ds, previous, chosen), TakeCall(ds, previous, chosen);
    var mid := if ret.Some? then MergeById(ds, ds[ret.value].id, StockShift(ds, ret.value, 1)) else ds;
    if ret.Some? && !returnOk then (ds, false)
    else if take.Some? && !takeOk then (mid, false)
    else (StockAfterSave(ds, previous, chosen), true)
  }

  /** A save whose calls are all accepted applies both stock calls and
      closes the dialog; one that makes no stock call leaves the stock as it
      was. */
  lemma SaveEffectAccepted(ds: seq<DessertItem>, previous: string, chosen: string)
    ensures SaveEffect(ds, previous, chosen, true, true) == (StockAfterSave(ds, previous, chosen), true)
    ensures previous == chosen ==> SaveEffect(ds, previous, chosen, true, true) == (ds, true)
  {
  }

  class EditOrderForm {
    const order: Order
    const inventory: DessertInventoryHook
    var form: EditForm
    var closed: bool

    constructor(order: Order, inventory: DessertInventoryHook)
      ensures this.order == order && this.inventory == inventory
      ensures form == FormFromOrder(order) && !closed
    {
      this.order := order;
      this.inventory := inventory;
      form := FormFromOrder(order);
      closed := false;
    }

    /** `handleFormUpdate`: the order-form part of the form changes. */
    method Update(base: FormData)
      modifies this
      ensures form == old(form).(base := base) && closed == old(closed)
    {
      form := form.(base := base);
    }

    /** The first stock call: give the old dessert back a unit. */
    method ReturnStock(ds: seq<DessertItem>, previous: string, chosen: string, accepted: bool) returns (ok: bool)
      modifies inventory
      ensures var ret := ReturnCall(ds, previous, chosen);
        && ok == (ret.None? || accepted)
        && inventory.desserts == if ret.Some? && accepted
             then MergeById(old(inventory.desserts), ds[ret.value].id, StockShift(ds, ret.value, 1))
             else old(inventory.desserts)
    {
      ok := true;
      if previous != "" && previous != chosen {
        var found := FindDessert(ds, previous);
        if found.Some? {
          var d := ds[found.value];
          ok := inventory.UpdateDessert(d.id, RemainingPatch(d.remainingStock + 1), accepted);
        }
      }
    }

    /** The second stock call: take a unit of the new dessert. */
    method TakeStock(ds: seq<DessertItem>, previous: string, chosen: string, accepted: bool) returns (ok: bool)
      modifies inventory
      ensures var take := TakeCall(ds, previous, chosen);
        && ok == (take.None? || accepted)
        && inventory.desserts == if take.Some? && accepted
             then MergeById(old(inventory.desserts), ds[take.value].id, StockShift(ds, take.value, -1))
             else old(inventory.desserts)
    {
      ok := true;
      if chosen != "" && chosen != previous {
        var found := FindDessert(ds, chosen);
        if found.Some? {
          var d := ds[found.value];
          ok := inventory.UpdateDessert(d.id, RemainingPatch(d.remainingStock - 1), accepted);
        }
      }
    }

    /** `handleSubmit`. `updateOk`, `returnOk` and `takeOk` are the store's
        answers to the order update and to the two stock calls. An
        incomplete form sends nothing; a refused update changes no stock;
        otherwise the stock calls go as `SaveEffect` says. The stock read is
        the list as the dialog shows it. */
    method HandleSubmit(updateOk: bool, returnOk: bool, takeOk: bool) returns (sent: Option<OrderPatch>)
      modifies this, inventory
      ensures form == old(form)
      ensures !ValidateOrderForm(old(form).base) ==>
        sent == None && inventory.desserts == old(inventory.desserts) && closed == old(closed)
      ensures ValidateOrderForm(old(form).base) ==> sent == Some(PatchOf(old(form).base))
      ensures ValidateOrderForm(old(form).base) && !updateOk ==>
        inventory.desserts == old(inventory.desserts) && closed == old(closed)
      ensures ValidateOrderForm(old(form).base) && updateOk ==>
        var effect := SaveEffect(old(inventory.desserts), FieldText(order.data.dessert), old(form).base.dessert, returnOk, takeOk);
        inventory.desserts == effect.0 && closed == (effect.1 || old(closed))
    {
      var f := form.base;
      if !ValidateOrderForm(f) {
        return None;
      }
      var previous := FieldText(order.data.dessert);
      sent := Some(PatchOf(f));
      if !updateOk {
        return;
      }
      var ds := inventory.desserts;
      var ok := ReturnStock(ds, previous, f.dessert, returnOk);
      if !ok {
        return;
      }
      ok := TakeStock(ds, previous, f.dessert, takeOk);
      if !ok {
        return;
      }
      closed := true;
    }
  }
}
