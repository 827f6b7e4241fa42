/** The order helpers of the browser-storage version of the app: the order
    form, building an order from it, the required-field check, and the
    dessert stock check and decrement. Every field is text, as typed. */
module OrderUtils {
  import opened Seqs

  datatype FormData = FormData(
    customerName: string,
    mealChoice: string,
    subItems: seq<string>,
    dessert: string,
    drink: string,
    specialRequest: string,
    tableNumber: string,
    paidAmount: string)

  /** An order kept in browser storage: the form fields plus the week, the
      creation time and an id, the last two taken from the clock. */
  datatype LocalOrder = LocalOrder(
    customerName: string,
    mealChoice: string,
    subItems: seq<string>,
    dessert: string,
    drink: string,
    specialRequest: string,
    tableNumber: string,
    paidAmount: string,
    week: string,
    timestamp: string,
    id: string)

  datatype LocalDessert = LocalDessert(name: string, startingStock: int, remainingStock: int, active: bool)

  /** `createNewOrder`: the clock readings are parameters. */
  function CreateNewOrder(f: FormData, currentWeek: string, timestamp: string, id: string): LocalOrder {
    LocalOrder(f.customerName, f.mealChoice, f.subItems, f.dessert, f.drink, f.specialRequest,
      f.tableNumber, f.paidAmount, currentWeek, timestamp, id)
  }

  /** The form fields an order carries. */
  function FormOf(o: LocalOrder): FormData {
    FormData(o.customerName, o.mealChoice, o.subItems, o.dessert, o.drink, o.specialRequest,
      o.tableNumber, o.paidAmount)
  }

  /** A new order carries every form field unchanged and the given week. */
  lemma CreateNewOrderCopies(f: FormData, currentWeek: string, timestamp: string, id: string)
    ensures var o := CreateNewOrder(f, currentWeek, timestamp, id);
      FormOf(o) == f && o.week == currentWeek && o.timestamp == timestamp && o.id == id
  {
  }

  /** `validateOrderForm`: a name and a meal are required. */
  function ValidateOrderForm(f: FormData): (ok: bool)
    ensures ok <==> f.customerName != [] && f.mealChoice != []
  {
    !(f.customerName == "" || f.mealChoice == "")
  }

  /** The position of the first dessert called `name` (`find`), or the
      length of the list when there is none. */
  function FirstByName(inv: seq<LocalDessert>, name: string): (i: nat)
    ensures i <= |inv|
    ensures i < |inv| ==> inv[i].name == name
    ensures forall j :: 0 <= j < i ==> inv[j].name != name
  {
    if inv == [] then 0
    else if inv[0].name == name then 0
    else 1 + FirstByName(inv[1..], name)
  }

  /** `checkDessertStock`: no dessert is always fine; otherwise the first
      dessert of that name must exist and have stock left. */
  function CheckDessertStock(dessert: string, inv: seq<LocalDessert>): (ok: bool)
    ensures dessert == [] ==> ok
    ensures dessert != [] ==>
      (ok <==> exists i :: 0 <= i < |inv| && inv[i].name == dessert && inv[i].remainingStock > 0 &&
                 forall j :: 0 <= j < i ==> inv[j].name != dessert)
  {
    if dessert == "" then true
    else
      var i := FirstByName(inv, dessert);
      i < |inv| && inv[i].remainingStock > 0
  }

  /** A dessert nobody stocks is refused. */
  lemma CheckRefusesUnknown(dessert: string, inv: seq<LocalDessert>)
    requires dessert != []
    requires forall d :: d in inv ==> d.name != dessert
    ensures !CheckDessertStock(dessert, inv)
  {
  }

  /** One item with its remaining stock lowered by one. */
  function TakeOne(d: LocalDessert): LocalDessert {
    d.(remainingStock := d.remainingStock - 1)
  }

  /** `updateDessertInventory`: every dessert of that name loses one unit;
      nothing changes when no dessert was chosen. */
  function UpdateDessertInventory(dessert: string, inv: seq<LocalDessert>): (r: seq<LocalDessert>)
    ensures dessert == [] ==> r == inv
    ensures |r| == |inv|
    ensures forall i :: 0 <= i < |inv| ==>
      && r[i].name == inv[i].name && r[i].startingStock == inv[i].startingStock && r[i].active == inv[i].active
      && r[i].remainingStock == inv[i].remainingStock - (if dessert != [] && inv[i].name == dessert then 1 else 0)
  {
    if dessert == "" then inv
    else Project(inv, (d: LocalDessert) => if d.name == dessert then TakeOne(d) else d)
  }

  /** After the stock check passes, the dessert it looked at still has a
      stock of zero or more once one unit is taken. */
  lemma StockNeverNegativeAfterCheck(dessert: string, inv: seq<LocalDessert>)
    requires dessert != [] && CheckDessertStock(dessert, inv)
    ensures var i := FirstByName(inv, dessert);
      i < |inv| && UpdateDessertInventory(dessert, inv)[i].remainingStock >= 0
  {
  }

  /** The total remaining stock of an inventory. */
  function StockLeft(inv: seq<LocalDessert>): int
    decreases |inv|
  {
    if inv == [] then 0 else StockLeft(inv[..|inv| - 1]) + inv[|inv| - 1].remainingStock
  }

  /** How many desserts are called `name`. */
  function CountNamed(inv: seq<LocalDessert>, name: string): nat
    decreases |inv|
  {
    if inv == [] then 0
    else CountNamed(inv[..|inv| - 1], name) + (if inv[|inv| - 1].name == name then 1 else 0)
  }

  /** An order takes one unit for each dessert of the chosen name: exactly
      one unit when the names in the inventory are distinct. */
  lemma {:induction false} UpdateTakesOnePerMatch(dessert: string, inv: seq<LocalDessert>)
    requires dessert != []
    ensures StockLeft(UpdateDessertInventory(dessert, inv)) == StockLeft(inv) - CountNamed(inv, dessert)
    decreases |inv|
  {
    if inv != [] {
      var init := inv[..|inv| - 1];
      UpdateTakesOnePerMatch(dessert, init);
      var r, r' := UpdateDessertInventory(dessert, inv), UpdateDessertInventory(dessert, init);
      assert r[..|r| - 1] == r' by {
        forall i | 0 <= i < |r'| ensures r[i] == r'[i] {
          assert init[i] == inv[i];
        }
      }
    }
  }

  /** With distinct names, a stocked dessert appears exactly once. */
  lemma {:induction false} CountNamedUnique(inv: seq<LocalDessert>, name: string)
    requires forall i, j :: 0 <= i < j < |inv| ==> inv[i].name != inv[j].name
    requires exists d :: d in inv && d.name == name
    ensures CountNamed(inv, name) == 1
    decreases |inv|
  {
    var init, last := inv[..|inv| - 1], inv[|inv| - 1];
    assert inv == init + [last];
    if last.name == name {
      if CountNamed(init, name) != 0 {
        CountNamedPositive(init, name);
      }
    } else {
      var d :| d in inv && d.name == name;
      assert d in init;
      CountNamedUnique(init, name);
    }
  }

  lemma {:induction false} CountNamedPositive(inv: seq<LocalDessert>, name: string)
    requires CountNamed(inv, name) != 0
    ensures exists i :: 0 <= i < |inv| && inv[i].name == name
    decreases |inv|
  {
    var init := inv[..|inv| - 1];
    if inv[|inv| - 1].name != name {
      CountNamedPositive(init, name);
      var i :| 0 <= i < |init| && init[i].name == name;
      assert inv[i] == init[i];
    }
  }

  /** With distinct dessert names, an order for a stocked dessert lowers the
      total stock by exactly one. */
  lemma UpdateTakesExactlyOne(dessert: string, inv: seq<LocalDessert>)
    requires dessert != []
    requires forall i, j :: 0 <= i < j < |inv| ==> inv[i].name != inv[j].name
    requires exists d :: d in inv && d.name == dessert
    ensures StockLeft(UpdateDessertInventory(dessert, inv)) == StockLeft(inv) - 1
  {
    UpdateTakesOnePerMatch(dessert, inv);
    CountNamedUnique(inv, dessert);
  }

  /** `getInitialFormData`. */
  function InitialFormData(): FormData {
    FormData("", "", [], "", "", "", "", "")
  }

  /** The empty form is never accepted. */
  lemma InitialFormRejected()
    ensures !ValidateOrderForm(InitialFormData())
  {
  }
}
