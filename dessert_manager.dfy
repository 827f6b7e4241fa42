/** The dessert stock page: the "add dessert" form, the per-dessert edits
    (starting stock, remaining stock, active switch, reset, delete) and the
    button that resets every dessert's remaining stock to its starting
    stock. Each store call is answered by a parameter, as in the hooks. */
module DessertManager {
  import opened Wrappers
  import opened Seqs
  import opened Text
  import opened Records
  import opened StoreHooks

  /** `parseInt(text) || 0`: the number typed into a stock box, zero when
      none can be read. */
  function StockInput(text: string): (n: int)
    ensures ParseInt(text).None? ==> n == 0
    ensures ParseInt(text).Some? ==> n == ParseInt(text).value
  {
    ParseInt(text).GetOr(0)
  }

  /** A stock box holding no digit at all (empty, or only signs and spaces)
      stores zero. */
  lemma StockInputNoDigits(t: string)
    requires forall k :: 0 <= k < |t| ==> !IsDigit(t[k])
    ensures StockInput(t) == 0
  {
    var s := TrimStart(t);
    var u := SplitSign(s).1;
    assert u == [] || u[0] == t[|t| - |u|];
    assert LeadingDigits(u) == [];
  }

  /** A stock box shows `String(n)`; reading it back gives `n`. */
  lemma StockInputRoundTrip(n: int)
    ensures StockInput(IntText(n)) == n
  {
    ParseIntText(n);
  }

  /** What a control on a dessert's card sends. */
  datatype CardEdit =
    | StartingText(text: string)
    | RemainingText(text: string)
    | ActiveSwitch(checked: bool)
    | ResetButton(startingStock: int)

  /** The one-field update a control sends (`{ [field]: value }`). */
  function PatchOf(e: CardEdit): (p: DessertPatch)
    ensures p.name == None
    ensures e.StartingText? <==> p.startingStock.Some?
    ensures e.RemainingText? || e.ResetButton? <==> p.remainingStock.Some?
    ensures e.ActiveSwitch? <==> p.active.Some?
    ensures e.StartingText? ==> p.startingStock == Some(StockInput(e.text))
    ensures e.RemainingText? ==> p.remainingStock == Some(StockInput(e.text))
    ensures e.ResetButton? ==> p.remainingStock == Some(e.startingStock)
    ensures e.ActiveSwitch? ==> p.active == Some(e.checked)
  {
    match e
    case StartingText(t) => StartingPatch(StockInput(t))
    case RemainingText(t) => RemainingPatch(StockInput(t))
    case ActiveSwitch(b) => ActivePatch(b)
    case ResetButton(n) => RemainingPatch(n)
  }

  /** A dessert with its remaining stock put back to its starting stock. */
  function Restocked(d: DessertItem): DessertItem {
    d.(remainingStock := d.startingStock)
  }

  /** With ids unique, a dessert's own Reset button restocks that dessert
      and leaves every other one as it was. */
  lemma ResetOneRestocks(ds: seq<DessertItem>, k: nat)
    requires UniqueIds(ds) && k < |ds|
    ensures var r := MergeById(ds, ds[k].id, PatchOf(ResetButton(ds[k].startingStock)));
      && |r| == |ds|
      && forall i :: 0 <= i < |ds| ==> r[i] == if i == k then Restocked(ds[k]) else ds[i]
  {
    var d := ds[k];
    var r := MergeById(ds, d.id, PatchOf(ResetButton(d.startingStock)));
    MergeByIdEffect(ds, d.id, RemainingPatch(d.startingStock));
    forall i | 0 <= i < |ds| ensures r[i] == if i == k then Restocked(ds[k]) else ds[i] {
      if i != k {
        assert ds[i].id != d.id;
      }
    }
  }

  /** The list after the first `k` reset calls of the loop over `items`
      have been accepted, each merged into the list the previous left. */
  function ResetPrefix(ds: seq<DessertItem>, items: seq<DessertItem>, k: nat): (r: seq<DessertItem>)
    requires k <= |items|
    ensures |r| == |ds|
  {
    if k == 0 then ds
    else MergeById(ResetPrefix(ds, items, k - 1), items[k - 1].id, RemainingPatch(items[k - 1].startingStock))
  }

  /** How many of the loop's calls are made and accepted: the loop stops at
      the first call the store refuses. */
  function AcceptedPrefix(accepts: nat -> bool, n: nat): (k: nat)
    ensures k <= n
    ensures forall i :: 0 <= i < k ==> accepts(i)
    ensures k < n ==> !accepts(k)
  {
    if n == 0 then 0
    else
      var k := AcceptedPrefix(accepts, n - 1);
      if k == n - 1 && accepts(n - 1) then n else k
  }

  /** With ids unique, the first `k` reset calls restock exactly the first
      `k` desserts and leave the rest as they were. */
  lemma {:induction false} ResetPrefixEffect(ds: seq<DessertItem>, k: nat)
    requires UniqueIds(ds) && k <= |ds|
    ensures var r := ResetPrefix(ds, ds, k);
      forall i :: 0 <= i < |ds| ==> r[i] == if i < k then Restocked(ds[i]) else ds[i]
  {
    if k > 0 {
      ResetPrefixEffect(ds, k - 1);
      var prev := ResetPrefix(ds, ds, k - 1);
      var d := ds[k - 1];
      var r := ResetPrefix(ds, ds, k);
      assert r == MergeById(prev, d.id, RemainingPatch(d.startingStock));
      MergeByIdEffect(prev, d.id, RemainingPatch(d.startingStock));
      forall i | 0 <= i < |ds| ensures r[i] == if i < k then Restocked(ds[i]) else ds[i] {
        if i == k - 1 {
          assert prev[i] == d;
        } else {
          assert prev[i].id != d.id;
        }
      }
    }
  }

  /** When every call is accepted the whole list is restocked: every
      dessert's remaining stock equals its starting stock and nothing else
      changes. */
  lemma ResetAllRestocks(ds: seq<DessertItem>)
    requires UniqueIds(ds)
    ensures var r := ResetPrefix(ds, ds, |ds|);
      && |r| == |ds|
      && forall i :: 0 <= i < |ds| ==> r[i] == Restocked(ds[i]) && r[i].remainingStock == r[i].startingStock
  {
    ResetPrefixEffect(ds, |ds|);
  }

  /** The result of pressing "add dessert". */
  datatype AddOutcome = MissingInformation | NotSaved | Saved(item: DessertItem)

  class DessertManager {
    const inventory: DessertInventoryHook
    var newName: string
    var newStockText: string

    constructor(inventory: DessertInventoryHook)
      ensures this.inventory == inventory
      ensures newName == "" && newStockText == ""
    {
      this.inventory := inventory;
      newName := "";
      newStockText := "";
    }

    /** Typing into the form. */
    method SetNewDessert(name: string, stockText: string)
      modifies this
      ensures newName == name && newStockText == stockText
    {
      newName := name;
      newStockText := stockText;
    }

    /** `handleAddDessert`: both boxes must be filled; the dessert is added
        with all its stock remaining and switched on, and the form is
        cleared only once the store has it. */
    method HandleAddDessert(reply: Insert<string>) returns (outcome: AddOutcome)
      modifies this, inventory
      ensures old(newName) == "" || old(newStockText) == "" ==>
        outcome == MissingInformation && inventory.desserts == old(inventory.desserts) &&
        newName == old(newName) && newStockText == old(newStockText)
      ensures old(newName) != "" && old(newStockText) != "" ==>
        match ParseInt(old(newStockText))
        case None =>
          outcome == NotSaved && inventory.desserts == old(inventory.desserts) &&
          newName == old(newName) && newStockText == old(newStockText)
        case Some(stock) =>
          match reply
          case Rejected =>
            outcome == NotSaved && inventory.desserts == old(inventory.desserts) &&
            newName == old(newName) && newStockText == old(newStockText)
          case Inserted(id) =>
            && outcome == Saved(DessertItem(id, old(newName), stock, stock, true))
            && inventory.desserts == old(inventory.desserts) + [outcome.item]
            && newName == "" && newStockText == ""
    {
      if newName == "" || newStockText == "" {
        return MissingInformation;
      }
      var parsed := ParseInt(newStockText);
      if parsed.None? {
        return NotSaved;
      }
      var stock := parsed.value;
      var stored := inventory.AddDessert(newName, stock, stock, true, reply);
      if stored.None? {
        return NotSaved;
      }
      newName := "";
      newStockText := "";
      outcome := Saved(stored.value);
    }

    /** `handleUpdateDessert` with the update one card control sends; a
        refused update leaves the list as it was. */
    method HandleCardEdit(id: string, e: CardEdit, accepted: bool)
      modifies inventory
      ensures inventory.desserts ==
        if accepted then MergeById(old(inventory.desserts), id, PatchOf(e)) else old(inventory.desserts)
    {
      var _ := inventory.UpdateDessert(id, PatchOf(e), accepted);
    }

    /** `handleDeleteDessert`. */
    method HandleDeleteDessert(id: string, accepted: bool)
      modifies inventory
      ensures inventory.desserts ==
        if accepted then RemoveById(old(inventory.desserts), id) else old(inventory.desserts)
    {
      var _ := inventory.DeleteDessert(id, accepted);
    }

    /** `resetAllStock`: one update per dessert of the list as it was when
        the button was pressed, each merged into the current list; the
        first refusal ends the loop, keeping the updates made before it.
        `accepts(i)` is the store's answer to the `i`-th call. */
    method ResetAllStock(accepts: nat -> bool) returns (allDone: bool)
      modifies inventory
      ensures var snapshot := old(inventory.desserts);
        && inventory.desserts == ResetPrefix(snapshot, snapshot, AcceptedPrefix(accepts, |snapshot|))
        && (allDone <==> forall i :: 0 <= i < |snapshot| ==> accepts(i))
    {
      var snapshot := inventory.desserts;
      var i := 0;
      allDone := true;
      while i < |snapshot| && allDone
        invariant 0 <= i <= |snapshot|
        invariant AcceptedPrefix(accepts, i) == i
        invariant inventory.desserts == ResetPrefix(snapshot, snapshot, i)
        invariant !allDone ==> i < |snapshot| && !accepts(i)
        decreases |snapshot| - i, allDone
      {
        var d := snapshot[i];
        var ok := inventory.UpdateDessert(d.id, RemainingPatch(d.startingStock), accepts(i));
        if ok {
          i := i + 1;
        } else {
          allDone := false;
        }
      }
      if !allDone {
        AcceptedPrefixStops(accepts, i, |snapshot|);
      }
    }
  }

  /** A refusal at call `k`, after `k` accepted calls, ends the count at `k`
      however many calls the loop had left. */
  lemma {:induction false} AcceptedPrefixStops(accepts: nat -> bool, k: nat, n: nat)
    requires k < n && AcceptedPrefix(accepts, k) == k && !accepts(k)
    ensures AcceptedPrefix(accepts, n) == k
    decreases n
  {
    if n > k + 1 {
      AcceptedPrefixStops(accepts, k, n - 1);
    }
  }
}
