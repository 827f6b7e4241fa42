/** The data hooks: each keeps the list it fetched from the store and
    replaces it after a store call succeeds. A store call is a parameter
    saying whether the store accepted it (and, for an insert, what it
    assigned); a failed call leaves the list as it was and is reported to the
    caller, which is how the rethrown error is modelled. */
module StoreHooks {
  import opened Wrappers
  import opened Seqs
  import opened Records

  /** `useOrders`: the orders, newest first. */
  class OrdersHook {
    var orders: seq<Order>

    constructor(fetched: seq<Order>)
      ensures orders == fetched
    {
      orders := fetched;
    }

    /** `addOrder`: the stored row goes to the front of the list. */
    method AddOrder(data: OrderData, reply: Insert<OrderKeys>) returns (r: Option<Order>)
      modifies this
      ensures reply.Rejected? ==> r == None && orders == old(orders)
      ensures reply.Inserted? ==>
        && r == Some(Order(reply.keys.id, reply.keys.createdAt, data))
        && orders == [r.value] + old(orders)
    {
      match reply {
        case Rejected =>
          r := None;
        case Inserted(keys) =>
          var stored := Order(keys.id, keys.createdAt, data);
          orders := [stored] + orders;
          r := Some(stored);
      }
    }
  }

  /** A partial dessert record (`Partial<DessertItem>`): the fields to overwrite. */
  datatype DessertPatch = DessertPatch(
    name: Option<string>,
    startingStock: Option<int>,
    remainingStock: Option<int>,
    active: Option<bool>)

  function RemainingPatch(n: int): DessertPatch {
    DessertPatch(None, None, Some(n), None)
  }

  function StartingPatch(n: int): DessertPatch {
    DessertPatch(None, Some(n), None, None)
  }

  function ActivePatch(b: bool): DessertPatch {
    DessertPatch(None, None, None, Some(b))
  }

  /** `{ ...d, ...updates }`. */
  function Merge(d: DessertItem, p: DessertPatch): DessertItem {
    DessertItem(
      d.id,
      p.name.GetOr(d.name),
      p.startingStock.GetOr(d.startingStock),
      p.remainingStock.GetOr(d.remainingStock),
      p.active.GetOr(d.active))
  }

  /** `prev.map(d => d.id === id ? { ...d, ...updates } : d)`. */
  function MergeById(ds: seq<DessertItem>, id: string, p: DessertPatch): (r: seq<DessertItem>)
    ensures |r| == |ds|
  {
    Project(ds, (d: DessertItem) => if d.id == id then Merge(d, p) else d)
  }

  /** Merging touches only the items with that id: their ids stay, the
      patched fields take the new values and the others keep theirs. */
  lemma MergeByIdEffect(ds: seq<DessertItem>, id: string, p: DessertPatch)
    ensures var r := MergeById(ds, id, p);
      forall i :: 0 <= i < |ds| ==>
        && r[i].id == ds[i].id
        && (ds[i].id != id ==> r[i] == ds[i])
        && (ds[i].id == id ==>
              && r[i].name == (if p.name.Some? then p.name.value else ds[i].name)
              && r[i].startingStock == (if p.startingStock.Some? then p.startingStock.value else ds[i].startingStock)
              && r[i].remainingStock == (if p.remainingStock.Some? then p.remainingStock.value else ds[i].remainingStock)
              && r[i].active == (if p.active.Some? then p.active.value else ds[i].active))
  {
  }

  /** An empty patch changes nothing. */
  lemma MergeEmptyPatch(ds: seq<DessertItem>, id: string)
    ensures MergeById(ds, id, DessertPatch(None, None, None, None)) == ds
  {
    var r := MergeById(ds, id, DessertPatch(None, None, None, None));
    assert forall i :: 0 <= i < |ds| ==> r[i] == ds[i];
  }

  /** The store's ids are primary keys: no two desserts share one. */
  ghost predicate UniqueIds(ds: seq<DessertItem>) {
    forall i, j :: 0 <= i < j < |ds| ==> ds[i].id != ds[j].id
  }

  /** `prev.filter(d => d.id !== id)`. */
  function RemoveById(ds: seq<DessertItem>, id: string): (r: seq<DessertItem>)
    ensures forall d :: d in r <==> d in ds && d.id != id
    ensures |r| <= |ds|
  {
    Filter(ds, (d: DessertItem) => d.id != id)
  }

  /** Deleting keeps the survivors in their order. */
  lemma RemoveByIdAppend(a: seq<DessertItem>, b: seq<DessertItem>, id: string)
    ensures RemoveById(a + b, id) == RemoveById(a, id) + RemoveById(b, id)
  {
    FilterAppend(a, b, (d: DessertItem) => d.id != id);
  }

  /** `useDessertInventory`: the dessert stock list. */
  class DessertInventoryHook {
    var desserts: seq<DessertItem>

    constructor(fetched: seq<DessertItem>)
      ensures desserts == fetched
    {
      desserts := fetched;
    }

    /** `updateDessert`: after the store accepts the update, merge it into
        the items with that id. */
    method UpdateDessert(id: string, p: DessertPatch, accepted: bool) returns (ok: bool)
      modifies this
      ensures ok == accepted
      ensures desserts == if accepted then MergeById(old(desserts), id, p) else old(desserts)
    {
      ok := accepted;
      if accepted {
        desserts := MergeById(desserts, id, p);
      }
    }

    /** `addDessert`: the stored row goes to the end of the list. */
    method AddDessert(name: string, startingStock: int, remainingStock: int, active: bool, reply: Insert<string>)
      returns (r: Option<DessertItem>)
      modifies this
      ensures reply.Rejected? ==> r == None && desserts == old(desserts)
      ensures reply.Inserted? ==>
        && r == Some(DessertItem(reply.keys, name, startingStock, remainingStock, active))
        && desserts == old(desserts) + [r.value]
    {
      match reply {
        case Rejected =>
          r := None;
        case Inserted(id) =>
          var stored := DessertItem(id, name, startingStock, remainingStock, active);
          desserts := desserts + [stored];
          r := Some(stored);
      }
    }

    /** `deleteDessert`: every item with that id goes, the rest stay in order. */
    method DeleteDessert(id: string, accepted: bool) returns (ok: bool)
      modifies this
      ensures ok == accepted
      ensures desserts == if accepted then RemoveById(old(desserts), id) else old(desserts)
    {
      ok := accepted;
      if accepted {
        desserts := RemoveById(desserts, id);
      }
    }
  }

  /** `Math.max(...options.map(o => o.sort_order), 0)`. */
  function MaxSortOrder(os: seq<MenuOption>): (m: int)
    ensures m >= 0
    ensures forall o :: o in os ==> o.sortOrder <= m
    ensures m == 0 || exists o :: o in os && o.sortOrder == m
    decreases |os|
  {
    if os == [] then 0
    else
      var init, last := os[..|os| - 1], os[|os| - 1];
      assert os == init + [last];
      var m := MaxSortOrder(init);
      if last.sortOrder > m then last.sortOrder else m
  }

  /** `prev.filter(o => o.id !== id)`. */
  function RemoveOptionById(os: seq<MenuOption>, id: string): (r: seq<MenuOption>)
    ensures forall o :: o in r <==> o in os && o.id != id
    ensures |r| <= |os|
  {
    Filter(os, (o: MenuOption) => o.id != id)
  }

  ghost predicate DistinctSortOrders(os: seq<MenuOption>) {
    forall i, j :: 0 <= i < j < |os| ==> os[i].sortOrder != os[j].sortOrder
  }

  /** The option the store hands back for a new name: one place after the
      highest existing position. */
  function NewOption(os: seq<MenuOption>, name: string, keys: OptionKeys): MenuOption {
    MenuOption(keys.id, name, keys.active, MaxSortOrder(os) + 1)
  }

  /** The new option sorts after every existing one and at position one or
      later, so positions that were distinct stay distinct. */
  lemma NewOptionSortsLast(os: seq<MenuOption>, name: string, keys: OptionKeys)
    ensures var n := NewOption(os, name, keys);
      && n.sortOrder >= 1
      && (forall o :: o in os ==> o.sortOrder < n.sortOrder)
      && (DistinctSortOrders(os) ==> DistinctSortOrders(os + [n]))
  {
    var n := NewOption(os, name, keys);
    var os' := os + [n];
    if DistinctSortOrders(os) {
      forall i, j | 0 <= i < j < |os'| ensures os'[i].sortOrder != os'[j].sortOrder {
        if j == |os| {
          assert os'[i] in os;
        } else {
          assert os'[i] == os[i] && os'[j] == os[j];
        }
      }
    }
  }

  /** `useMealOptions` and `useSubItemOptions`: the two hooks are the same
      code over two tables, so one class models both. */
  class OptionsHook {
    var options: seq<MenuOption>

    constructor(fetched: seq<MenuOption>)
      ensures options == fetched
    {
      options := fetched;
    }

    /** `addMealOption` / `addSubItemOption`: insert at the next position
        and append the stored row. */
    method AddOption(name: string, reply: Insert<OptionKeys>) returns (r: Option<MenuOption>)
      modifies this
      ensures reply.Rejected? ==> r == None && options == old(options)
      ensures reply.Inserted? ==>
        && r == Some(NewOption(old(options), name, reply.keys))
        && options == old(options) + [r.value]
    {
      var maxOrder := MaxSortOrder(options);
      match reply {
        case Rejected =>
          r := None;
        case Inserted(keys) =>
          var stored := MenuOption(keys.id, name, keys.active, maxOrder + 1);
          options := options + [stored];
          r := Some(stored);
      }
    }

    /** `deleteMealOption` / `deleteSubItemOption`. */
    method DeleteOption(id: string, accepted: bool) returns (ok: bool)
      modifies this
      ensures ok == accepted
      ensures options == if accepted then RemoveOptionById(old(options), id) else old(options)
    {
      ok := accepted;
      if accepted {
        options := RemoveOptionById(options, id);
      }
    }
  }
}
