/** The order form of the browser-storage version: the form state, the
    order built from it with the public-page and volunteer overrides, and
    the list of stored orders it appends to. The store's own `createOrder`
    is not part of this model; it is a parameter. */
module OrderForm {

  /** Where the form is shown: to staff, or on the public page. */
  datatype Mode = Admin | Public

  /** The form state. */
  datatype Form = Form(
    name: string,
    meal: string,
    dessert: string,
    drink: string,
    paidAmount: string,
    usePayItForward: bool,
    isVolunteerMeal: bool)

  /** The form as it starts and as it is reset. */
  const EmptyForm: Form := Form("", "", "", "", "", false, false)

  /** The amount text a free meal is stored with. */
  const FreeAmount: string := "0.00"

  /** `newOrder`: the form with the week and the overrides. */
  datatype Draft = Draft(
    name: string,
    meal: string,
    dessert: string,
    drink: string,
    paidAmount: string,
    usePayItForward: bool,
    isVolunteerMeal: bool,
    week: string)

  function DraftOf(f: Form, mode: Mode, currentWeek: string): Draft {
    Draft(
      f.name, f.meal, f.dessert, f.drink,
      if mode == Public || f.isVolunteerMeal then FreeAmount else f.paidAmount,
      if mode == Public then false else f.usePayItForward,
      if mode == Public then false else f.isVolunteerMeal,
      currentWeek)
  }

  /** The name and meal are required. */
  predicate Complete(d: Draft) {
    d.name != "" && d.meal != ""
  }

  /** On the public page a meal is never paid for, never drawn from the
      pay-it-forward fund and never a volunteer meal, whatever the form
      says; the choices typed in and the week are kept. */
  lemma PublicOverrides(f: Form, currentWeek: string)
    ensures var d := DraftOf(f, Public, currentWeek);
      && d.paidAmount == FreeAmount && !d.usePayItForward && !d.isVolunteerMeal
      && d.name == f.name && d.meal == f.meal && d.dessert == f.dessert && d.drink == f.drink
      && d.week == currentWeek
  {
  }

  /** For staff, a volunteer meal is free and the other flags are kept; a
      meal that is not a volunteer meal keeps the amount typed in. */
  lemma AdminAmounts(f: Form, currentWeek: string)
    ensures var d := DraftOf(f, Admin, currentWeek);
      && d.paidAmount == (if f.isVolunteerMeal then FreeAmount else f.paidAmount)
      && d.usePayItForward == f.usePayItForward && d.isVolunteerMeal == f.isVolunteerMeal
      && d.week == currentWeek
  {
  }

  /** The reset form cannot be submitted again. */
  lemma EmptyFormIncomplete(mode: Mode, currentWeek: string)
    ensures !Complete(DraftOf(EmptyForm, mode, currentWeek))
  {
  }

  class OrderForm<O> {
    const currentWeek: string
    const mode: Mode
    var form: Form
    var orders: seq<O>

    constructor(currentWeek: string, mode: Mode, stored: seq<O>)
      ensures this.currentWeek == currentWeek && this.mode == mode
      ensures form == EmptyForm && orders == stored
    {
      this.currentWeek := currentWeek;
      this.mode := mode;
      form := EmptyForm;
      orders := stored;
    }

    /** `handleChange`: the form is replaced by its edited value. The
        source's edit, `{ ...prev, [name]: value }`, sets one field and
        keeps the others; this method takes any edited form, so it
        covers that edit and every other. */
    method HandleChange(f: Form)
      modifies this
      ensures form == f && orders == old(orders)
    {
      form := f;
    }

    /** `handleSubmit`: an incomplete order changes nothing; otherwise the
        order `createOrder` makes from the draft is appended and the form
        is reset. */
    method HandleSubmit(createOrder: Draft -> O) returns (added: bool)
      modifies this
      ensures var d := DraftOf(old(form), mode, currentWeek);
        && (added <==> Complete(d))
        && (added ==> orders == old(orders) + [createOrder(d)] && form == EmptyForm)
        && (!added ==> orders == old(orders) && form == old(form))
    {
      var d := DraftOf(form, mode, currentWeek);
      if d.name == "" || d.meal == "" {
        return false;
      }
      var order := createOrder(d);
      orders := orders + [order];
      form := EmptyForm;
      added := true;
    }
  }
}
