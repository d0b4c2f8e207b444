/** The order page's server-side check of the quantity typed for each product
    (POST /order) and the order summary the process-plan page shows. The
    submitted form is the value of each field qty_<id>, keyed by product id. */
module OrderForm {
  import opened Wrappers
  import opened Text

  /** One row of the products list, in ascending id; stock is the TOTAL column. */
  datatype Product = Product(id: int, name: string, stock: int)

  /** An element of session["current_order_items"]; the fallback summary line
      has no id. */
  datatype Item = Item(id: Option<int>, name: string, quantity: int)

  /** The error messages of the page, with the facts each one names. */
  datatype FormError =
    | NotAnInteger(product: string)
    | Negative(product: string)
    | OverStock(product: string, stock: int)
    | NothingSelected

  /** What the loop body decides for one product. */
  datatype Verdict = Skip | Take(quantity: int) | Reject(error: FormError)

  /** request.form.get("qty_<id>", "").strip() */
  function Field(form: map<int, string>, id: int): string {
    if id in form then Strip(form[id]) else ""
  }

  /** One iteration of the loop: blank or exactly "0" is skipped; otherwise
      int() must accept it, and the value must be neither negative nor above
      the stock; a positive value is selected. */
  function Check(p: Product, form: map<int, string>): Verdict {
    var q := Field(form, p.id);
    if q == "" || q == "0" then Skip
    else match ParseInt(q)
      case None => Reject(NotAnInteger(p.name))
      case Some(n) =>
        if n < 0 then Reject(Negative(p.name))
        else if n > p.stock then Reject(OverStock(p.name, p.stock))
        else if n > 0 then Take(n)
        else Skip
  }

  /** The loop over the products in order: the first rejection ends it,
      otherwise the selected items accumulate. */
  function Scan(ps: seq<Product>, form: map<int, string>): Result<seq<Item>, FormError> {
    if ps == [] then Ok([])
    else
      var last := ps[|ps| - 1];
      match Scan(ps[..|ps| - 1], form)
      case Err(e) => Err(e)
      case Ok(items) =>
        match Check(last, form)
        case Reject(e) => Err(e)
        case Skip => Ok(items)
        case Take(n) => Ok(items + [Item(Some(last.id), last.name, n)])
  }

  /** What the POST handler ends with: the first error, the "choose at least
      one product" error when nothing was selected, or the items it stores in
      the session before redirecting to the process-plan page. */
  function OrderSelection(ps: seq<Product>, form: map<int, string>): Result<seq<Item>, FormError> {
    match Scan(ps, form)
    case Err(e) => Err(e)
    case Ok(items) => if items == [] then Err(NothingSelected) else Ok(items)
  }

  /** The products with an accepted positive quantity, in product order. */
  function Selected(ps: seq<Product>, form: map<int, string>): seq<Item> {
    if ps == [] then [] else Chosen(ps[0], form) + Selected(ps[1..], form)
  }

  /** The item one product contributes: one when it is selected, none otherwise. */
  function Chosen(p: Product, form: map<int, string>): seq<Item> {
    if Check(p, form).Take? then [Item(Some(p.id), p.name, Check(p, form).quantity)] else []
  }

  predicate NoRejection(ps: seq<Product>, form: map<int, string>) {
    forall i :: 0 <= i < |ps| ==> !Check(ps[i], form).Reject?
  }

  // ---------------------------------------------------------------------

  /** A blank field and the exact text "0" are skipped without an error. */
  lemma BlankOrZeroSkipped(p: Product, form: map<int, string>)
    requires Field(form, p.id) == "" || Field(form, p.id) == "0"
    ensures Check(p, form) == Skip
  {
  }

  /** The verdict on one product, by what its field holds. */
  lemma CheckMeaning(p: Product, form: map<int, string>)
    ensures var q := Field(form, p.id);
      && (Check(p, form) == Reject(NotAnInteger(p.name)) <==> q != "" && q != "0" && ParseInt(q).None?)
      && (Check(p, form) == Reject(Negative(p.name)) <==> q != "0" && ParseInt(q).Some? && ParseInt(q).value < 0)
      && (Check(p, form) == Reject(OverStock(p.name, p.stock)) <==>
            q != "0" && ParseInt(q).Some? && 0 <= ParseInt(q).value && ParseInt(q).value > p.stock)
      && (Check(p, form).Take? <==> ParseInt(q).Some? && 0 < ParseInt(q).value <= p.stock)
      && (Check(p, form).Take? ==> Check(p, form).quantity == ParseInt(q).value)
  {
    var q := Field(form, p.id);
    if q == "0" {
      assert IsDigits(q) && DigitsValue(q) == 0;
    }
  }

  lemma {:induction false} SelectedSnoc(ps: seq<Product>, p: Product, form: map<int, string>)
    ensures Selected(ps + [p], form) == Selected(ps, form) + Chosen(p, form)
  {
    var qs := ps + [p];
    if ps == [] {
      assert qs[1..] == [];
      assert Selected(qs, form) == Chosen(p, form) + [];
    } else {
      assert qs[0] == ps[0] && qs[1..] == ps[1..] + [p];
      SelectedSnoc(ps[1..], p, form);
      var a, b, c := Chosen(ps[0], form), Selected(ps[1..], form), Chosen(p, form);
      assert Selected(qs, form) == a + (b + c);
      assert a + (b + c) == (a + b) + c;
    }
  }

  /** Without a rejection the scan succeeds and selects exactly the products
      with a positive accepted quantity, in product order; with one it fails. */
  lemma {:induction false} ScanOk(ps: seq<Product>, form: map<int, string>)
    ensures Scan(ps, form).Ok? <==> NoRejection(ps, form)
    ensures Scan(ps, form).Ok? ==> Scan(ps, form).value == Selected(ps, form)
  {
    if ps != [] {
      var init := ps[..|ps| - 1];
      var last := ps[|ps| - 1];
      ScanOk(init, form);
      assert ps == init + [last];
      SelectedSnoc(init, last, form);
      if NoRejection(ps, form) {
        assert !Check(ps[|ps| - 1], form).Reject?;
      }
      if NoRejection(init, form) && !Check(last, form).Reject? {
        forall i | 0 <= i < |ps| ensures !Check(ps[i], form).Reject? {
          if i < |init| { assert ps[i] == init[i]; }
        }
      }
    }
  }

  /** The first rejected product decides the outcome: the error is its error,
      whatever the products after it hold. */
  lemma {:induction false} FirstErrorStops(ps: seq<Product>, form: map<int, string>, i: int)
    requires 0 <= i < |ps| && Check(ps[i], form).Reject?
    requires NoRejection(ps[..i], form)
    ensures Scan(ps, form) == Err(Check(ps[i], form).error)
    ensures OrderSelection(ps, form) == Err(Check(ps[i], form).error)
    decreases |ps|
  {
    var init := ps[..|ps| - 1];
    if i == |ps| - 1 {
      assert init == ps[..i];
      ScanOk(init, form);
    } else {
      assert init[..i] == ps[..i] && init[i] == ps[i];
      FirstErrorStops(init, form, i);
    }
  }

  /** A failed scan names the error of some product, the first one rejected. */
  lemma {:induction false} ScanErrIsFirst(ps: seq<Product>, form: map<int, string>)
    requires Scan(ps, form).Err?
    ensures exists i :: 0 <= i < |ps| && Check(ps[i], form) == Reject(Scan(ps, form).error) && NoRejection(ps[..i], form)
  {
    var init := ps[..|ps| - 1];
    var last := ps[|ps| - 1];
    if Scan(init, form).Err? {
      ScanErrIsFirst(init, form);
      var i :| 0 <= i < |init| && Check(init[i], form) == Reject(Scan(init, form).error) && NoRejection(init[..i], form);
      assert ps[i] == init[i] && ps[..i] == init[..i];
    } else {
      ScanOk(init, form);
      assert ps[..|ps| - 1] == init;
    }
  }

  /** Success means: no product was rejected, at least one was selected, and
      the items are exactly the selected products with their quantities. */
  lemma SelectionMeaning(ps: seq<Product>, form: map<int, string>)
    ensures OrderSelection(ps, form).Ok? <==> NoRejection(ps, form) && Selected(ps, form) != []
    ensures OrderSelection(ps, form).Ok? ==> OrderSelection(ps, form).value == Selected(ps, form)
    ensures OrderSelection(ps, form) == Err(NothingSelected) <==> NoRejection(ps, form) && Selected(ps, form) == []
  {
    ScanOk(ps, form);
    if Scan(ps, form).Err? {
      ScanErrIsFirst(ps, form);
    }
  }

  lemma {:induction false} SelectedItemsValid(ps: seq<Product>, form: map<int, string>, k: int)
    requires 0 <= k < |Selected(ps, form)|
    ensures exists i :: 0 <= i < |ps| && Selected(ps, form)[k] == Item(Some(ps[i].id), ps[i].name, Selected(ps, form)[k].quantity)
                        && 0 < Selected(ps, form)[k].quantity <= ps[i].stock
  {
    var p := ps[0];
    var head := Chosen(p, form);
    if k < |head| {
      CheckMeaning(p, form);
      assert Selected(ps, form)[k] == head[0];
    } else {
      assert Selected(ps, form)[k] == Selected(ps[1..], form)[k - |head|];
      SelectedItemsValid(ps[1..], form, k - |head|);
      var i :| 0 <= i < |ps[1..]| && Selected(ps[1..], form)[k - |head|] == Item(Some(ps[1..][i].id), ps[1..][i].name, Selected(ps, form)[k].quantity)
               && 0 < Selected(ps, form)[k].quantity <= ps[1..][i].stock;
      assert ps[i + 1] == ps[1..][i];
    }
  }

  /** One more product on a scan that has not failed yet. */
  lemma ScanNext(ps: seq<Product>, form: map<int, string>, i: int)
    requires 0 <= i < |ps|
    ensures Scan(ps[..i + 1], form) ==
      match Scan(ps[..i], form)
      case Err(e) => Err(e)
      case Ok(items) =>
        match Check(ps[i], form)
        case Reject(e) => Err(e)
        case Skip => Ok(items)
        case Take(n) => Ok(items + [Item(Some(ps[i].id), ps[i].name, n)])
  {
    assert ps[..i + 1][..i] == ps[..i];
  }

  /** The loop stops at a rejected product with that product's error. */
  lemma ScanBreak(ps: seq<Product>, form: map<int, string>, i: int, selected: seq<Item>)
    requires 0 <= i < |ps| && Scan(ps[..i], form) == Ok(selected) && Check(ps[i], form).Reject?
    ensures OrderSelection(ps, form) == Err(Check(ps[i], form).error)
  {
    ScanOk(ps[..i], form);
    FirstErrorStops(ps, form, i);
  }

  // ---------------------------------------------------------------------

  /** The validation loop of order_page, with its break at the first error. */
  method ValidateQuantities(products: seq<Product>, form: map<int, string>) returns (r: Result<seq<Item>, FormError>)
    ensures r == OrderSelection(products, form)
  {
    var selected: seq<Item> := [];
    var error: Option<FormError> := None;
    var i := 0;
    while i < |products|
      invariant 0 <= i <= |products|
      invariant Scan(products[..i], form) == Ok(selected)
      invariant error.None?
    {
      var p := products[i];
      ScanNext(products, form, i);
      var q := Field(form, p.id);
      if q == "" || q == "0" {
        i := i + 1;
        continue;
      }
      var parsed := ParseInt(q);
      if parsed.None? {
        error := Some(NotAnInteger(p.name));
        ScanBreak(products, form, i, selected);
        break;
      }
      var qty := parsed.value;
      if qty < 0 {
        error := Some(Negative(p.name));
        ScanBreak(products, form, i, selected);
        break;
      }
      if qty > p.stock {
        error := Some(OverStock(p.name, p.stock));
        ScanBreak(products, form, i, selected);
        break;
      }
      if qty > 0 {
        selected := selected + [Item(Some(p.id), p.name, qty)];
      }
      i := i + 1;
    }
    if error.Some? {
      return Err(error.value);
    }
    assert products[..i] == products;
    if selected == [] {
      return Err(NothingSelected);
    }
    return Ok(selected);
  }

  // ---------------------------------------------------------------------
  // process_plan

  const FallbackItem: Item := Item(None, "Basic Fuse Box - Black", 3)

  /** The items of the process-plan page: those stored in the session when
      there are any, otherwise the single fallback line. */
  function PlanSummary(session: Option<seq<Item>>): (r: seq<Item>)
    ensures r != []
  {
    if session.Some? && session.value != [] then session.value else [FallbackItem]
  }

  /** After a successful order form the process-plan page shows exactly the
      selected items; without a stored selection it shows the fallback line. */
  lemma PlanShowsSelection(ps: seq<Product>, form: map<int, string>)
    ensures OrderSelection(ps, form).Ok? ==> PlanSummary(Some(OrderSelection(ps, form).value)) == Selected(ps, form)
    ensures PlanSummary(None) == [FallbackItem] && PlanSummary(Some([])) == [FallbackItem]
  {
    SelectionMeaning(ps, form);
  }
}
