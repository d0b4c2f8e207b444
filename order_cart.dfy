/** The browser-side cart of the order page: a list of entries kept in page
    memory, to which "add to cart" merges or appends and from which the
    delete button of a row removes that row. */
module OrderCart {
  import opened Wrappers

  /** A JavaScript number as parseInt produces it: an integer or NaN. */
  datatype Num = Int(n: int) | NaN

  /** JavaScript truthiness of a parsed number: 0 and NaN are falsy. */
  predicate Truthy(x: Num) {
    x.Int? && x.n != 0
  }

  /** x <= y and x > y between numbers: every comparison with NaN is false. */
  predicate AtMost(x: Num, y: int) {
    x.Int? && x.n <= y
  }

  predicate Above(x: Num, y: int) {
    x.Int? && x.n > y
  }

  /** x + y: NaN as soon as one side is NaN. */
  function Plus(x: Num, y: Num): Num {
    if x.Int? && y.Int? then Int(x.n + y.n) else NaN
  }

  /** An element of allProducts, as /api/products returns it. */
  datatype CartProduct = CartProduct(id: int, name: string, basePrice: real, total: int)

  /** An element of cart. */
  datatype CartItem = CartItem(id: int, name: string, price: real, qty: Num)

  /** The two alert() messages of addToCart. */
  datatype Alert = ChooseProductAndQuantity | StockShort

  /** How one call of addToCart ends: an alert and no change, a TypeError
      because the id is not among the loaded products (no change either), a
      merge into the entry at index, or a new entry at the end. */
  datatype Outcome = Alerted(alert: Alert) | ProductMissing | Merged(index: nat) | Appended(product: CartProduct)

  /** arr.find(x => x.id === id), as the index of the first match. */
  function IndexOfId(items: seq<CartItem>, id: int): (r: Option<nat>)
    ensures r.Some? ==> r.value < |items| && items[r.value].id == id
    ensures r.Some? ==> forall j :: 0 <= j < r.value ==> items[j].id != id
    ensures r.None? ==> forall j :: 0 <= j < |items| ==> items[j].id != id
  {
    if items == [] then None
    else if items[0].id == id then Some(0)
    else match IndexOfId(items[1..], id)
      case None => None
      case Some(i) => Some(i + 1)
  }

  /** arr.find(p => p.id === id): the first product with that id. */
  function FindProduct(ps: seq<CartProduct>, id: int): (r: Option<CartProduct>)
    ensures r.Some? ==> r.value in ps && r.value.id == id
    ensures r.Some? ==> exists i :: 0 <= i < |ps| && ps[i] == r.value && forall j :: 0 <= j < i ==> ps[j].id != id
    ensures r.None? ==> forall j :: 0 <= j < |ps| ==> ps[j].id != id
  {
    if ps == [] then None
    else if ps[0].id == id then Some(ps[0])
    else FindProduct(ps[1..], id)
  }

  /** What addToCart does once its first guard has let pid and qty through. */
  function AfterGuard(items: seq<CartItem>, ps: seq<CartProduct>, pid: int, qty: Num): Outcome {
    match FindProduct(ps, pid)
    case None => ProductMissing
    case Some(p) =>
      if Above(qty, p.total) then Alerted(StockShort)
      else match IndexOfId(items, pid)
        case Some(i) => Merged(i)
        case None => Appended(p)
  }

  /** The cart after an outcome. */
  function Apply(items: seq<CartItem>, qty: Num, outcome: Outcome): seq<CartItem> {
    match outcome
    case Merged(i) => if i < |items| then items[i := items[i].(qty := Plus(items[i].qty, qty))] else items
    case Appended(p) => items + [CartItem(p.id, p.name, p.basePrice, qty)]
    case _ => items
  }

  /** addToCart as written: the guard is !pid || qty <= 0, which NaN passes. */
  function AddOutcomeAsWritten(items: seq<CartItem>, ps: seq<CartProduct>, pid: Num, qty: Num): Outcome {
    if !Truthy(pid) || AtMost(qty, 0) then Alerted(ChooseProductAndQuantity)
    else AfterGuard(items, ps, pid.n, qty)
  }

  /** addToCart with the guard its alert describes: a product and a positive
      whole quantity. */
  function AddOutcome(items: seq<CartItem>, ps: seq<CartProduct>, pid: Num, qty: Num): Outcome {
    if !Truthy(pid) || !Above(qty, 0) then Alerted(ChooseProductAndQuantity)
    else AfterGuard(items, ps, pid.n, qty)
  }

  function Added(items: seq<CartItem>, ps: seq<CartProduct>, pid: Num, qty: Num): seq<CartItem> {
    Apply(items, qty, AddOutcome(items, ps, pid, qty))
  }

  function AddedAsWritten(items: seq<CartItem>, ps: seq<CartProduct>, pid: Num, qty: Num): seq<CartItem> {
    Apply(items, qty, AddOutcomeAsWritten(items, ps, pid, qty))
  }

  /** cart.splice(index, 1): a negative index counts from the end (clamped
      at 0), an index at or past the end removes nothing. */
  function Removed(items: seq<CartItem>, index: int): seq<CartItem> {
    var start := if index < 0 then (if |items| + index < 0 then 0 else |items| + index) else index;
    if start < |items| then items[..start] + items[start + 1..] else items
  }

  /** Ids are unique and every quantity is a positive integer. */
  predicate CartValid(items: seq<CartItem>) {
    && (forall i, j :: 0 <= i < j < |items| ==> items[i].id != items[j].id)
    && (forall i :: 0 <= i < |items| ==> Above(items[i].qty, 0))
  }

  predicate UniqueIds(items: seq<CartItem>) {
    forall i, j :: 0 <= i < j < |items| ==> items[i].id != items[j].id
  }

  // ---------------------------------------------------------------------
  // addToCart

  /** No product chosen (pid 0 or NaN) or a quantity that is a number at most
      0: the first alert, and the cart stays as it was, under the guard as
      written and under the corrected one. */
  lemma AddRejectsBadInput(items: seq<CartItem>, ps: seq<CartProduct>, pid: Num, qty: Num)
    requires !Truthy(pid) || (qty.Int? && qty.n <= 0)
    ensures AddOutcomeAsWritten(items, ps, pid, qty) == Alerted(ChooseProductAndQuantity)
    ensures AddedAsWritten(items, ps, pid, qty) == items
    ensures AddOutcome(items, ps, pid, qty) == Alerted(ChooseProductAndQuantity)
    ensures Added(items, ps, pid, qty) == items
  {
  }

  /** The corrected guard also alerts on a NaN quantity, which the written
      guard lets through (see NaNQuantityAccepted). */
  lemma AddRejectsNaN(items: seq<CartItem>, ps: seq<CartProduct>, pid: Num)
    ensures AddOutcome(items, ps, pid, NaN) == Alerted(ChooseProductAndQuantity)
    ensures Added(items, ps, pid, NaN) == items
  {
  }

  /** An id that is not among the loaded products throws before the cart is
      touched. */
  lemma AddUnknownProduct(items: seq<CartItem>, ps: seq<CartProduct>, pid: Num, qty: Num)
    requires Truthy(pid) && Above(qty, 0)
    requires forall j :: 0 <= j < |ps| ==> ps[j].id != pid.n
    ensures AddOutcome(items, ps, pid, qty) == ProductMissing
    ensures Added(items, ps, pid, qty) == items
  {
  }

  /** A quantity above the product's stock: the stock alert and no change.
      The comparison is with this addition's quantity only. */
  lemma AddChecksStock(items: seq<CartItem>, ps: seq<CartProduct>, pid: Num, qty: Num)
    requires Truthy(pid) && Above(qty, 0)
    ensures FindProduct(ps, pid.n).Some? && qty.n > FindProduct(ps, pid.n).value.total ==>
      AddOutcome(items, ps, pid, qty) == Alerted(StockShort) && Added(items, ps, pid, qty) == items
    ensures FindProduct(ps, pid.n).Some? && qty.n <= FindProduct(ps, pid.n).value.total ==>
      AddOutcome(items, ps, pid, qty).Merged? || AddOutcome(items, ps, pid, qty).Appended?
  {
  }

  /** An id already in the cart: that entry's quantity grows by qty; the
      length and every other entry stay the same. */
  lemma AddMerges(items: seq<CartItem>, ps: seq<CartProduct>, pid: Num, qty: Num, i: nat)
    requires Truthy(pid) && Above(qty, 0)
    requires FindProduct(ps, pid.n).Some? && qty.n <= FindProduct(ps, pid.n).value.total
    requires UniqueIds(items) && i < |items| && items[i].id == pid.n
    ensures var r := Added(items, ps, pid, qty);
      && |r| == |items|
      && r[i] == items[i].(qty := Plus(items[i].qty, qty))
      && (forall j :: 0 <= j < |items| && j != i ==> r[j] == items[j])
  {
    assert IndexOfId(items, pid.n) == Some(i);
  }

  /** A new id: exactly one entry with the product's name and price and the
      quantity is appended. */
  lemma AddAppends(items: seq<CartItem>, ps: seq<CartProduct>, pid: Num, qty: Num)
    requires Truthy(pid) && Above(qty, 0)
    requires FindProduct(ps, pid.n).Some? && qty.n <= FindProduct(ps, pid.n).value.total
    requires forall j :: 0 <= j < |items| ==> items[j].id != pid.n
    ensures var p := FindProduct(ps, pid.n).value;
      Added(items, ps, pid, qty) == items + [CartItem(pid.n, p.name, p.basePrice, qty)]
  {
  }

  /** Adding keeps the ids unique and every quantity a positive integer. */
  lemma AddKeepsValid(items: seq<CartItem>, ps: seq<CartProduct>, pid: Num, qty: Num)
    requires CartValid(items)
    ensures CartValid(Added(items, ps, pid, qty))
  {
    var r := Added(items, ps, pid, qty);
    match AddOutcome(items, ps, pid, qty)
    case Merged(i) =>
      assert |r| == |items| && forall j :: 0 <= j < |r| ==> r[j].id == items[j].id;
      assert forall j :: 0 <= j < |r| && j != i ==> r[j] == items[j];
    case Appended(p) =>
      assert forall j :: 0 <= j < |items| ==> r[j] == items[j];
    case _ =>
  }

  /** The cart as written also keeps ids unique: only quantities go wrong. */
  lemma AddAsWrittenKeepsIdsUnique(items: seq<CartItem>, ps: seq<CartProduct>, pid: Num, qty: Num)
    requires UniqueIds(items)
    ensures UniqueIds(AddedAsWritten(items, ps, pid, qty))
  {
    var r := AddedAsWritten(items, ps, pid, qty);
    match AddOutcomeAsWritten(items, ps, pid, qty)
    case Merged(i) =>
      assert |r| == |items| && forall j :: 0 <= j < |r| ==> r[j].id == items[j].id;
    case Appended(p) =>
      assert forall j :: 0 <= j < |items| ==> r[j] == items[j];
    case _ =>
  }

  /** The two guards agree on every quantity except NaN. */
  lemma GuardsAgreeOnNumbers(items: seq<CartItem>, ps: seq<CartProduct>, pid: Num, qty: Num)
    requires qty.Int?
    ensures AddOutcomeAsWritten(items, ps, pid, qty) == AddOutcome(items, ps, pid, qty)
    ensures AddedAsWritten(items, ps, pid, qty) == Added(items, ps, pid, qty)
  {
  }

  /** An empty quantity box gives parseInt("") = NaN, which passes the guard
      as written and lands in the cart as a NaN quantity. */
  lemma NaNQuantityAccepted()
    ensures var ps := [CartProduct(1, "Fuse box", 10.0, 5)];
      && AddedAsWritten([], ps, Int(1), NaN) == [CartItem(1, "Fuse box", 10.0, NaN)]
      && !CartValid(AddedAsWritten([], ps, Int(1), NaN))
      && Added([], ps, Int(1), NaN) == []
  {
    var ps := [CartProduct(1, "Fuse box", 10.0, 5)];
    assert FindProduct(ps, 1) == Some(ps[0]);
    assert !Above(AddedAsWritten([], ps, Int(1), NaN)[0].qty, 0);
  }

  /** Because stock is compared with each addition alone, two additions can
      together exceed it. */
  lemma StockCheckedPerAddition()
    ensures var ps := [CartProduct(1, "Fuse box", 10.0, 5)];
      var once := Added([], ps, Int(1), Int(3));
      && once == [CartItem(1, "Fuse box", 10.0, Int(3))]
      && Added(once, ps, Int(1), Int(3)) == [CartItem(1, "Fuse box", 10.0, Int(6))]
  {
    var ps := [CartProduct(1, "Fuse box", 10.0, 5)];
    assert FindProduct(ps, 1) == Some(ps[0]);
    var once := [CartItem(1, "Fuse box", 10.0, Int(3))];
    assert IndexOfId(once, 1) == Some(0);
  }

  // ---------------------------------------------------------------------
  // removeFromCart

  /** A row index removes exactly that row and keeps the others in order. */
  lemma RemoveAt(items: seq<CartItem>, index: int)
    requires 0 <= index < |items|
    ensures var r := Removed(items, index);
      && |r| == |items| - 1
      && (forall j :: 0 <= j < index ==> r[j] == items[j])
      && (forall j :: index <= j < |r| ==> r[j] == items[j + 1])
      && multiset(r) + multiset{items[index]} == multiset(items)
  {
    assert items == items[..index] + [items[index]] + items[index + 1..];
  }

  /** An index at or past the end removes nothing; a negative one counts from
      the end. */
  lemma RemoveOutOfRange(items: seq<CartItem>, index: int)
    ensures index >= |items| ==> Removed(items, index) == items
    ensures -|items| <= index < 0 ==> Removed(items, index) == Removed(items, |items| + index)
    ensures index < -|items| && items != [] ==> Removed(items, index) == items[1..]
  {
  }

  lemma RemoveKeepsValid(items: seq<CartItem>, index: int)
    requires CartValid(items)
    ensures CartValid(Removed(items, index))
  {
    var r := Removed(items, index);
    var start := if index < 0 then (if |items| + index < 0 then 0 else |items| + index) else index;
    if start < |items| {
      assert forall j :: 0 <= j < |r| ==> r[j] == items[if j < start then j else j + 1];
    }
  }

  /** Removing the row that an addition just appended gives back the cart. */
  lemma RemoveUndoesAppend(items: seq<CartItem>, ps: seq<CartProduct>, pid: Num, qty: Num)
    requires AddOutcome(items, ps, pid, qty).Appended?
    ensures Removed(Added(items, ps, pid, qty), |items|) == items
  {
    var r := Added(items, ps, pid, qty);
    assert r[..|items|] == items;
  }

  // ---------------------------------------------------------------------

  /** The page's module-level state: the loaded products and the cart. */
  class Cart {
    var items: seq<CartItem>
    var allProducts: seq<CartProduct>

    ghost predicate Valid()
      reads this
    {
      CartValid(items)
    }

    /** Page load with the products /api/products returned. */
    constructor(loaded: seq<CartProduct>)
      ensures items == [] && allProducts == loaded && Valid()
    {
      items := [];
      allProducts := loaded;
    }

    /** cart.find(item => item.id === pid) */
    method FindInCart(pid: int) returns (found: Option<nat>)
      ensures found == IndexOfId(items, pid)
    {
      var i := 0;
      while i < |items|
        invariant 0 <= i <= |items|
        invariant forall j :: 0 <= j < i ==> items[j].id != pid
      {
        if items[i].id == pid {
          IndexOfIdFirst(items, pid, i);
          return Some(i);
        }
        i := i + 1;
      }
      return None;
    }

    /** allProducts.find(p => p.id === pid) */
    method FindLoaded(pid: int) returns (found: Option<CartProduct>)
      ensures found == FindProduct(allProducts, pid)
    {
      var i := 0;
      while i < |allProducts|
        invariant 0 <= i <= |allProducts|
        invariant FindProduct(allProducts, pid) == FindProduct(allProducts[i..], pid)
      {
        if allProducts[i].id == pid {
          return Some(allProducts[i]);
        }
        assert allProducts[i..][1..] == allProducts[i + 1..];
        i := i + 1;
      }
      return None;
    }

    /** addToCart with pid and qty as parseInt gave them. */
    method AddToCart(pid: Num, qty: Num) returns (outcome: Outcome)
      modifies this
      ensures outcome == AddOutcome(old(items), allProducts, pid, qty)
      ensures items == Added(old(items), allProducts, pid, qty)
      ensures allProducts == old(allProducts)
      ensures old(Valid()) ==> Valid()
    {
      if Valid() {
        AddKeepsValid(items, allProducts, pid, qty);
      }
      if !Truthy(pid) || !Above(qty, 0) {
        return Alerted(ChooseProductAndQuantity);
      }
      var existing := FindInCart(pid.n);
      var productInfo := FindLoaded(pid.n);
      if productInfo.None? {
        return ProductMissing;
      }
      if Above(qty, productInfo.value.total) {
        return Alerted(StockShort);
      }
      if existing.Some? {
        var i := existing.value;
        items := items[i := items[i].(qty := Plus(items[i].qty, qty))];
        return Merged(i);
      }
      var p := productInfo.value;
      items := items + [CartItem(pid.n, p.name, p.basePrice, qty)];
      return Appended(p);
    }

    /** removeFromCart(index) */
    method RemoveFromCart(index: int)
      modifies this
      ensures items == Removed(old(items), index)
      ensures allProducts == old(allProducts)
      ensures old(Valid()) ==> Valid()
    {
      if Valid() {
        RemoveKeepsValid(items, index);
      }
      var start := if index < 0 then (if |items| + index < 0 then 0 else |items| + index) else index;
      if start < |items| {
        items := items[..start] + items[start + 1..];
      }
    }
  }

  lemma IndexOfIdFirst(items: seq<CartItem>, id: int, i: nat)
    requires i < |items| && items[i].id == id
    requires forall j :: 0 <= j < i ==> items[j].id != id
    ensures IndexOfId(items, id) == Some(i)
  {
  }
}
