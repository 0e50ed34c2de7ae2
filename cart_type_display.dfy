/**
 * The cart widget, `CarTypesDisplay` in assets/cart-type-display.js.
 *
 * Its own copy of the ledger update, the fallback `updateCarTypeCookies` with
 * `handleQuantityUpdate` (lines 335-517), is what the widget's buttons run: the branch at line
 * 341 that would delegate to the selector tests for a method, `updateCarType`, that the selector
 * does not define. Its rules differ from the selector's: `minus` subtracts the quantity passed,
 * only the first matching entry is touched, product entries are never removed, and an unknown
 * product gets an entry with an empty list whatever the action.
 *
 * Also here: `normalizeCarTypes`, the host-cart arithmetic of `updateServerCartQuantity`, the
 * quantity-button rules of `validateQtyRules`, the list `updateDisplay` shows, and the cart-id
 * check of `getProductDataForProduct`. The functions are the specification; the methods follow
 * the code statement by statement and are proved equal to them.
 */
module CartTypeDisplay {
  import opened Wrappers
  import opened CartDetails
  import opened Entries

  /** One element of `normalizeCarTypes` (lines 286-296): a string counts once, an object with a
      truthy `type` keeps it with `parseInt(quantity || 1)`, and any other object becomes
      `String(item)`, which is "[object Object]", with quantity 1. */
  function NormalizeCarType(c: CarType): (r: CarType)
    ensures r.Obj? && r.quantity != 0
    ensures c.Obj? && c.kind == Named("") ==> r == Obj(Named("[object Object]"), 1)
    ensures !(c.Obj? && c.kind == Named("")) ==> KeyOf(r) == KeyOf(c) && r.quantity == EntryQuantity(c)
    ensures EntryOk(c) ==> r == c
  {
    match c
    case Str(s) => Obj(Named(s), 1)
    case Obj(k, q) => if k == Named("") then Obj(Named("[object Object]"), 1) else Obj(k, OrOne(q))
  }

  /** `normalizeCarTypes(carTypes)` (lines 281-297). */
  function NormalizeCarTypes(cts: seq<CarType>): (r: seq<CarType>)
    ensures |r| == |cts|
    ensures forall i :: 0 <= i < |r| ==> r[i] == NormalizeCarType(cts[i])
    ensures (forall c :: c in cts ==> EntryOk(c)) ==> r == cts
  {
    seq(|cts|, i requires 0 <= i < |cts| => NormalizeCarType(cts[i]))
  }

  /** A normalised element as a `{type, quantity}` record. */
  function ToEntry(c: CarType): Entry {
    match c
    case Str(s) => Entry(Named(s), 1)
    case Obj(k, q) => Entry(k, q)
  }

  /** The records the grouping loop reads (line 101). */
  function NormalizedEntries(cts: seq<CarType>): (r: seq<Entry>)
    ensures |r| == |cts|
    ensures forall i :: 0 <= i < |r| ==>
              r[i].kind == KeyOf(NormalizeCarType(cts[i])) && r[i].quantity == NormalizeCarType(cts[i]).quantity
  {
    var n := NormalizeCarTypes(cts);
    seq(|n|, i requires 0 <= i < |n| => ToEntry(n[i]))
  }

  // ---------------------------------------------------------------------------------------------
  // The fallback ledger update

  /** `cartDetails` as the fallback reads it (lines 377-389): the parsed cookie's product list,
      else an empty one. */
  function FallbackLoad(cookie: Cookie): seq<Product> {
    match cookie
    case Json(st) => st.products.GetOr([])
    case _ => []
  }

  /** The list `handleQuantityUpdate` assigns to `product.car_types` (lines 472-513): the whole
      list normalised, then the first entry of the type raised or lowered by `q`, spliced out when
      it drops to 0 or below, or a new entry appended when incrementing an absent type. */
  function QuantityUpdate(cts: seq<CarType>, carType: string, q: int, isIncrement: bool): seq<CarType> {
    var n := NormalizeCarTypes(cts);
    var k := TypeIndex(n, carType);
    if k >= 0 then
      var nq := if isIncrement then n[k].quantity + q else n[k].quantity - q;
      if !isIncrement && nq <= 0 then n[..k] + n[k + 1..] else n[k := n[k].(quantity := nq)]
    else if isIncrement then n + [Obj(Named(carType), q)]
    else n
  }

  /** `handleQuantityUpdate(cartDetails, productId, carType, q, isIncrement)` on the product list. */
  function QuantityUpdated(ps: seq<Product>, id: string, carType: string, q: int, isIncrement: bool): seq<Product> {
    var pi := ProductIndex(ps, id);
    if pi < 0 then ps else ps[pi := ps[pi].(carTypes := QuantityUpdate(ps[pi].carTypes, carType, q, isIncrement))]
  }

  /** Lines 395-408: an unknown product gets `{product_id, car_types: []}` (no name) at the end. */
  function WithProduct(ps: seq<Product>, id: string): (r: seq<Product>)
    ensures ProductIndex(r, id) >= 0
  {
    if ProductIndex(ps, id) < 0 then
      var r := ps + [Product(id, "", [])];
      assert r[|ps|].id == id;
      r
    else ps
  }

  /** The action dispatch (lines 410-435). `remove` lowers the first matching entry by its whole
      normalised quantity; any other action string only leaves the product entry added. */
  function FallbackStep(ps: seq<Product>, id: string, carType: string, action: Action, q: int): seq<Product> {
    var ps1 := WithProduct(ps, id);
    match action
    case Add => QuantityUpdated(ps1, id, carType, q, true)
    case Minus => QuantityUpdated(ps1, id, carType, q, false)
    case Remove =>
      var n := NormalizeCarTypes(ps1[ProductIndex(ps1, id)].carTypes);
      var k := TypeIndex(n, carType);
      if k >= 0 then QuantityUpdated(ps1, id, carType, n[k].quantity, false) else ps1
    case _ => ps1
  }

  /** The ledger the fallback saves (line 438): cart id `getCookie('cart') || ''`. */
  function FallbackApply(cartCookie: Option<string>, cookie: Cookie,
                         id: string, carType: string, action: Action, q: int): Ledger {
    Ledger(cartCookie.GetOr(""), FallbackStep(FallbackLoad(cookie), id, carType, action, q))
  }

  /** `handleQuantityUpdate` (lines 463-517), statement by statement. */
  method HandleQuantityUpdate(ps: seq<Product>, productId: string, carType: string, quantity: int, isIncrement: bool)
    returns (products: seq<Product>)
    ensures products == QuantityUpdated(ps, productId, carType, quantity, isIncrement)
  {
    products := ps;
    var pi := ProductIndex(products, productId);
    if pi == -1 {
      return;
    }
    var normalized := NormalizeCarTypes(products[pi].carTypes);
    ghost var n := normalized;
    var existing := TypeIndex(normalized, carType);
    if existing >= 0 {
      if isIncrement {
        normalized := normalized[existing := normalized[existing].(quantity := normalized[existing].quantity + quantity)];
      } else {
        normalized := normalized[existing := normalized[existing].(quantity := normalized[existing].quantity - quantity)];
        if normalized[existing].quantity <= 0 {
          normalized := normalized[..existing] + normalized[existing + 1..];
          assert normalized == n[..existing] + n[existing + 1..];
        }
      }
    } else if isIncrement {
      normalized := normalized + [Obj(Named(carType), quantity)];
    }
    products := products[pi := products[pi].(carTypes := normalized)];
  }

  // ---------------------------------------------------------------------------------------------
  // The host cart

  /** `Math.max(1, x)` */
  function AtLeastOne(x: int): (r: int)
    ensures r >= 1 && r >= x && (x >= 1 ==> r == x)
  {
    if x < 1 then 1 else x
  }

  /** `newQuantity` in `updateServerCartQuantity` (lines 586-615), from the host cart's current
      quantity and the number of car types the saved ledger has left for the product. */
  function HostQuantity(action: Action, current: int, quantity: int, remaining: nat): int {
    match action
    case Add => current + 1
    case Increase => current + 1
    case Decrease => AtLeastOne(current - 1)
    case Minus => if remaining <= 1 then 0 else AtLeastOne(current - 1)
    case Remove => current - quantity
    case _ => current
  }

  /** The host-cart update the call makes, if any (lines 617-629): `current` is None when the
      cart line or its quantity input is missing or its value is not a number. */
  function HostUpdate(action: Action, current: Option<int>, quantity: int, remaining: nat): (r: Option<int>)
    ensures r.Some? ==> current.Some? && r.value != current.value
    ensures current.Some? && HostQuantity(action, current.value, quantity, remaining) != current.value ==>
              r == Some(HostQuantity(action, current.value, quantity, remaining))
    ensures action.Add? || action.Increase? ==> r == (if current.Some? then Some(current.value + 1) else None)
  {
    if current.None? then None
    else
      var nq := HostQuantity(action, current.value, quantity, remaining);
      if nq != current.value then Some(nq) else None
  }

  /** `getCarTypesForProduct(productId).length` once the ledger is saved (lines 650-672). */
  function RemainingTypes(ps: seq<Product>, id: string): nat {
    match FindProduct(ps, id)
    case None => 0
    case Some(p) => |p.carTypes|
  }

  /** The action dispatch of the fallback (lines 410-435), on the list with the product entry. */
  method ApplyAction(ghost loaded: seq<Product>, products: seq<Product>, productId: string, carType: string,
                     action: Action, quantity: int)
    returns (r: seq<Product>)
    requires products == WithProduct(loaded, productId)
    ensures r == FallbackStep(loaded, productId, carType, action, quantity)
  {
    r := products;
    if action == Add {
      r := HandleQuantityUpdate(products, productId, carType, quantity, true);
    } else if action == Minus {
      r := HandleQuantityUpdate(products, productId, carType, quantity, false);
    } else if action == Remove {
      var normalized := NormalizeCarTypes(products[ProductIndex(products, productId)].carTypes);
      var existing := TypeIndex(normalized, carType);
      if existing >= 0 {
        r := HandleQuantityUpdate(products, productId, carType, normalized[existing].quantity, false);
      }
    }
  }

  /** The fallback `updateCarTypeCookies(productId, carType, action, quantity)` (lines 335-460):
      the saved ledger, then the host-cart update. */
  method UpdateCarTypeCookies(cartCookie: Option<string>, cookie: Cookie, productId: string, carType: string,
                              action: Action, quantity: int, hostCurrent: Option<int>)
    returns (ledger: Ledger, hostUpdate: Option<int>)
    ensures ledger == FallbackApply(cartCookie, cookie, productId, carType, action, quantity)
    ensures hostUpdate == HostUpdate(action, hostCurrent, quantity, RemainingTypes(ledger.products, productId))
  {
    var products: seq<Product> := [];
    if cookie.Json? {
      products := cookie.value.products.GetOr([]);
    }
    var cartId := cartCookie.GetOr("");

    var pi := ProductIndex(products, productId);
    if pi == -1 {
      products := products + [Product(productId, "", [])];
    }
    assert products == WithProduct(FallbackLoad(cookie), productId);
    products := ApplyAction(FallbackLoad(cookie), products, productId, carType, action, quantity);
    ledger := Ledger(cartId, products);

    hostUpdate := UpdateServerCartQuantity(action, hostCurrent, quantity, RemainingTypes(products, productId));
  }

  /** `updateServerCartQuantity` (lines 580-630): the new quantity, sent only when it differs. */
  method UpdateServerCartQuantity(action: Action, hostCurrent: Option<int>, quantity: int, remaining: nat)
    returns (hostUpdate: Option<int>)
    ensures hostUpdate == HostUpdate(action, hostCurrent, quantity, remaining)
  {
    hostUpdate := None;
    if hostCurrent.Some? {
      var newQuantity := HostQuantity(action, hostCurrent.value, quantity, remaining);
      if newQuantity != hostCurrent.value {
        hostUpdate := Some(newQuantity);
      }
    }
  }

  // ---------------------------------------------------------------------------------------------
  // The widget's own view

  /** `parseInt` results: a number or NaN. */
  datatype Num = NaN | Int(value: int)

  /** `a <= b` on numbers; every comparison with NaN is false. */
  predicate LessEq(a: Num, b: Num) {
    a.Int? && b.Int? && a.value <= b.value
  }

  datatype Buttons = Buttons(minusDisabled: bool, plusDisabled: bool)

  /** `validateQtyRules` (lines 300-326): `min` defaults to 1 and a missing `max` to
      `parseInt(Infinity)`, which is NaN. The attributes are None when absent or empty. */
  function ValidateQtyRules(value: Num, minAttr: Option<Num>, maxAttr: Option<Num>): (b: Buttons)
    ensures value.NaN? ==> !b.minusDisabled && !b.plusDisabled
    ensures maxAttr.None? ==> !b.plusDisabled
    ensures minAttr.None? && value.Int? ==> (b.minusDisabled <==> value.value <= 1)
    ensures forall m :: minAttr == Some(Int(m)) && value.Int? ==> (b.minusDisabled <==> value.value <= m)
    ensures forall m :: maxAttr == Some(Int(m)) && value.Int? ==> (b.plusDisabled <==> value.value >= m)
  {
    var minValue := minAttr.GetOr(Int(1));
    var maxValue := maxAttr.GetOr(NaN);
    Buttons(LessEq(value, minValue), LessEq(maxValue, value))
  }

  /** One list item: the type, the quantity the input shows (`quantity || 1`), and the buttons
      `validateQtyRules` leaves for an input with `min="1"` and no `max`. */
  datatype Row = Row(carType: TypeField, shown: int, buttons: Buttons)

  /** What `updateDisplay` leaves in the element: nothing, a retry scheduled because the `cart`
      cookie is empty, the "No car types selected yet" message, or the list. */
  datatype View = Blank | Retry | NoTypesYet | Rows(rows: seq<Row>)

  function RowOf(g: Entry): Row {
    var v := OrOne(g.quantity);
    Row(g.kind, v, ValidateQtyRules(Int(v), Some(Int(1)), None))
  }

  function RowsOf(gs: seq<Entry>): (r: seq<Row>)
    ensures |r| == |gs|
  {
    seq(|gs|, i requires 0 <= i < |gs| => RowOf(gs[i]))
  }

  /** `updateDisplay` for the product `productId` ("" when the element has none), lines 22-242.
      It does not compare the ledger's cart id with the session's. A cookie that JSON.parse
      rejects throws into the catch at line 239, leaving the element empty. */
  function DisplayOf(productId: string, cartCookie: Option<string>, cookie: Cookie): (v: View)
    ensures v.Retry? <==> productId != "" && cartCookie.GetOr("") == ""
    ensures v.NoTypesYet? <==> productId != "" && cartCookie.GetOr("") != "" && cookie.Absent?
    ensures v.Rows? <==>
              && productId != "" && cartCookie.GetOr("") != "" && cookie.Json? && cookie.value.products.Some?
              && FindProduct(cookie.value.products.value, productId).Some?
              && |FindProduct(cookie.value.products.value, productId).value.carTypes| > 0
  {
    if productId == "" then Blank
    else if cartCookie.GetOr("") == "" then Retry
    else
      match cookie
      case Absent => NoTypesYet
      case Corrupt(_) => Blank
      case Json(st) =>
        if st.products.None? || |st.products.value| == 0 then Blank
        else
          match FindProduct(st.products.value, productId)
          case None => Blank
          case Some(p) =>
            if |p.carTypes| == 0 then Blank else Rows(RowsOf(Grouped(NormalizedEntries(p.carTypes))))
  }

  /** `updateDisplay`, with the grouping loop and the loop that builds the list items. */
  method UpdateDisplay(productId: string, cartCookie: Option<string>, cookie: Cookie) returns (view: View)
    ensures view == DisplayOf(productId, cartCookie, cookie)
  {
    if productId == "" {
      return Blank;
    }
    if cartCookie.GetOr("") == "" {
      return Retry;
    }
    if cookie.Absent? {
      return NoTypesYet;
    }
    if cookie.Corrupt? {
      return Blank;
    }
    var st := cookie.value;
    if st.products.None? || |st.products.value| == 0 {
      return Blank;
    }
    var product := FindProduct(st.products.value, productId);
    if product.None? || |product.value.carTypes| == 0 {
      return Blank;
    }
    var processed := GroupByType(NormalizedEntries(product.value.carTypes));
    var rows: seq<Row> := [];
    var i := 0;
    while i < |processed|
      invariant 0 <= i <= |processed|
      invariant rows == RowsOf(processed[..i])
    {
      rows := rows + [RowOf(processed[i])];
      i := i + 1;
    }
    assert processed[..|processed|] == processed;
    view := Rows(rows);
  }

  /** `getProductDataForProduct` (lines 883-915): the product's entry, only when the ledger's
      cart id is the session's `getCookie('cart') || ''` and product_details is an array. */
  function ProductDataFor(cartCookie: Option<string>, cookie: Cookie, productId: string): (r: Option<Product>)
    ensures r.Some? <==>
              && cookie.Json? && cookie.value.cartId == Some(cartCookie.GetOr(""))
              && cookie.value.products.Some?
              && exists p :: p in cookie.value.products.value && p.id == productId
    ensures r.Some? ==> r.value in cookie.value.products.value && r.value.id == productId
  {
    match cookie
    case Json(st) =>
      if st.cartId == Some(cartCookie.GetOr("")) && st.products.Some? then FindProduct(st.products.value, productId)
      else None
    case _ => None
  }
}
