/**
 * The selector's ledger mutation, `CarTypeSelector.updateCarTypeCookies`
 * (assets/car-type-selector.js:358-660), modelled as written: load the `cart_details` cookie
 * ("missing or corrupt means empty"), force its cart id to the session's, migrate legacy string
 * entries (testing only the first element of each list), then apply one action in place.
 *
 * Step and its helpers are the specification; UpdateCarTypeCookies is the statement-by-statement
 * imperative version, proved equal to Apply. A TypeError that the code can throw before it saves
 * is the outcome Threw.
 */
module SelectorLedger {
  import opened Wrappers
  import opened CartDetails

  /** Saved: the ledger written back to the cookie and returned. Threw: a TypeError escaped before
      the save at line 649, so the cookie keeps what it had. */
  datatype Outcome = Saved(ledger: Ledger) | Threw

  /** The cart id the call works with: the `cart` cookie, or, when that is missing, the id obtained
      by waiting for it or generating a temporary one (both left out; passed in as `newCartId`). */
  function CartId(cartCookie: string, newCartId: string): string {
    if cartCookie != "" then cartCookie else newCartId
  }

  /** `type => ({ type, quantity: 1 })`: the element itself becomes the new object's type. */
  function Migrated(c: CarType): CarType {
    Obj(if c.Str? then Named(c.s) else Nested(c), 1)
  }

  /** The migration of one `car_types` list: every element is mapped, but only when the FIRST
      element is a string. */
  function MigrateList(cts: seq<CarType>): (r: seq<CarType>)
    ensures |r| == |cts|
  {
    if |cts| > 0 && cts[0].Str? then seq(|cts|, i requires 0 <= i < |cts| => Migrated(cts[i])) else cts
  }

  function MigrateProduct(p: Product): Product {
    p.(carTypes := MigrateList(p.carTypes))
  }

  /** The `forEach` migration over every product entry. */
  function MigrateAll(ps: seq<Product>): (r: seq<Product>)
    ensures |r| == |ps|
  {
    seq(|ps|, i requires 0 <= i < |ps| => MigrateProduct(ps[i]))
  }

  /** The ledger the call starts from. Without a session cart id the code first overwrites the
      cookie with an empty ledger and then reads that back. */
  function Load(cartCookie: string, newCartId: string, cookie: Cookie): Ledger {
    var id := CartId(cartCookie, newCartId);
    if cartCookie == "" then Ledger(id, [])
    else
      match cookie
      case Json(st) => Ledger(id, MigrateAll(st.products.GetOr([])))
      case _ => Ledger(id, [])
  }

  function NewProduct(id: string, name: string, carType: string, q: int): Product {
    Product(id, name, [Obj(Named(carType), q)])
  }

  /** `car_types.filter(item => !Matches(item, carType))` */
  function FilterOut(cts: seq<CarType>, carType: string): (r: seq<CarType>)
    ensures |r| <= |cts|
    ensures forall c :: c in r ==> c in cts && !Matches(c, carType)
    ensures forall c :: c in cts && !Matches(c, carType) ==> c in r
    ensures DistinctKinds(cts) ==> DistinctKinds(r)
    decreases |cts|
  {
    if |cts| == 0 then []
    else
      var rest := FilterOut(cts[1..], carType);
      FilterStep(cts, carType, rest);
      (if Matches(cts[0], carType) then [] else [cts[0]]) + rest
  }

  /** FilterOut of a non-empty list, unfolded once. */
  lemma FilterHead(cts: seq<CarType>, carType: string)
    requires |cts| > 0
    ensures FilterOut(cts, carType)
      == (if Matches(cts[0], carType) then [] else [cts[0]]) + FilterOut(cts[1..], carType)
  {
  }

  /** FilterOut keeps order and multiplicity, as `Array.prototype.filter` does: a one-entry list
      keeps its entry exactly when it does not match (FilterOutSingle), and filtering a
      concatenation concatenates the filtered parts. */
  lemma {:induction false} FilterOutConcat(a: seq<CarType>, b: seq<CarType>, carType: string)
    ensures FilterOut(a + b, carType) == FilterOut(a, carType) + FilterOut(b, carType)
    decreases |a|
  {
    if |a| == 0 {
      assert a + b == b;
    } else {
      var x, t := a[0], a[1..];
      assert a == [x] + t;
      assert a + b == [x] + (t + b);
      FilterCons(x, t + b, carType);
      FilterCons(x, t, carType);
      FilterOutConcat(t, b, carType);
      ConcatAssoc(if Matches(x, carType) then [] else [x], FilterOut(t, carType), FilterOut(b, carType));
    }
  }

  /** FilterOut of a list given as its first entry and the rest. */
  lemma FilterCons(x: CarType, t: seq<CarType>, carType: string)
    ensures FilterOut([x] + t, carType) == (if Matches(x, carType) then [] else [x]) + FilterOut(t, carType)
  {
    FilterHead([x] + t, carType);
    assert ([x] + t)[1..] == t;
  }

  lemma ConcatAssoc(h: seq<CarType>, p: seq<CarType>, q: seq<CarType>)
    ensures h + (p + q) == (h + p) + q
  {
  }

  lemma FilterOutSingle(c: CarType, carType: string)
    ensures FilterOut([c], carType) == (if Matches(c, carType) then [] else [c])
  {
    FilterHead([c], carType);
    assert [c][1..] == [];
  }

  /** One step of FilterOut: the first entry, kept or not, in front of the filtered rest. */
  lemma FilterStep(cts: seq<CarType>, carType: string, rest: seq<CarType>)
    requires |cts| > 0
    requires forall c :: c in rest ==> c in cts[1..] && !Matches(c, carType)
    requires forall c :: c in cts[1..] && !Matches(c, carType) ==> c in rest
    requires DistinctKinds(cts[1..]) ==> DistinctKinds(rest)
    ensures var r := (if Matches(cts[0], carType) then [] else [cts[0]]) + rest;
      && (forall c :: c in r ==> c in cts && !Matches(c, carType))
      && (forall c :: c in cts && !Matches(c, carType) ==> c in r)
      && (DistinctKinds(cts) ==> DistinctKinds(r))
  {
    var r := (if Matches(cts[0], carType) then [] else [cts[0]]) + rest;
    assert cts == [cts[0]] + cts[1..];
    if DistinctKinds(cts) {
      assert DistinctKinds(cts[1..]) by {
        forall i, j | 0 <= i < j < |cts[1..]| ensures KeyOf(cts[1..][i]) != KeyOf(cts[1..][j]) {
          assert cts[1..][i] == cts[i + 1] && cts[1..][j] == cts[j + 1];
        }
      }
      forall c | c in rest ensures KeyOf(c) != KeyOf(cts[0]) {
        var j :| 0 <= j < |cts[1..]| && cts[1..][j] == c;
        assert cts[j + 1] == c;
      }
      if !Matches(cts[0], carType) {
        forall i, j | 0 <= i < j < |r| ensures KeyOf(r[i]) != KeyOf(r[j]) {
          if i == 0 {
            assert r[j] == rest[j - 1] && r[j] in rest;
          } else {
            assert r[i] == rest[i - 1] && r[j] == rest[j - 1];
          }
        }
      }
    }
  }

  /** Drop every entry of a type from the product at `pi`; drop the product when nothing is left
      (lines 519-528, and the same code at 564-573 and 610-619). */
  function DropType(ps: seq<Product>, pi: nat, carType: string): seq<Product>
    requires pi < |ps|
  {
    var kept := FilterOut(ps[pi].carTypes, carType);
    if |kept| == 0 then ps[..pi] + ps[pi + 1..] else ps[pi := ps[pi].(carTypes := kept)]
  }

  /** `add` and `increase` (lines 452-507). */
  function AddTo(ps: seq<Product>, id: string, name: string, carType: string, q: int): seq<Product> {
    var pi := ProductIndex(ps, id);
    if pi < 0 then ps + [NewProduct(id, name, carType, q)]
    else ps[pi := Product(ps[pi].id, name, AddToList(MigrateList(ps[pi].carTypes), carType, q))]
  }

  /** Lines 485-502: a new entry, a string entry replaced by `{type, quantity}`, or the quantity
      added to `existing.quantity || 1`. */
  function AddToList(cts: seq<CarType>, carType: string, q: int): seq<CarType> {
    var ci := TypeIndex(cts, carType);
    if ci < 0 then cts + [Obj(Named(carType), q)]
    else if cts[ci].Str? then cts[ci := Obj(Named(carType), q)]
    else cts[ci := cts[ci].(quantity := OrOne(cts[ci].quantity) + q)]
  }

  /** `remove` (lines 508-529). */
  function RemoveFrom(ps: seq<Product>, id: string, carType: string): seq<Product> {
    var pi := ProductIndex(ps, id);
    if pi < 0 then ps else DropType(ps, pi, carType)
  }

  /** `decrease` (lines 530-579): one less, whatever quantity was passed. None when the matched
      entry is a string, where line 553 assigns to a `const` and throws. */
  function DecreaseIn(ps: seq<Product>, id: string, carType: string): Option<seq<Product>> {
    var pi := ProductIndex(ps, id);
    if pi < 0 then Some(ps)
    else
      var cts := ps[pi].carTypes;
      var ci := TypeIndex(cts, carType);
      if ci < 0 then Some(ps)
      else if cts[ci].Str? then None
      else
        var q := OrOne(cts[ci].quantity) - 1;
        var nq := if q < 0 then 0 else q;
        if nq == 0 then Some(DropType(ps, pi, carType))
        else Some(ps[pi := ps[pi].(carTypes := cts[ci := cts[ci].(quantity := nq)])])
  }

  /** Line 635: `product_details[productIndex].product_name = productName`, which throws when the
      index is past the end. */
  function RenameAt(ps: seq<Product>, i: nat, name: string): Option<seq<Product>> {
    if i < |ps| then Some(ps[i := ps[i].(name := name)]) else None
  }

  /** `setQuantity` (lines 580-645). The name refresh at line 635 uses the index found before the
      product may have been spliced out at line 618. */
  function SetIn(ps: seq<Product>, id: string, name: string, carType: string, q: int): Option<seq<Product>> {
    var pi := ProductIndex(ps, id);
    if pi < 0 then Some(if q > 0 then ps + [NewProduct(id, name, carType, q)] else ps)
    else
      var cts := ps[pi].carTypes;
      var ci := TypeIndex(cts, carType);
      var ps1 :=
        if ci >= 0 then
          var ps0 := if cts[ci].Str? then ps[pi := ps[pi].(carTypes := cts[ci := Obj(Named(carType), 1)])] else ps;
          if q <= 0 then DropType(ps0, pi, carType)
          else ps0[pi := ps0[pi].(carTypes := ps0[pi].carTypes[ci := ps0[pi].carTypes[ci].(quantity := q)])]
        else if q > 0 then ps[pi := ps[pi].(carTypes := cts + [Obj(Named(carType), q)])]
        else ps;
      RenameAt(ps1, pi, name)
  }

  /** One action on a loaded product list; None when the code throws. Unknown actions (including
      the display's `minus`) change nothing. */
  function Step(ps: seq<Product>, id: string, name: string, carType: string, action: Action, q: int): Option<seq<Product>> {
    match action
    case Add => Some(AddTo(ps, id, name, carType, q))
    case Increase => Some(AddTo(ps, id, name, carType, q))
    case Remove => Some(RemoveFrom(ps, id, carType))
    case Decrease => DecreaseIn(ps, id, carType)
    case SetQuantity => SetIn(ps, id, name, carType, q)
    case _ => Some(ps)
  }

  /** The whole call: load, then one action. */
  function Apply(cartCookie: string, newCartId: string, cookie: Cookie,
                 id: string, name: string, carType: string, action: Action, q: int): Outcome {
    var l := Load(cartCookie, newCartId, cookie);
    match Step(l.products, id, name, carType, action, q)
    case Some(ps) => Saved(Ledger(l.cartId, ps))
    case None => Threw
  }

  /** The `forEach` at lines 432-437, in place on the parsed list. */
  method MigrateInPlace(parsed: seq<Product>) returns (products: seq<Product>)
    ensures products == MigrateAll(parsed)
  {
    products := parsed;
    var i := 0;
    while i < |products|
      invariant 0 <= i <= |products| == |parsed|
      invariant forall j :: 0 <= j < i ==> products[j] == MigrateProduct(parsed[j])
      invariant forall j :: i <= j < |products| ==> products[j] == parsed[j]
    {
      var cts := products[i].carTypes;
      if |cts| > 0 && cts[0].Str? {
        products := products[i := products[i].(carTypes := seq(|cts|, k requires 0 <= k < |cts| => Migrated(cts[k])))];
      }
      i := i + 1;
    }
  }

  /** Lines 452-507, statement by statement. */
  method AddInPlace(ps: seq<Product>, productId: string, productName: string, carType: string, quantity: int)
    returns (products: seq<Product>)
    ensures products == AddTo(ps, productId, productName, carType, quantity)
  {
    products := ps;
    var pi := ProductIndex(products, productId);
    if pi == -1 {
      products := products + [NewProduct(productId, productName, carType, quantity)];
    } else {
      var carTypes := products[pi].carTypes;
      if |carTypes| > 0 && carTypes[0].Str? {
        products := products[pi := products[pi].(carTypes := MigrateList(carTypes))];
      }
      var cts := products[pi].carTypes;
      var ci := TypeIndex(cts, carType);
      if ci == -1 {
        products := products[pi := products[pi].(carTypes := cts + [Obj(Named(carType), quantity)])];
      } else if cts[ci].Str? {
        products := products[pi := products[pi].(carTypes := cts[ci := Obj(Named(carType), quantity)])];
      } else {
        var newQuantity := OrOne(cts[ci].quantity) + quantity;
        products := products[pi := products[pi].(carTypes := cts[ci := cts[ci].(quantity := newQuantity)])];
      }
      products := products[pi := products[pi].(name := productName)];
    }
  }

  /** The filter-then-splice at lines 519-528 (564-573, 610-619). */
  method DropTypeInPlace(ps: seq<Product>, pi: nat, carType: string) returns (products: seq<Product>)
    requires pi < |ps|
    ensures products == DropType(ps, pi, carType)
  {
    products := ps[pi := ps[pi].(carTypes := FilterOut(ps[pi].carTypes, carType))];
    if |products[pi].carTypes| == 0 {
      products := products[..pi] + products[pi + 1..];
    }
  }

  /** Lines 530-579; `threw` when line 553 assigns to the `const`. */
  method DecreaseInPlace(ps: seq<Product>, productId: string, carType: string)
    returns (products: seq<Product>, threw: bool)
    ensures threw <==> DecreaseIn(ps, productId, carType).None?
    ensures !threw ==> DecreaseIn(ps, productId, carType) == Some(products)
  {
    products, threw := ps, false;
    var pi := ProductIndex(products, productId);
    if pi != -1 {
      var cts := products[pi].carTypes;
      var ci := TypeIndex(cts, carType);
      if ci != -1 {
        if cts[ci].Str? {
          threw := true;
          return;
        }
        var currentQuantity := OrOne(cts[ci].quantity);
        var newQuantity := if currentQuantity - 1 < 0 then 0 else currentQuantity - 1;
        if newQuantity == 0 {
          products := DropTypeInPlace(products, pi, carType);
        } else {
          products := products[pi := products[pi].(carTypes := cts[ci := cts[ci].(quantity := newQuantity)])];
        }
      }
    }
  }

  /** Lines 580-645; `threw` when line 635 writes through an index past the end. */
  method SetInPlace(ps: seq<Product>, productId: string, productName: string, carType: string, quantity: int)
    returns (products: seq<Product>, threw: bool)
    ensures threw <==> SetIn(ps, productId, productName, carType, quantity).None?
    ensures !threw ==> SetIn(ps, productId, productName, carType, quantity) == Some(products)
  {
    products, threw := ps, false;
    var pi := ProductIndex(products, productId);
    if pi != -1 {
      var ci := TypeIndex(products[pi].carTypes, carType);
      if ci != -1 {
        if products[pi].carTypes[ci].Str? {
          products := products[pi := products[pi].(carTypes := products[pi].carTypes[ci := Obj(Named(carType), 1)])];
        }
        if quantity <= 0 {
          products := DropTypeInPlace(products, pi, carType);
        } else {
          var cts := products[pi].carTypes;
          products := products[pi := products[pi].(carTypes := cts[ci := cts[ci].(quantity := quantity)])];
        }
      } else if quantity > 0 {
        products := products[pi := products[pi].(carTypes := products[pi].carTypes + [Obj(Named(carType), quantity)])];
      }
      if pi >= |products| {
        threw := true;
        return;
      }
      products := products[pi := products[pi].(name := productName)];
    } else if quantity > 0 {
      products := products + [NewProduct(productId, productName, carType, quantity)];
    }
  }

  /** `updateCarTypeCookies(productId, carType, action, quantity)` with the cookies, the product
      name and the fallback cart id passed in. */
  method UpdateCarTypeCookies(cartCookie: string, newCartId: string, cookie: Cookie,
                              productId: string, productName: string, carType: string,
                              action: Action, quantity: int) returns (outcome: Outcome)
    ensures outcome == Apply(cartCookie, newCartId, cookie, productId, productName, carType, action, quantity)
  {
    var cartId := cartCookie;
    var cartDetailsCookie := cookie;
    if cartId == "" {
      cartId := newCartId;
      cartDetailsCookie := Persisted(Ledger(cartId, []));
    }

    var products: seq<Product> := [];
    if cartDetailsCookie.Json? {
      products := MigrateInPlace(cartDetailsCookie.value.products.GetOr([]));
    }
    assert Load(cartCookie, newCartId, cookie) == Ledger(cartId, products);

    var threw := false;
    if action == Add || action == Increase {
      products := AddInPlace(products, productId, productName, carType, quantity);
    } else if action == Remove {
      var pi := ProductIndex(products, productId);
      if pi != -1 {
        products := DropTypeInPlace(products, pi, carType);
      }
    } else if action == Decrease {
      products, threw := DecreaseInPlace(products, productId, carType);
    } else if action == SetQuantity {
      products, threw := SetInPlace(products, productId, productName, carType, quantity);
    }

    if threw {
      outcome := Threw;
    } else {
      outcome := Saved(Ledger(cartId, products));
    }
  }

  /** One call of `updateCarTypeCookies` as a value. */
  datatype Call = Call(id: string, name: string, carType: string, action: Action, quantity: int)

  /** Successive calls in one session with cart id `cartId`, each reading the cookie the previous
      call left: a saved ledger, or the unchanged cookie when the call threw. */
  function Replay(cartId: string, cookie: Cookie, calls: seq<Call>): Cookie
    decreases |calls|
  {
    if |calls| == 0 then cookie
    else
      var c := calls[0];
      var next :=
        match Apply(cartId, cartId, cookie, c.id, c.name, c.carType, c.action, c.quantity)
        case Saved(l) => Persisted(l)
        case Threw => cookie;
      Replay(cartId, next, calls[1..])
  }
}
