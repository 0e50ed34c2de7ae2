/**
 * The value kept in the `cart_details` cookie:
 *   {cart_id, product_details: [{product_id, product_name, car_types: [{type, quantity}]}]}
 * as the storefront scripts read it back with JSON.parse, including the legacy shape in which a
 * car type is a bare string. Every module of the model shares these types and lookups.
 */
module CartDetails {
  import opened Wrappers

  /** The `type` field of a car-type object: a string, or an object. An object lands there when the
      selector's migration maps a whole list whose first element is a string (the other elements
      being objects); `===` on two such objects is identity, so a Nested value never equals
      anything else. A missing `type` is represented as Named(""). */
  datatype TypeField = Named(name: string) | Nested(inner: CarType)

  /** One element of a product's `car_types`: the legacy bare string, or `{type, quantity}`
      (`type` is spelt `kind` here, `type` being a Dafny keyword). A quantity of 0 stands for
      every falsy quantity: 0, a missing field, null. */
  datatype CarType = Str(s: string) | Obj(kind: TypeField, quantity: int)

  /** `{product_id, product_name, car_types}`; an empty name stands for a missing one. */
  datatype Product = Product(id: string, name: string, carTypes: seq<CarType>)

  /** The parsed cookie as found. `products` is None when product_details is missing or falsy (a
      truthy value that is not an array is not modelled); `cartId` is None when cart_id is missing. */
  datatype Stored = Stored(cartId: Option<string>, products: Option<seq<Product>>)

  /** What a script obtains from the cookie: nothing (getCookie gave null or ''), text that
      JSON.parse rejects, or a parsed value. */
  datatype Cookie = Absent | Corrupt(raw: string) | Json(value: Stored)

  /** The ledger once loaded into memory. */
  datatype Ledger = Ledger(cartId: string, products: seq<Product>)

  /** The `action` strings the scripts pass around; Other is any string none of them tests for. */
  datatype Action = Add | Increase | Remove | Decrease | SetQuantity | Minus | Other

  /** What reading the cookie back gives after a script saved `l` with JSON.stringify. */
  function Persisted(l: Ledger): (c: Cookie)
    ensures c.Json? && c.value.cartId == Some(l.cartId) && c.value.products == Some(l.products)
  {
    Json(Stored(Some(l.cartId), Some(l.products)))
  }

  /** `q || 1` on an integer quantity. */
  function OrOne(q: int): (r: int)
    ensures r != 0
    ensures q != 0 ==> r == q
  {
    if q == 0 then 1 else q
  }

  /** The `type` an entry stands for: a bare string is its own type. */
  function KeyOf(c: CarType): TypeField {
    match c
    case Str(s) => Named(s)
    case Obj(k, _) => k
  }

  /** `typeof item === 'string' ? item === carType : item.type === carType` */
  predicate Matches(c: CarType, carType: string) {
    match c
    case Str(s) => s == carType
    case Obj(k, _) => k == Named(carType)
  }

  /** The quantity an entry stands for: a bare string counts once, an object `quantity || 1` times. */
  function EntryQuantity(c: CarType): int {
    match c
    case Str(_) => 1
    case Obj(_, q) => OrOne(q)
  }

  /** `product_details.findIndex(item => item.product_id == productId)` */
  function ProductIndex(ps: seq<Product>, id: string): (r: int)
    ensures -1 <= r < |ps|
    ensures r >= 0 ==> ps[r].id == id && forall j :: 0 <= j < r ==> ps[j].id != id
    ensures r < 0 <==> forall j :: 0 <= j < |ps| ==> ps[j].id != id
    decreases |ps|
  {
    if |ps| == 0 then -1
    else if ps[0].id == id then 0
    else
      var r := ProductIndex(ps[1..], id);
      assert forall j :: 1 <= j < |ps| ==> ps[1..][j - 1] == ps[j];
      if r < 0 then -1 else r + 1
  }

  /** `car_types.findIndex(...)` with the Matches test. */
  function TypeIndex(cts: seq<CarType>, carType: string): (r: int)
    ensures -1 <= r < |cts|
    ensures r >= 0 ==> Matches(cts[r], carType) && forall j :: 0 <= j < r ==> !Matches(cts[j], carType)
    ensures r < 0 <==> forall j :: 0 <= j < |cts| ==> !Matches(cts[j], carType)
    decreases |cts|
  {
    if |cts| == 0 then -1
    else if Matches(cts[0], carType) then 0
    else
      var r := TypeIndex(cts[1..], carType);
      assert forall j :: 1 <= j < |cts| ==> cts[1..][j - 1] == cts[j];
      if r < 0 then -1 else r + 1
  }

  predicate DistinctIds(ps: seq<Product>) {
    forall i, j :: 0 <= i < j < |ps| ==> ps[i].id != ps[j].id
  }

  predicate DistinctKinds(cts: seq<CarType>) {
    forall i, j :: 0 <= i < j < |cts| ==> KeyOf(cts[i]) != KeyOf(cts[j])
  }

  /** `product_details.find(...)`: the first product with that id. */
  function FindProduct(ps: seq<Product>, id: string): (r: Option<Product>)
    ensures r.Some? ==> r.value in ps && r.value.id == id
    ensures r.None? <==> forall p :: p in ps ==> p.id != id
    ensures DistinctIds(ps) ==> forall p :: p in ps && p.id == id ==> r == Some(p)
  {
    var i := ProductIndex(ps, id);
    if i < 0 then None else Some(ps[i])
  }

  /** The first entry of a list that matches a type. */
  function EntryFor(cts: seq<CarType>, carType: string): (r: Option<CarType>)
    ensures r.Some? ==> r.value in cts && Matches(r.value, carType)
    ensures r.None? <==> forall c :: c in cts ==> !Matches(c, carType)
    ensures DistinctKinds(cts) ==> forall c :: c in cts && Matches(c, carType) ==> r == Some(c)
  {
    var k := TypeIndex(cts, carType);
    if k < 0 then None else Some(cts[k])
  }

  /** How many of a car type the ledger records for a product: 0 when the product or the type is
      absent, else the quantity of the first matching entry. */
  function QuantityOf(ps: seq<Product>, id: string, carType: string): int {
    match FindProduct(ps, id)
    case None => 0
    case Some(p) => QuantityIn(p.carTypes, carType)
  }

  /** How many of a car type one product's list records: the first matching entry's quantity. */
  function QuantityIn(cts: seq<CarType>, carType: string): int {
    match EntryFor(cts, carType)
    case None => 0
    case Some(c) => EntryQuantity(c)
  }

  /** An entry as the ledger's invariants want it: an object with a non-empty string type and a
      quantity of at least 1. */
  predicate EntryOk(c: CarType) {
    c.Obj? && c.kind.Named? && c.kind.name != "" && c.quantity >= 1
  }

  /** A product entry as the ledger's invariants want it: a non-empty list of good entries. */
  predicate ProductOk(p: Product) {
    |p.carTypes| > 0 && EntriesOk(p.carTypes)
  }

  /** Good entries, at most one per type. */
  predicate EntriesOk(cts: seq<CarType>) {
    (forall c :: c in cts ==> EntryOk(c)) && DistinctKinds(cts)
  }

  /** The ledger invariants: unique product ids, and every product entry well formed. */
  predicate WellFormed(ps: seq<Product>) {
    && (forall p :: p in ps ==> ProductOk(p))
    && DistinctIds(ps)
  }

  /** A stored cookie whose product list, if it has one, satisfies the invariants. */
  predicate StoredWellFormed(cookie: Cookie) {
    cookie.Json? && cookie.value.products.Some? ==> WellFormed(cookie.value.products.value)
  }
}
