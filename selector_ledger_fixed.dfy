/**
 * The selector's ledger as its comments say it is meant to behave, where the code does not:
 *   - every legacy string entry is converted when the cookie is loaded (the comment at line 431
 *     of assets/car-type-selector.js), not only lists whose first element is a string;
 *   - `decrease` treats a string entry as quantity 1, as `setQuantity` does with its `let`,
 *     instead of assigning to a `const`;
 *   - `setQuantity` refreshes the product name only when the product entry is still there.
 * Everything else is SelectorLedger's. The lemmas prove what the as-written code fails to keep.
 */
module SelectorLedgerFixed {
  import opened Wrappers
  import opened CartDetails
  import opened LedgerFacts
  import opened SelectorLedger
  import opened SelectorLedgerProperties

  /** Every legacy string becomes `{type, quantity: 1}`: no string is left, and every entry keeps
      the type it stands for and the quantity it counts for. */
  function MigrateEach(cts: seq<CarType>): (r: seq<CarType>)
    ensures |r| == |cts|
    ensures forall k :: 0 <= k < |r| ==> r[k].Obj?
    ensures forall k :: 0 <= k < |r| ==> KeyOf(r[k]) == KeyOf(cts[k]) && EntryQuantity(r[k]) == EntryQuantity(cts[k])
  {
    seq(|cts|, k requires 0 <= k < |cts| => if cts[k].Str? then Obj(Named(cts[k].s), 1) else cts[k])
  }

  function MigrateEachProduct(ps: seq<Product>): (r: seq<Product>)
    ensures |r| == |ps|
  {
    seq(|ps|, i requires 0 <= i < |ps| => ps[i].(carTypes := MigrateEach(ps[i].carTypes)))
  }

  /** Load with the corrected migration. */
  function LoadFixed(cartCookie: string, newCartId: string, cookie: Cookie): Ledger {
    var id := CartId(cartCookie, newCartId);
    if cartCookie == "" then Ledger(id, [])
    else
      match cookie
      case Json(st) => Ledger(id, MigrateEachProduct(st.products.GetOr([])))
      case _ => Ledger(id, [])
  }

  /** The corrected migration changes no recorded quantity. */
  lemma LoadFixedKeepsQuantities(ps: seq<Product>, id: string, t: string)
    ensures QuantityOf(MigrateEachProduct(ps), id, t) == QuantityOf(ps, id, t)
  {
    var r := MigrateEachProduct(ps);
    SameIdsSameIndex(r, ps, id);
    var pi := ProductIndex(ps, id);
    if pi >= 0 {
      var a, b := r[pi].carTypes, ps[pi].carTypes;
      SameKindsSameIndex(a, b, t);
    }
  }

  /** `decrease` with the string entry converted through a `let` binding. */
  function DecreaseFixed(ps: seq<Product>, id: string, carType: string): seq<Product> {
    var pi := ProductIndex(ps, id);
    if pi < 0 then ps
    else
      var cts := ps[pi].carTypes;
      var ci := TypeIndex(cts, carType);
      if ci < 0 then ps
      else
        var item := if cts[ci].Str? then Obj(Named(carType), 1) else cts[ci];
        var ps0 := ps[pi := ps[pi].(carTypes := cts[ci := item])];
        var q := OrOne(item.quantity) - 1;
        var nq := if q < 0 then 0 else q;
        if nq == 0 then DropType(ps0, pi, carType)
        else ps0[pi := ps0[pi].(carTypes := ps0[pi].carTypes[ci := item.(quantity := nq)])]
  }

  /** Wherever the as-written `decrease` does not throw, the corrected one does the same. */
  lemma DecreaseFixedAgrees(ps: seq<Product>, id: string, carType: string)
    requires DecreaseIn(ps, id, carType).Some?
    ensures DecreaseFixed(ps, id, carType) == DecreaseIn(ps, id, carType).value
  {
    var pi := ProductIndex(ps, id);
    if pi >= 0 {
      var cts := ps[pi].carTypes;
      var ci := TypeIndex(cts, carType);
      if ci >= 0 {
        assert cts[ci := cts[ci]] == cts;
        assert ps[pi := ps[pi].(carTypes := cts)] == ps;
      }
    }
  }

  /** Replacing an entry of a type by another of that type does not change the filtered list. */
  lemma {:induction false} FilterReplaceMatching(cts: seq<CarType>, k: nat, c: CarType, carType: string)
    requires k < |cts| && Matches(cts[k], carType) && Matches(c, carType)
    ensures FilterOut(cts[k := c], carType) == FilterOut(cts, carType)
    decreases |cts|
  {
    var d := cts[k := c];
    FilterHead(d, carType);
    FilterHead(cts, carType);
    if k > 0 {
      assert d[0] == cts[0];
      assert d[1..] == cts[1..][k - 1 := c];
      FilterReplaceMatching(cts[1..], k - 1, c, carType);
    } else {
      assert d[1..] == cts[1..];
    }
  }

  /** On a legacy string entry the corrected `decrease` takes its one unit: the type goes, and with
      it the product when that was its last type, exactly as `remove` does. */
  lemma DecreaseFixedOnLegacyString(ps: seq<Product>, id: string, carType: string)
    requires FindProduct(ps, id).Some?
    requires EntryFor(FindProduct(ps, id).value.carTypes, carType).Some?
    requires EntryFor(FindProduct(ps, id).value.carTypes, carType).value.Str?
    ensures DecreaseFixed(ps, id, carType) == RemoveFrom(ps, id, carType)
  {
    var pi := ProductIndex(ps, id);
    var cts := ps[pi].carTypes;
    var ci := TypeIndex(cts, carType);
    FilterReplaceMatching(cts, ci, Obj(Named(carType), 1), carType);
    DropTypeReplaced(ps, pi, carType, cts[ci := Obj(Named(carType), 1)]);
  }

  /** Dropping a type from a product whose list was changed only in entries of that type. */
  lemma DropTypeReplaced(ps: seq<Product>, pi: nat, carType: string, cts: seq<CarType>)
    requires pi < |ps| && FilterOut(cts, carType) == FilterOut(ps[pi].carTypes, carType)
    ensures DropType(ps[pi := ps[pi].(carTypes := cts)], pi, carType) == DropType(ps, pi, carType)
  {
    var ps0 := ps[pi := ps[pi].(carTypes := cts)];
    assert ps0[..pi] == ps[..pi] && ps0[pi + 1..] == ps[pi + 1..];
  }

  /** `setQuantity` with the name written only to a product entry that is still there. */
  function SetFixed(ps: seq<Product>, id: string, name: string, carType: string, q: int): seq<Product> {
    var pi := ProductIndex(ps, id);
    if pi < 0 then (if q > 0 then ps + [NewProduct(id, name, carType, q)] else ps)
    else
      var cts := ps[pi].carTypes;
      var ci := TypeIndex(cts, carType);
      var ps1 :=
        if ci >= 0 then
          var ps0 := if cts[ci].Str? then ps[pi := ps[pi].(carTypes := cts[ci := Obj(Named(carType), 1)])] else ps;
          if q <= 0 then DropType(ps0, pi, carType)
          else ps0[pi := ps0[pi].(carTypes := ps0[pi].carTypes[ci := ps0[pi].carTypes[ci].(quantity := q)])]
        else if q > 0 then ps[pi := ps[pi].(carTypes := cts + [Obj(Named(carType), q)])]
        else ps;
      if |ps1| == |ps| then ps1[pi := ps1[pi].(name := name)] else ps1
  }

  /** For a positive quantity the correction changes nothing. */
  lemma SetFixedAgrees(ps: seq<Product>, id: string, name: string, carType: string, q: int)
    requires q >= 1
    ensures SetIn(ps, id, name, carType, q) == Some(SetFixed(ps, id, name, carType, q))
  {
  }

  /** The corrected `setQuantity` to `q <= 0` never throws, removes the type (and the product with
      its last type), and changes nothing else, names included. */
  lemma SetFixedNonPositiveEffect(ps: seq<Product>, id: string, name: string, carType: string, q: int)
    requires WellFormed(ps) && q <= 0
    ensures var r := SetFixed(ps, id, name, carType, q);
      && WellFormed(r)
      && QuantityOf(r, id, carType) == 0
      && OnlyTouches(ps, r, id, carType)
      && (FindProduct(r, id).Some? ==> FindProduct(r, id).value.name == name)
      && (FindProduct(ps, id).None? ==> r == ps)
      && InPlace(ps, r, ProductIndex(ps, id))
  {
    var pi := ProductIndex(ps, id);
    if pi >= 0 {
      var p := ps[pi];
      assert p in ps;
      GoodEntries(p.carTypes);
      var ci := TypeIndex(p.carTypes, carType);
      var ps1 := if ci >= 0 then DropType(ps, pi, carType) else ps;
      if ci >= 0 {
        DropTypeEffect(ps, pi, carType);
      } else {
        assert FindProduct(ps, id) == Some(p);
      }
      if |ps1| == |ps| {
        assert ps1[pi].id == id;
        RenameEffect(ps1, pi, name);
        assert ps1[pi] in ps1;
        UpdateProduct(ps1, pi, ps1[pi].(name := name));
        ReplacedAt(ps1, pi, ps1[pi].(name := name));
        if ci >= 0 {
          assert ChangedOnlyAt(ps, ps1, pi);
        } else {
          assert ps1 == ps;
          ReplacedAt(ps, pi, ps[pi]);
        }
        ChangedTwiceAt(ps, ps1, ps1[pi := ps1[pi].(name := name)], pi);
      }
    }
  }

  /** One action with the corrections. */
  function StepFixed(ps: seq<Product>, id: string, name: string, carType: string, action: Action, q: int): seq<Product> {
    match action
    case Add => AddTo(ps, id, name, carType, q)
    case Increase => AddTo(ps, id, name, carType, q)
    case Remove => RemoveFrom(ps, id, carType)
    case Decrease => DecreaseFixed(ps, id, carType)
    case SetQuantity => SetFixed(ps, id, name, carType, q)
    case _ => ps
  }

  /** The calls that keep the ledger well formed once corrected: `setQuantity` may now take any
      quantity; a positive one still needs a named type. */
  predicate KeepsShapeFixed(action: Action, carType: string, q: int) {
    && ((action == Add || action == Increase) ==> carType != "" && q >= 1)
    && (action == SetQuantity && q > 0 ==> carType != "")
  }

  lemma StepFixedWellFormed(ps: seq<Product>, id: string, name: string, carType: string, action: Action, q: int)
    requires WellFormed(ps) && KeepsShapeFixed(action, carType, q)
    ensures WellFormed(StepFixed(ps, id, name, carType, action, q))
  {
    match action
    case Add => AddEffect(ps, id, name, carType, q);
    case Increase => AddEffect(ps, id, name, carType, q);
    case Remove => RemoveEffect(ps, id, carType);
    case Decrease =>
      DecreaseEffect(ps, id, carType);
      DecreaseFixedAgrees(ps, id, carType);
    case SetQuantity =>
      if q > 0 {
        SetPositiveEffect(ps, id, name, carType, q);
        SetFixedAgrees(ps, id, name, carType, q);
      } else {
        SetFixedNonPositiveEffect(ps, id, name, carType, q);
      }
    case _ =>
  }

  /** One corrected call: load, then one action; it always saves. */
  function ApplyFixed(cartCookie: string, newCartId: string, cookie: Cookie,
                      id: string, name: string, carType: string, action: Action, q: int): Ledger {
    var l := LoadFixed(cartCookie, newCartId, cookie);
    Ledger(l.cartId, StepFixed(l.products, id, name, carType, action, q))
  }

  /** Successive corrected calls in one session. */
  function ReplayFixed(cartId: string, cookie: Cookie, calls: seq<Call>): Cookie
    decreases |calls|
  {
    if |calls| == 0 then cookie
    else
      var c := calls[0];
      ReplayFixed(cartId, Persisted(ApplyFixed(cartId, cartId, cookie, c.id, c.name, c.carType, c.action, c.quantity)), calls[1..])
  }

  /** A well-formed stored list loads unchanged under the corrected migration. */
  lemma LoadFixedWellFormed(cartCookie: string, newCartId: string, cookie: Cookie)
    requires StoredWellFormed(cookie)
    ensures var l := LoadFixed(cartCookie, newCartId, cookie);
      && l.cartId == CartId(cartCookie, newCartId)
      && WellFormed(l.products)
  {
    if cartCookie != "" && cookie.Json? && cookie.value.products.Some? {
      var ps := cookie.value.products.value;
      forall i | 0 <= i < |ps| ensures MigrateEachProduct(ps)[i] == ps[i] {
        assert ps[i] in ps;
        GoodEntries(ps[i].carTypes);
        assert MigrateEach(ps[i].carTypes) == ps[i].carTypes;
      }
      assert MigrateEachProduct(ps) == ps;
    }
  }

  /** Any sequence of corrected calls, with `setQuantity` at any quantity, leaves a well-formed
      cookie. */
  lemma {:induction false} ReplayFixedWellFormed(cartId: string, cookie: Cookie, calls: seq<Call>)
    requires StoredWellFormed(cookie)
    requires forall k :: 0 <= k < |calls| ==> KeepsShapeFixed(calls[k].action, calls[k].carType, calls[k].quantity)
    ensures StoredWellFormed(ReplayFixed(cartId, cookie, calls))
    decreases |calls|
  {
    if |calls| > 0 {
      var c := calls[0];
      LoadFixedWellFormed(cartId, cartId, cookie);
      StepFixedWellFormed(LoadFixed(cartId, cartId, cookie).products, c.id, c.name, c.carType, c.action, c.quantity);
      assert forall k :: 0 <= k < |calls[1..]| ==> calls[1..][k] == calls[k + 1];
      ReplayFixedWellFormed(cartId, Persisted(ApplyFixed(cartId, cartId, cookie, c.id, c.name, c.carType, c.action, c.quantity)), calls[1..]);
    }
  }
}
