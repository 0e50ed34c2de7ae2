/**
 * The host-cart arithmetic of `updateServerCartQuantity` (assets/cart-type-display.js:586-615)
 * zeroes the host cart line on `minus` when `getCarTypesForProduct` reports at most one car type.
 * That list is read after the fallback has saved its ledger, so one remaining type, still
 * selected, already triggers the removal from the host cart; the comment at lines 599-600 asks
 * for the removal when the last car type is gone. HostUpdateFixed tests for none left.
 */
module CartTypeDisplayFixed {
  import opened Wrappers
  import opened CartDetails
  import opened CartTypeDisplay
  import opened CartTypeDisplayProperties

  /** As written, for every call: `minus` zeroes the line exactly when at most one type is left. */
  lemma HostMinusAsWritten(current: int, q: int, remaining: nat)
    ensures HostUpdate(Minus, Some(current), q, remaining) == Some(0) <==> current != 0 && remaining <= 1
  {
    if remaining > 1 {
      assert AtLeastOne(current - 1) >= 1;
    }
  }

  /** As written: one click on minus for a product holding three Sedans leaves two Sedans in the
      ledger and removes the product from the host cart. */
  lemma MinusZeroesHostWithTypeLeft()
    ensures var cookie := Json(Stored(Some("c1"), Some([Product("P1", "One", [Obj(Named("Sedan"), 3)])])));
      var l := FallbackApply(Some("c1"), cookie, "P1", "Sedan", Minus, 1);
      && l.products == [Product("P1", "One", [Obj(Named("Sedan"), 2)])]
      && QuantityOf(l.products, "P1", "Sedan") == 2
      && HostUpdate(Minus, Some(3), 1, RemainingTypes(l.products, "P1")) == Some(0)
  {
    var ps := [Product("P1", "One", [Obj(Named("Sedan"), 3)])];
    assert WithProduct(ps, "P1") == ps;
    assert NormalizeCarTypes(ps[0].carTypes) == ps[0].carTypes;
    assert ps[0].carTypes[0 := Obj(Named("Sedan"), 2)] == [Obj(Named("Sedan"), 2)];
    assert ps[0 := Product("P1", "One", [Obj(Named("Sedan"), 2)])] == [Product("P1", "One", [Obj(Named("Sedan"), 2)])];
  }

  /** `newQuantity` with the test the comment describes: zero only when no car type is left. */
  function HostQuantityFixed(action: Action, current: int, quantity: int, remaining: nat): int {
    match action
    case Add => current + 1
    case Increase => current + 1
    case Decrease => AtLeastOne(current - 1)
    case Minus => if remaining == 0 then 0 else AtLeastOne(current - 1)
    case Remove => current - quantity
    case _ => current
  }

  function HostUpdateFixed(action: Action, current: Option<int>, quantity: int, remaining: nat): (r: Option<int>)
    ensures r.Some? ==> current.Some? && r.value != current.value
  {
    if current.None? then None
    else
      var nq := HostQuantityFixed(action, current.value, quantity, remaining);
      if nq != current.value then Some(nq) else None
  }

  /** The two agree on every action but `minus`, and on `minus` whenever two or more types, or
      none, are left. */
  lemma HostFixedAgrees(action: Action, current: Option<int>, quantity: int, remaining: nat)
    requires !action.Minus? || remaining != 1
    ensures HostUpdateFixed(action, current, quantity, remaining) == HostUpdate(action, current, quantity, remaining)
  {
  }

  /** Corrected: after a `minus` on a consistent ledger, the host line is zeroed exactly when the
      ledger records no car type for the product any more. */
  lemma HostFixedZeroesOnlyEmpty(ps: seq<Product>, id: string, carType: string, q: int, current: int)
    requires Consistent(ps)
    ensures var r := FallbackStep(ps, id, carType, Minus, q);
      (HostUpdateFixed(Minus, Some(current), q, RemainingTypes(r, id)) == Some(0)
       <==> current != 0 && forall t :: QuantityOf(r, id, t) == 0)
  {
    var r := FallbackStep(ps, id, carType, Minus, q);
    FallbackMinusEffect(ps, id, carType, q);
    FallbackKeepsProducts(ps, id, carType, Minus, q);
    var p := FindProduct(r, id).value;
    assert p in r;
    assert RemainingTypes(r, id) == |p.carTypes|;
    HostFixedMinus(current, q, |p.carTypes|);
    if |p.carTypes| > 0 {
      FirstTypeCounted(r, id, p);
    } else {
      NoTypeCounted(r, id, p);
    }
  }

  /** The corrected host quantity on `minus`: zero exactly when no type is left. */
  lemma HostFixedMinus(current: int, q: int, remaining: nat)
    ensures HostUpdateFixed(Minus, Some(current), q, remaining) == Some(0) <==> current != 0 && remaining == 0
  {
    assert AtLeastOne(current - 1) >= 1;
  }

  /** A product entry without types records no type. */
  lemma NoTypeCounted(r: seq<Product>, id: string, p: Product)
    requires FindProduct(r, id) == Some(p) && |p.carTypes| == 0
    ensures forall t :: QuantityOf(r, id, t) == 0
  {
    forall t ensures QuantityOf(r, id, t) == 0 {
      assert EntryFor(p.carTypes, t).None?;
    }
  }

  /** A product entry with good entries records its first type. */
  lemma FirstTypeCounted(r: seq<Product>, id: string, p: Product)
    requires FindProduct(r, id) == Some(p) && EntriesOk(p.carTypes) && |p.carTypes| > 0
    ensures p.carTypes[0].Obj? && p.carTypes[0].kind.Named?
    ensures QuantityOf(r, id, p.carTypes[0].kind.name) != 0
  {
    var c := p.carTypes[0];
    assert c in p.carTypes;
    assert EntryOk(c);
    var e := EntryFor(p.carTypes, c.kind.name);
    assert e.Some?;
    assert e.value in p.carTypes;
  }
}
