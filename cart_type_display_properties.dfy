/**
 * What the cart widget's fallback ledger update, host-cart arithmetic and list view promise.
 *
 * The fallback keeps a weaker invariant than the selector's WellFormed: ids are unique and every
 * entry is good with at most one per type, but a product's list may be empty, because `minus`
 * and `remove` never delete the product entry and every action on an unknown product adds one
 * with an empty list.
 */
module CartTypeDisplayProperties {
  import opened Wrappers
  import opened CartDetails
  import opened LedgerFacts
  import opened Entries
  import opened CartTypeDisplay
  import SelectorLedger
  import SelectorLedgerProperties

  /** The fallback's invariant: WellFormed without "no empty list". */
  predicate Consistent(ps: seq<Product>) {
    DistinctIds(ps) && forall p :: p in ps ==> EntriesOk(p.carTypes)
  }

  /** The list the ledger holds for a product, empty when the product is not listed: what the
      fallback acts on, since it first adds an unknown product with no types. */
  function ListOf(ps: seq<Product>, id: string): seq<CarType> {
    match FindProduct(ps, id)
    case None => []
    case Some(p) => p.carTypes
  }

  /** Where lowering a type by `q` leaves a good list: unchanged when no entry matches; otherwise
      that entry spliced out when its quantity falls to 0 or below, else lowered in place. */
  predicate LoweredBy(before: seq<CarType>, after: seq<CarType>, carType: string, q: int) {
    var k := TypeIndex(before, carType);
    if k < 0 then after == before
    else if EntryQuantity(before[k]) - q <= 0 then after == before[..k] + before[k + 1..]
    else after == before[k := Obj(KeyOf(before[k]), EntryQuantity(before[k]) - q)]
  }

  /** Normalising twice is normalising once, except for a bare empty string, which first becomes
      `{type: "", quantity: 1}` and on the next pass "[object Object]". */
  lemma NormalizeIdempotent(cts: seq<CarType>)
    requires forall i :: 0 <= i < |cts| ==> cts[i] != Str("")
    ensures NormalizeCarTypes(NormalizeCarTypes(cts)) == NormalizeCarTypes(cts)
    ensures NormalizeCarType(NormalizeCarType(Str(""))) != NormalizeCarType(Str(""))
  {
    var n := NormalizeCarTypes(cts);
    forall i | 0 <= i < |n| ensures NormalizeCarType(n[i]) == n[i] {
      assert cts[i] != Str("");
    }
  }

  // ---------------------------------------------------------------------------------------------
  // One product's list

  /** On a good list, the widget's increment is the selector's `add`. */
  lemma IncrementIsAdd(cts: seq<CarType>, carType: string, q: int)
    requires EntriesOk(cts)
    ensures QuantityUpdate(cts, carType, q, true) == SelectorLedger.AddToList(cts, carType, q)
  {
    assert NormalizeCarTypes(cts) == cts;
    var k := TypeIndex(cts, carType);
    if k >= 0 {
      assert cts[k] in cts;
    }
  }

  /** The list `handleQuantityUpdate` leaves when incrementing a good list: a new entry at the end
      or the type's own entry raised, in place. */
  lemma IncrementList(cts: seq<CarType>, carType: string, q: int)
    requires EntriesOk(cts) && carType != "" && q >= 1
    ensures var r := QuantityUpdate(cts, carType, q, true);
      && EntriesOk(r) && |r| > 0
      && QuantityIn(r, carType) == QuantityIn(cts, carType) + q
      && (forall t :: t != carType ==> QuantityIn(r, t) == QuantityIn(cts, t))
      && TypePlaced(cts, r, carType, q)
  {
    IncrementIsAdd(cts, carType, q);
    SelectorLedgerProperties.AddToListEffect(cts, carType, q);
  }

  /** The list `handleQuantityUpdate` leaves when decrementing a good list by `q`: an absent type
      changes nothing, and the type's entry is spliced out or lowered in place. */
  lemma DecrementList(cts: seq<CarType>, carType: string, q: int)
    requires EntriesOk(cts)
    ensures var r := QuantityUpdate(cts, carType, q, false); var before := QuantityIn(cts, carType);
      && EntriesOk(r)
      && QuantityIn(r, carType) == (if before == 0 || before - q <= 0 then 0 else before - q)
      && (forall t :: t != carType ==> QuantityIn(r, t) == QuantityIn(cts, t))
      && LoweredBy(cts, r, carType, q)
  {
    assert NormalizeCarTypes(cts) == cts;
    var k := TypeIndex(cts, carType);
    if k >= 0 {
      assert cts[k] in cts;
      var nq := cts[k].quantity - q;
      assert EntryFor(cts, carType) == Some(cts[k]);
      assert QuantityIn(cts, carType) == cts[k].quantity;
      if nq <= 0 {
        assert QuantityUpdate(cts, carType, q, false) == cts[..k] + cts[k + 1..];
        DecrementDrops(cts, carType, k);
      } else {
        assert QuantityUpdate(cts, carType, q, false) == cts[k := cts[k].(quantity := nq)];
        DecrementKeeps(cts, carType, k, nq);
      }
    } else {
      assert QuantityUpdate(cts, carType, q, false) == cts;
    }
  }

  /** Decrementing touches the first matching entry of the normalised list only: the entries
      before it stay, and every later one, later entries of the same type included, stays in
      order, so a repeated type is still listed after its first entry goes. */
  lemma DecrementFirstMatchOnly(cts: seq<CarType>, carType: string, q: int)
    ensures var n := NormalizeCarTypes(cts); var k := TypeIndex(n, carType);
      var r := QuantityUpdate(cts, carType, q, false);
      && (k < 0 ==> r == n)
      && (k >= 0 && n[k].quantity - q <= 0 ==> SplicedFirstMatch(n, r, k, carType))
      && (k >= 0 && n[k].quantity - q > 0 ==>
            EntryChangedAt(n, r, k, carType) && r[k].Obj? && r[k].quantity == n[k].quantity - q)
  {
    var n := NormalizeCarTypes(cts);
    var k := TypeIndex(n, carType);
    if k >= 0 && n[k].quantity - q <= 0 {
      assert QuantityUpdate(cts, carType, q, false) == n[..k] + n[k + 1..];
      SpliceFirstMatch(n, k, carType);
    } else if k >= 0 {
      EntryReplacedAt(n, k, n[k].(quantity := n[k].quantity - q), carType);
    }
  }

  /** `after` is `before` without its entry at `k`, the first to match `carType`: the entries
      before it stay, every later one moves up by one, and the type is still listed exactly when
      a later entry matches it too. */
  predicate SplicedFirstMatch(before: seq<CarType>, after: seq<CarType>, k: int, carType: string) {
    && 0 <= k < |before| && |after| == |before| - 1
    && (forall j :: 0 <= j < k ==> after[j] == before[j])
    && (forall j :: k < j < |before| ==> after[j - 1] == before[j])
    && (TypeIndex(after, carType) >= 0 <==> exists j :: k < j < |before| && Matches(before[j], carType))
  }

  lemma SpliceFirstMatch(n: seq<CarType>, k: int, carType: string)
    requires 0 <= k && k == TypeIndex(n, carType)
    ensures SplicedFirstMatch(n, n[..k] + n[k + 1..], k, carType)
  {
    var r := n[..k] + n[k + 1..];
    assert forall j :: 0 <= j < k ==> r[j] == n[j];
    assert forall j :: k < j < |n| ==> r[j - 1] == n[j];
    if TypeIndex(r, carType) >= 0 {
      var i := TypeIndex(r, carType);
      assert i >= k;
      assert Matches(n[i + 1], carType);
    } else {
      forall j | k < j < |n| ensures !Matches(n[j], carType) {
        assert r[j - 1] == n[j];
      }
    }
  }

  /** With two entries of one type, `minus` of 1 splices out the first and leaves the second: the
      type is still listed, with the second entry's quantity. */
  lemma RepeatedTypeMinus()
    ensures var r := QuantityUpdate([Obj(Named("Sedan"), 1), Obj(Named("Sedan"), 2)], "Sedan", 1, false);
      r == [Obj(Named("Sedan"), 2)] && QuantityIn(r, "Sedan") == 2
  {
    var cts := [Obj(Named("Sedan"), 1), Obj(Named("Sedan"), 2)];
    assert NormalizeCarTypes(cts) == cts;
    assert TypeIndex(cts, "Sedan") == 0;
    DecrementFirstMatchOnly(cts, "Sedan", 1);
    assert QuantityUpdate(cts, "Sedan", 1, false) == cts[1..];
  }

  /** Decrementing a type to zero or below takes its entry out. */
  lemma DecrementDrops(cts: seq<CarType>, carType: string, k: nat)
    requires EntriesOk(cts) && k == TypeIndex(cts, carType)
    ensures var r := cts[..k] + cts[k + 1..];
      && EntriesOk(r) && QuantityIn(r, carType) == 0
      && forall t :: t != carType ==> QuantityIn(r, t) == QuantityIn(cts, t)
  {
    RemoveEntry(cts, k);
    assert cts[k] in cts;
    forall t | t != carType ensures !Matches(cts[k], t) {
      MatchesKey(cts[k], t);
      MatchesKey(cts[k], carType);
    }
  }

  /** Decrementing a type to a positive `nq` leaves it at `nq`. */
  lemma DecrementKeeps(cts: seq<CarType>, carType: string, k: nat, nq: int)
    requires EntriesOk(cts) && k == TypeIndex(cts, carType) && nq >= 1
    ensures cts[k].Obj?
    ensures var r := cts[k := cts[k].(quantity := nq)];
      && EntriesOk(r) && QuantityIn(r, carType) == nq
      && forall t :: t != carType ==> QuantityIn(r, t) == QuantityIn(cts, t)
  {
    assert cts[k] in cts;
    var c := cts[k].(quantity := nq);
    UpdateEntry(cts, k, c);
    assert forall x :: x in cts[k := c] ==> x == c || x in cts;
    assert Matches(c, carType);
    assert EntryFor(cts[k := c], carType) == Some(c);
  }

  // ---------------------------------------------------------------------------------------------
  // The product list

  /** Replacing the list of the product `id` by a good list that differs only for `carType`. */
  lemma ReplaceList(ps: seq<Product>, id: string, carType: string, cts: seq<CarType>)
    requires Consistent(ps) && ProductIndex(ps, id) >= 0 && EntriesOk(cts)
    requires forall t :: t != carType ==> QuantityIn(cts, t) == QuantityIn(ps[ProductIndex(ps, id)].carTypes, t)
    ensures var pi := ProductIndex(ps, id); var r := ps[pi := ps[pi].(carTypes := cts)];
      && Consistent(r)
      && OnlyTouches(ps, r, id, carType)
      && QuantityOf(r, id, carType) == QuantityIn(cts, carType)
      && (WellFormed(ps) && |cts| > 0 ==> WellFormed(r))
  {
    var pi := ProductIndex(ps, id);
    var p := ps[pi].(carTypes := cts);
    UpdateProduct(ps, pi, p);
    var r := ps[pi := p];
    assert FindProduct(ps, id) == Some(ps[pi]);
    assert FindProduct(r, id) == Some(p);
    assert forall x :: x in r ==> x == p || x in ps by {
      forall x | x in r ensures x == p || x in ps {
        var j :| 0 <= j < |r| && r[j] == x;
        if j != pi { assert x == ps[j]; }
      }
    }
  }

  /** Adding the empty entry for an unknown product changes no lookup. */
  lemma WithProductEffect(ps: seq<Product>, id: string)
    requires Consistent(ps)
    ensures var r := WithProduct(ps, id);
      && Consistent(r)
      && (forall id' :: id' != id ==> FindProduct(r, id') == FindProduct(ps, id'))
      && (forall t :: QuantityOf(r, id, t) == QuantityOf(ps, id, t))
      && (FindProduct(ps, id).None? ==> ProductIndex(r, id) == |ps| && r == ps + [Product(id, "", [])])
  {
    if FindProduct(ps, id).None? {
      var p := Product(id, "", []);
      AppendProduct(ps, p);
      AppendedLast(ps, p);
      assert forall x :: x in ps + [p] ==> x == p || x in ps;
      forall t ensures QuantityOf(ps + [p], id, t) == 0 {
        assert FindProduct(ps + [p], id) == Some(p);
      }
    }
  }

  lemma OnlyTouchesThrough(a: seq<Product>, b: seq<Product>, c: seq<Product>, id: string, carType: string)
    requires forall id' :: id' != id ==> FindProduct(b, id') == FindProduct(a, id')
    requires forall t :: QuantityOf(b, id, t) == QuantityOf(a, id, t)
    requires OnlyTouches(b, c, id, carType)
    ensures OnlyTouches(a, c, id, carType)
  {
  }

  /** `add` on a consistent ledger: the type gains exactly `q`, nothing else changes, and a
      well-formed ledger stays well formed. */
  lemma FallbackAddEffect(ps: seq<Product>, id: string, carType: string, q: int)
    requires Consistent(ps) && carType != "" && q >= 1
    ensures var r := FallbackStep(ps, id, carType, Add, q);
      && Consistent(r)
      && QuantityOf(r, id, carType) == QuantityOf(ps, id, carType) + q
      && OnlyTouches(ps, r, id, carType)
      && (WellFormed(ps) ==> WellFormed(r))
      && FindProduct(r, id).Some? && TypePlaced(ListOf(ps, id), ListOf(r, id), carType, q)
  {
    var ps1 := WithProduct(ps, id);
    WithProductEffect(ps, id);
    var pi := ProductIndex(ps1, id);
    assert FindProduct(ps1, id) == Some(ps1[pi]);
    assert ps1[pi] in ps1;
    IncrementList(ps1[pi].carTypes, carType, q);
    var cts := QuantityUpdate(ps1[pi].carTypes, carType, q, true);
    ReplaceList(ps1, id, carType, cts);
    var r := ps1[pi := ps1[pi].(carTypes := cts)];
    UpdateStepAt(ps, id, carType, Add, q, ps1, pi, cts);
    ListAt(ps, id, ps1, pi, cts);
    assert QuantityOf(r, id, carType) == QuantityOf(ps, id, carType) + q;
    OnlyTouchesThrough(ps, ps1, r, id, carType);
    if WellFormed(ps) && FindProduct(ps, id).None? {
      assert forall x :: x in r ==> x == r[pi] || x in ps by {
        forall x | x in r ensures x == r[pi] || x in ps {
          var j :| 0 <= j < |r| && r[j] == x;
          if j != pi { assert x == ps[j]; }
        }
      }
    }
  }

  /** `minus` on a consistent ledger: the type loses `q`, its entry is spliced out at 0 or below,
      nothing else changes, and the product entry stays even when its list empties. */
  lemma FallbackMinusEffect(ps: seq<Product>, id: string, carType: string, q: int)
    requires Consistent(ps)
    ensures var r := FallbackStep(ps, id, carType, Minus, q); var before := QuantityOf(ps, id, carType);
      && Consistent(r)
      && QuantityOf(r, id, carType) == (if before == 0 || before - q <= 0 then 0 else before - q)
      && OnlyTouches(ps, r, id, carType)
      && FindProduct(r, id).Some? && LoweredBy(ListOf(ps, id), ListOf(r, id), carType, q)
  {
    var ps1 := WithProduct(ps, id);
    WithProductEffect(ps, id);
    var pi := ProductIndex(ps1, id);
    var cts := QuantityUpdate(ps1[pi].carTypes, carType, q, false);
    UpdateStepAt(ps, id, carType, Minus, q, ps1, pi, cts);
    ListAt(ps, id, ps1, pi, cts);
    assert FindProduct(ps1, id) == Some(ps1[pi]);
    assert ps1[pi] in ps1;
    DecrementList(ps1[pi].carTypes, carType, q);
    ReplaceList(ps1, id, carType, cts);
    var r := ps1[pi := ps1[pi].(carTypes := cts)];
    var before := QuantityOf(ps, id, carType);
    assert before == QuantityIn(ps1[pi].carTypes, carType) by {
      assert QuantityOf(ps1, id, carType) == QuantityIn(ps1[pi].carTypes, carType);
    }
    assert QuantityOf(r, id, carType) == QuantityIn(cts, carType);
    OnlyTouchesThrough(ps, ps1, r, id, carType);
    assert Consistent(r);
  }

  /** The list the fallback acts on is the one of the entry `WithProduct` leaves at `pi`, and
      replacing that list is what the ledger then lists for the product. */
  lemma ListAt(ps: seq<Product>, id: string, ps1: seq<Product>, pi: int, c: seq<CarType>)
    requires ps1 == WithProduct(ps, id) && pi == ProductIndex(ps1, id)
    ensures ListOf(ps, id) == ps1[pi].carTypes
    ensures var r := ps1[pi := ps1[pi].(carTypes := c)]; FindProduct(r, id).Some? && ListOf(r, id) == c
  {
    var r := ps1[pi := ps1[pi].(carTypes := c)];
    SameIdsSameIndex(r, ps1, id);
    if FindProduct(ps, id).None? {
      AppendedLast(ps, Product(id, "", []));
    }
  }

  /** `add` and `minus` update the list of the product entry `WithProduct` leaves at `pi`. */
  lemma UpdateStepAt(ps: seq<Product>, id: string, carType: string, action: Action, q: int,
                     ps1: seq<Product>, pi: int, c: seq<CarType>)
    requires action.Add? || action.Minus?
    requires ps1 == WithProduct(ps, id) && pi == ProductIndex(ps1, id)
    requires c == QuantityUpdate(ps1[pi].carTypes, carType, q, action.Add?)
    ensures FallbackStep(ps, id, carType, action, q) == ps1[pi := ps1[pi].(carTypes := c)]
  {
  }

  /** `remove` on a consistent ledger: the type is gone, nothing else changes. */
  lemma FallbackRemoveEffect(ps: seq<Product>, id: string, carType: string, q: int)
    requires Consistent(ps)
    ensures var r := FallbackStep(ps, id, carType, Remove, q);
      && Consistent(r)
      && QuantityOf(r, id, carType) == 0
      && OnlyTouches(ps, r, id, carType)
      && FindProduct(r, id).Some?
      && (var before := ListOf(ps, id); var k := TypeIndex(before, carType);
          ListOf(r, id) == if k < 0 then before else before[..k] + before[k + 1..])
  {
    var ps1 := WithProduct(ps, id);
    WithProductEffect(ps, id);
    var pi := ProductIndex(ps1, id);
    assert FindProduct(ps1, id) == Some(ps1[pi]);
    assert ps1[pi] in ps1;
    var cts := ps1[pi].carTypes;
    assert NormalizeCarTypes(cts) == cts;
    var k := TypeIndex(cts, carType);
    var r := FallbackStep(ps, id, carType, Remove, q);
    if k >= 0 {
      assert cts[k] in cts;
      assert EntryFor(cts, carType) == Some(cts[k]);
      assert QuantityIn(cts, carType) == cts[k].quantity;
      DecrementList(cts, carType, cts[k].quantity);
      var c := QuantityUpdate(cts, carType, cts[k].quantity, false);
      assert QuantityIn(c, carType) == 0;
      RemoveStepFound(ps, id, carType, q, ps1, pi, k, c);
      ListAt(ps, id, ps1, pi, c);
      ReplaceList(ps1, id, carType, c);
      assert QuantityOf(r, id, carType) == 0;
      OnlyTouchesThrough(ps, ps1, r, id, carType);
    } else {
      assert QuantityIn(cts, carType) == 0;
      RemoveStepMissing(ps, id, carType, q, ps1, pi);
      ListAt(ps, id, ps1, pi, cts);
      assert ps1[pi := ps1[pi].(carTypes := cts)] == ps1;
      assert r == ps1;
    }
  }

  /** `remove` of a listed type: the list of the product is the lowered one. */
  lemma RemoveStepFound(ps: seq<Product>, id: string, carType: string, q: int,
                        ps1: seq<Product>, pi: int, k: int, c: seq<CarType>)
    requires ps1 == WithProduct(ps, id) && pi == ProductIndex(ps1, id)
    requires NormalizeCarTypes(ps1[pi].carTypes) == ps1[pi].carTypes
    requires k == TypeIndex(ps1[pi].carTypes, carType) && k >= 0
    requires c == QuantityUpdate(ps1[pi].carTypes, carType, ps1[pi].carTypes[k].quantity, false)
    ensures FallbackStep(ps, id, carType, Remove, q) == ps1[pi := ps1[pi].(carTypes := c)]
  {
  }

  /** `remove` of a type that is not listed: only the product entry is added. */
  lemma RemoveStepMissing(ps: seq<Product>, id: string, carType: string, q: int, ps1: seq<Product>, pi: int)
    requires ps1 == WithProduct(ps, id) && pi == ProductIndex(ps1, id)
    requires NormalizeCarTypes(ps1[pi].carTypes) == ps1[pi].carTypes
    requires TypeIndex(ps1[pi].carTypes, carType) < 0
    ensures FallbackStep(ps, id, carType, Remove, q) == ps1
  {
  }

  /** Whatever the ledger and the action: no product entry disappears or moves, ids and names stay,
      the product acted on is present afterwards (appended last, without a name, when it was
      unknown), and an action none of the branches tests for only adds that entry. */
  lemma FallbackKeepsProducts(ps: seq<Product>, id: string, carType: string, action: Action, q: int)
    ensures var r := FallbackStep(ps, id, carType, action, q);
      && |r| == |ps| + (if FindProduct(ps, id).None? then 1 else 0)
      && (forall j :: 0 <= j < |ps| ==> r[j].id == ps[j].id && r[j].name == ps[j].name)
      && FindProduct(r, id).Some?
      && (FindProduct(ps, id).None? ==>
            r[|ps|] == Product(id, "", if action.Add? then [Obj(Named(carType), q)] else []))
      && (!(action.Add? || action.Minus? || action.Remove?) ==> r == WithProduct(ps, id))
  {
    var ps1 := WithProduct(ps, id);
    var pi := ProductIndex(ps1, id);
    var r := FallbackStep(ps, id, carType, action, q);
    if FindProduct(ps, id).None? {
      AppendedLast(ps, Product(id, "", []));
      assert ps1[pi].carTypes == [];
      assert NormalizeCarTypes([]) == [];
    }
    assert |r| == |ps1| && forall j :: 0 <= j < |ps1| ==> r[j].id == ps1[j].id && r[j].name == ps1[j].name;
    assert r[pi].id == id;
  }

  /** The product `getProductDataForProduct` looks for is found right after the fallback saved its
      ledger, as long as the session's cart cookie has not changed in between. */
  lemma FallbackThenProductData(cartCookie: Option<string>, cookie: Cookie,
                                id: string, carType: string, action: Action, q: int)
    ensures ProductDataFor(cartCookie, Persisted(FallbackApply(cartCookie, cookie, id, carType, action, q)), id).Some?
  {
    var ps := FallbackStep(FallbackLoad(cookie), id, carType, action, q);
    FallbackKeepsProducts(FallbackLoad(cookie), id, carType, action, q);
    var p := FindProduct(ps, id).value;
    assert p in ps && p.id == id;
  }

  // ---------------------------------------------------------------------------------------------
  // The list view

  /** Each row of the list is one type, shown with the sum of its normalised quantities, `|| 1`;
      plus is never disabled (the input has no `max`) and minus is disabled exactly at 1 or less. */
  lemma DisplayedRows(cts: seq<CarType>, n: string)
    ensures var es := NormalizedEntries(cts); var rows := RowsOf(Grouped(es));
      && (forall a, b :: 0 <= a < b < |rows| ==> !SameType(rows[a].carType, rows[b].carType))
      && (forall i :: 0 <= i < |rows| ==> !rows[i].buttons.plusDisabled && (rows[i].buttons.minusDisabled <==> rows[i].shown <= 1))
      && (IsRepeat(es, Named(n)) <==> exists i :: 0 <= i < |rows| && rows[i].carType == Named(n))
      && (forall i :: 0 <= i < |rows| && rows[i].carType == Named(n) ==> rows[i].shown == OrOne(TypeSum(es, n)))
  {
    var es := NormalizedEntries(cts);
    GroupedSums(es, n);
    GroupRows(es, Grouped(es), n);
  }

  /** The rows of a grouping `gs` of `es` that repeats no type and sums each string type. */
  lemma GroupRows(es: seq<Entry>, gs: seq<Entry>, n: string)
    requires DistinctTypes(gs)
    requires IsRepeat(es, Named(n)) <==> IsRepeat(gs, Named(n))
    requires IsRepeat(es, Named(n)) ==>
      var g := GroupIndex(gs, Named(n)); gs[g].kind == Named(n) && gs[g].quantity == TypeSum(es, n)
    ensures var rows := RowsOf(gs);
      && (forall a, b :: 0 <= a < b < |rows| ==> !SameType(rows[a].carType, rows[b].carType))
      && (forall i :: 0 <= i < |rows| ==> !rows[i].buttons.plusDisabled && (rows[i].buttons.minusDisabled <==> rows[i].shown <= 1))
      && (IsRepeat(es, Named(n)) <==> exists i :: 0 <= i < |rows| && rows[i].carType == Named(n))
      && (forall i :: 0 <= i < |rows| && rows[i].carType == Named(n) ==> rows[i].shown == OrOne(TypeSum(es, n)))
  {
    var rows := RowsOf(gs);
    assert forall i :: 0 <= i < |rows| ==> rows[i] == RowOf(gs[i]);
    forall i | 0 <= i < |rows|
      ensures !rows[i].buttons.plusDisabled && (rows[i].buttons.minusDisabled <==> rows[i].shown <= 1)
    {
      RowButtons(gs[i]);
    }
    if IsRepeat(es, Named(n)) {
      var g := GroupIndex(gs, Named(n));
      assert rows[g].carType == Named(n);
    }
    if exists i :: 0 <= i < |rows| && rows[i].carType == Named(n) {
      var i :| 0 <= i < |rows| && rows[i].carType == Named(n);
      assert SameType(gs[i].kind, Named(n));
    }
    forall i | 0 <= i < |rows| && rows[i].carType == Named(n) ensures rows[i].shown == OrOne(TypeSum(es, n)) {
      assert SameType(gs[i].kind, Named(n));
      assert IsRepeat(gs, Named(n));
      GroupIndexOfDistinct(gs, Named(n), i);
    }
  }

  /** A row's plus button is never disabled; its minus button is disabled at 1 or less. */
  lemma RowButtons(g: Entry)
    ensures !RowOf(g).buttons.plusDisabled && (RowOf(g).buttons.minusDisabled <==> RowOf(g).shown <= 1)
  {
  }

  /** A good list normalises to itself and groups to itself. */
  lemma GoodListGroups(cts: seq<CarType>)
    requires EntriesOk(cts)
    ensures var es := NormalizedEntries(cts);
      && Grouped(es) == es
      && forall i :: 0 <= i < |cts| ==> es[i] == Entry(KeyOf(cts[i]), EntryQuantity(cts[i]))
  {
    var es := NormalizedEntries(cts);
    assert forall i :: 0 <= i < |cts| ==> cts[i] in cts;
    assert forall i :: 0 <= i < |cts| ==> es[i] == Entry(KeyOf(cts[i]), EntryQuantity(cts[i]));
    assert DistinctTypes(es) by {
      forall a, b | 0 <= a < b < |es| ensures !SameType(es[a].kind, es[b].kind) {
        assert KeyOf(cts[a]) != KeyOf(cts[b]);
      }
    }
    GroupedOfDistinct(es);
  }

  /** For a well-formed ledger the widget lists every stored entry of the product, in order, with
      its stored quantity. */
  lemma DisplayOfWellFormed(productId: string, cartCookie: Option<string>, st: Stored, p: Product)
    requires productId != "" && cartCookie.GetOr("") != ""
    requires st.products.Some? && WellFormed(st.products.value)
    requires p in st.products.value && p.id == productId
    ensures var v := DisplayOf(productId, cartCookie, Json(st));
      && v.Rows? && |v.rows| == |p.carTypes|
      && forall i :: 0 <= i < |p.carTypes| ==>
           v.rows[i] == Row(KeyOf(p.carTypes[i]), EntryQuantity(p.carTypes[i]), Buttons(EntryQuantity(p.carTypes[i]) <= 1, false))
  {
    assert FindProduct(st.products.value, productId) == Some(p);
    assert ProductOk(p);
    GoodListGroups(p.carTypes);
  }

  /** The two ledger updates part ways on the same stored ledger: the widget's `minus` takes the
      quantity passed where the selector's `decrease` takes one, and the widget's `remove` keeps
      the emptied product entry where the selector's drops it. */
  lemma FallbackDiffersFromSelector()
    ensures var ps := [Product("P1", "One", [Obj(Named("Sedan"), 3)])];
      && FallbackStep(ps, "P1", "Sedan", Minus, 2) == [Product("P1", "One", [Obj(Named("Sedan"), 1)])]
      && SelectorLedger.Step(ps, "P1", "One", "Sedan", Decrease, 2) == Some([Product("P1", "One", [Obj(Named("Sedan"), 2)])])
      && FallbackStep(ps, "P1", "Sedan", Remove, 1) == [Product("P1", "One", [])]
      && SelectorLedger.Step(ps, "P1", "One", "Sedan", Remove, 1) == Some([])
  {
    var ps := [Product("P1", "One", [Obj(Named("Sedan"), 3)])];
    var cts := ps[0].carTypes;
    assert WithProduct(ps, "P1") == ps;
    assert NormalizeCarTypes(cts) == cts;
    assert cts[0 := Obj(Named("Sedan"), 1)] == [Obj(Named("Sedan"), 1)];
    assert ps[0 := Product("P1", "One", [Obj(Named("Sedan"), 1)])] == [Product("P1", "One", [Obj(Named("Sedan"), 1)])];
    assert cts[..0] + cts[1..] == [];
    assert ps[0 := ps[0].(carTypes := [])] == [Product("P1", "One", [])];
    assert cts[0 := Obj(Named("Sedan"), 2)] == [Obj(Named("Sedan"), 2)];
    assert ps[0 := Product("P1", "One", [Obj(Named("Sedan"), 2)])] == [Product("P1", "One", [Obj(Named("Sedan"), 2)])];
    assert SelectorLedger.FilterOut(cts, "Sedan") == [];
    assert ps[..0] + ps[1..] == [];
  }
}
