/**
 * What the selector's ledger operations (module SelectorLedger) do to a well-formed ledger: the
 * quantity each action leaves for the product and type it names, that nothing else changes, and
 * that the invariants of CartDetails.WellFormed survive, call after call.
 */
module SelectorLedgerProperties {
  import opened Wrappers
  import opened CartDetails
  import opened LedgerFacts
  import opened SelectorLedger

  /** The entries of a good list are objects; the migration leaves such a list alone. */
  lemma GoodEntries(cts: seq<CarType>)
    requires EntriesOk(cts)
    ensures forall k :: 0 <= k < |cts| ==> EntryOk(cts[k])
    ensures MigrateList(cts) == cts
  {
    forall k | 0 <= k < |cts| ensures EntryOk(cts[k]) {
      assert cts[k] in cts;
    }
  }

  /** Loading a well-formed cookie: the session's cart id, the stored list unchanged, or the empty
      list for a fresh session or a missing or unreadable cookie. */
  lemma LoadWellFormed(cartCookie: string, newCartId: string, cookie: Cookie)
    requires StoredWellFormed(cookie)
    ensures var l := Load(cartCookie, newCartId, cookie);
      && l.cartId == CartId(cartCookie, newCartId)
      && WellFormed(l.products)
      && (if cartCookie != "" && cookie.Json? && cookie.value.products.Some?
          then l.products == cookie.value.products.value
          else l.products == [])
  {
    if cartCookie != "" && cookie.Json? && cookie.value.products.Some? {
      var ps := cookie.value.products.value;
      forall i | 0 <= i < |ps| ensures MigrateAll(ps)[i] == ps[i] {
        assert ps[i] in ps;
        GoodEntries(ps[i].carTypes);
      }
    }
  }

  /** After the migration no list starts with a legacy string; ids, names and lengths are kept, and
      a list that does not start with a string is left exactly as it was. */
  lemma MigrationEffect(ps: seq<Product>)
    ensures var r := MigrateAll(ps);
      forall i :: 0 <= i < |ps| ==>
        && r[i].id == ps[i].id && r[i].name == ps[i].name
        && |r[i].carTypes| == |ps[i].carTypes|
        && (|r[i].carTypes| > 0 ==> r[i].carTypes[0].Obj?)
        && (|ps[i].carTypes| == 0 || ps[i].carTypes[0].Obj? ==> r[i] == ps[i])
  {
  }

  /** The lookups of a product whose car-type list is replaced. */
  lemma ReplaceEntries(ps: seq<Product>, pi: nat, name: string, cts: seq<CarType>)
    requires WellFormed(ps) && pi < |ps|
    requires ProductOk(Product(ps[pi].id, name, cts))
    ensures var r := ps[pi := Product(ps[pi].id, name, cts)];
      && WellFormed(r)
      && FindProduct(ps, ps[pi].id) == Some(ps[pi])
      && FindProduct(r, ps[pi].id) == Some(Product(ps[pi].id, name, cts))
      && (forall id' :: id' != ps[pi].id ==> FindProduct(r, id') == FindProduct(ps, id'))
      && (forall t :: QuantityOf(r, ps[pi].id, t) == QuantityIn(cts, t))
      && (forall t :: QuantityOf(ps, ps[pi].id, t) == QuantityIn(ps[pi].carTypes, t))
  {
    assert ps[pi] in ps;
    UpdateProduct(ps, pi, Product(ps[pi].id, name, cts));
  }

  /** Adding `q >= 1` of a type to a good list (lines 485-502): the type gains `q`, in a new entry
      at the end or in its own entry, and no other entry changes. */
  lemma AddToListEffect(cts: seq<CarType>, carType: string, q: int)
    requires EntriesOk(cts) && carType != "" && q >= 1
    ensures var r := AddToList(cts, carType, q);
      && |r| > 0 && EntriesOk(r)
      && QuantityIn(r, carType) == QuantityIn(cts, carType) + q
      && (forall t :: t != carType ==> QuantityIn(r, t) == QuantityIn(cts, t))
      && TypePlaced(cts, r, carType, q)
  {
    var ci := TypeIndex(cts, carType);
    if ci < 0 {
      AddNewType(cts, carType, q);
    } else {
      AddExistingType(cts, carType, q, ci);
      assert cts[ci] in cts;
      EntryReplacedAt(cts, ci, cts[ci].(quantity := cts[ci].quantity + q), carType);
    }
  }

  lemma AddNewType(cts: seq<CarType>, carType: string, q: int)
    requires EntriesOk(cts) && carType != "" && q >= 1 && TypeIndex(cts, carType) < 0
    ensures var r := AddToList(cts, carType, q);
      && |r| > 0 && EntriesOk(r)
      && QuantityIn(r, carType) == QuantityIn(cts, carType) + q
      && forall t :: t != carType ==> QuantityIn(r, t) == QuantityIn(cts, t)
  {
    GoodEntries(cts);
    var c := Obj(Named(carType), q);
    assert forall x :: x in cts ==> KeyOf(x) != KeyOf(c) by {
      forall x | x in cts ensures KeyOf(x) != KeyOf(c) {
        var j :| 0 <= j < |cts| && cts[j] == x;
        assert !Matches(cts[j], carType);
      }
    }
    AppendEntry(cts, c);
    assert forall x :: x in cts + [c] ==> x == c || x in cts;
  }

  lemma AddExistingType(cts: seq<CarType>, carType: string, q: int, ci: nat)
    requires EntriesOk(cts) && q >= 1 && ci == TypeIndex(cts, carType)
    ensures var r := AddToList(cts, carType, q);
      && |r| > 0 && EntriesOk(r)
      && QuantityIn(r, carType) == QuantityIn(cts, carType) + q
      && forall t :: t != carType ==> QuantityIn(r, t) == QuantityIn(cts, t)
  {
    assert cts[ci] in cts;
    var c := cts[ci].(quantity := cts[ci].quantity + q);
    assert EntryOk(cts[ci]) && Matches(cts[ci], carType) && Matches(c, carType);
    assert AddToList(cts, carType, q) == cts[ci := c];
    UpdateEntry(cts, ci, c);
    assert EntryFor(cts, carType) == Some(cts[ci]);
    assert EntryFor(cts[ci := c], carType) == Some(c);
    assert forall x :: x in cts[ci := c] ==> x == c || x in cts;
  }

  /** Dropping a type from the product at `pi` (lines 519-528): the type's quantity becomes 0, the
      product goes exactly when every entry was of that type, and nothing else changes. */
  lemma DropTypeEffect(ps: seq<Product>, pi: nat, carType: string)
    requires WellFormed(ps) && pi < |ps|
    ensures var r := DropType(ps, pi, carType);
      && WellFormed(r)
      && QuantityOf(r, ps[pi].id, carType) == 0
      && OnlyTouches(ps, r, ps[pi].id, carType)
      && (FindProduct(r, ps[pi].id).None? <==> forall c :: c in ps[pi].carTypes ==> Matches(c, carType))
      && (FindProduct(r, ps[pi].id).Some? ==> FindProduct(r, ps[pi].id).value.name == ps[pi].name)
      && InPlace(ps, r, pi)
  {
    var p := ps[pi];
    assert p in ps;
    var kept := FilterOut(p.carTypes, carType);
    var r := DropType(ps, pi, carType);
    FilterEntries(p.carTypes, carType, kept);
    if |kept| == 0 {
      RemoveProduct(ps, pi);
      assert SplicedAt(ps, r, pi);
      assert forall c :: c in p.carTypes ==> Matches(c, carType);
      forall t | t != carType ensures QuantityOf(r, p.id, t) == QuantityOf(ps, p.id, t) {
        assert FindProduct(ps, p.id) == Some(p);
        assert EntryFor(p.carTypes, t).None?;
      }
    } else {
      assert !forall c :: c in p.carTypes ==> Matches(c, carType) by {
        assert kept[0] in kept;
      }
      ReplaceEntries(ps, pi, p.name, kept);
      assert r == ps[pi := Product(p.id, p.name, kept)];
      assert ChangedOnlyAt(ps, r, pi);
    }
  }

  /** Setting the quantity of an existing entry of a good list to `nq >= 1`. */
  lemma SetEntryQuantity(cts: seq<CarType>, ci: nat, nq: int)
    requires EntriesOk(cts) && ci < |cts| && nq >= 1
    ensures cts[ci].Obj? && cts[ci].kind.Named?
    ensures var r := cts[ci := cts[ci].(quantity := nq)];
      && EntriesOk(r)
      && QuantityIn(r, cts[ci].kind.name) == nq
      && forall t :: t != cts[ci].kind.name ==> QuantityIn(r, t) == QuantityIn(cts, t)
  {
    GoodEntries(cts);
    var c := cts[ci].(quantity := nq);
    UpdateEntry(cts, ci, c);
    assert Matches(c, cts[ci].kind.name);
    assert forall x :: x in cts[ci := c] ==> x == c || x in cts;
  }

  /** A product the ledger does not yet list, appended with one entry. */
  lemma NewProductEffect(ps: seq<Product>, id: string, name: string, carType: string, q: int)
    requires WellFormed(ps) && carType != "" && q >= 1 && FindProduct(ps, id).None?
    ensures var r := ps + [NewProduct(id, name, carType, q)];
      && WellFormed(r)
      && FindProduct(r, id) == Some(NewProduct(id, name, carType, q))
      && QuantityOf(r, id, carType) == QuantityOf(ps, id, carType) + q
      && OnlyTouches(ps, r, id, carType)
  {
    var p := NewProduct(id, name, carType, q);
    assert EntriesOk(p.carTypes);
    AppendProduct(ps, p);
  }

  /** `add`/`increase` of `q >= 1` (lines 452-507): the type's quantity grows by exactly `q`, the
      product's name is refreshed, a new product is appended at the end, nothing else changes. */
  lemma AddEffect(ps: seq<Product>, id: string, name: string, carType: string, q: int)
    requires WellFormed(ps) && carType != "" && q >= 1
    ensures var r := AddTo(ps, id, name, carType, q);
      && WellFormed(r)
      && QuantityOf(r, id, carType) == QuantityOf(ps, id, carType) + q
      && OnlyTouches(ps, r, id, carType)
      && FindProduct(r, id).Some? && FindProduct(r, id).value.name == name
      && (FindProduct(ps, id).None? ==> r == ps + [NewProduct(id, name, carType, q)])
      && (FindProduct(ps, id).Some? ==>
            && |r| == |ps| && ChangedOnlyAt(ps, r, ProductIndex(ps, id))
            && TypePlaced(ps[ProductIndex(ps, id)].carTypes, r[ProductIndex(ps, id)].carTypes, carType, q))
  {
    var pi := ProductIndex(ps, id);
    if pi < 0 {
      NewProductEffect(ps, id, name, carType, q);
    } else {
      var p := ps[pi];
      assert p in ps;
      GoodEntries(p.carTypes);
      AddToListEffect(p.carTypes, carType, q);
      ReplaceEntries(ps, pi, name, AddToList(p.carTypes, carType, q));
    }
  }

  /** `remove` (lines 508-529): the type is gone, the product goes exactly when it had no other
      type, nothing else changes. */
  lemma RemoveEffect(ps: seq<Product>, id: string, carType: string)
    requires WellFormed(ps)
    ensures var r := RemoveFrom(ps, id, carType);
      && WellFormed(r)
      && QuantityOf(r, id, carType) == 0
      && OnlyTouches(ps, r, id, carType)
      && (FindProduct(r, id).None? <==>
            FindProduct(ps, id).None? || forall c :: c in FindProduct(ps, id).value.carTypes ==> Matches(c, carType))
      && (FindProduct(ps, id).None? ==> r == ps)
      && (FindProduct(ps, id).Some? && FindProduct(r, id).Some? ==>
            FindProduct(r, id).value.name == FindProduct(ps, id).value.name)
      && InPlace(ps, r, ProductIndex(ps, id))
  {
    var pi := ProductIndex(ps, id);
    if pi >= 0 {
      assert ps[pi] in ps;
      DropTypeEffect(ps, pi, carType);
    }
  }

  /** `decrease` on a well-formed ledger (lines 530-579): never throws, takes exactly one unit
      whatever quantity was passed, drops the type at zero and the product with its last type, and
      changes nothing else. */
  lemma DecreaseEffect(ps: seq<Product>, id: string, carType: string)
    requires WellFormed(ps)
    ensures DecreaseIn(ps, id, carType).Some?
    ensures var before := QuantityOf(ps, id, carType);
      var r := DecreaseIn(ps, id, carType).value;
      && WellFormed(r)
      && QuantityOf(r, id, carType) == (if before > 0 then before - 1 else 0)
      && OnlyTouches(ps, r, id, carType)
      && (before == 0 ==> r == ps)
      && (FindProduct(r, id).None? <==>
            FindProduct(ps, id).None? || (before == 1 && |FindProduct(ps, id).value.carTypes| == 1))
      && (FindProduct(ps, id).Some? && FindProduct(r, id).Some? ==>
            FindProduct(r, id).value.name == FindProduct(ps, id).value.name)
      && InPlace(ps, r, ProductIndex(ps, id))
  {
    var pi := ProductIndex(ps, id);
    if pi >= 0 {
      var p := ps[pi];
      assert p in ps;
      GoodEntries(p.carTypes);
      var ci := TypeIndex(p.carTypes, carType);
      if ci >= 0 {
        var cts := p.carTypes;
        if cts[ci].quantity == 1 {
          DecreaseInLast(ps, id, carType, pi, ci);
          DecreaseLast(ps, id, carType, pi, ci);
        } else {
          var r := ps[pi := ps[pi].(carTypes := cts[ci := cts[ci].(quantity := cts[ci].quantity - 1)])];
          DecreaseInMore(ps, id, carType, pi, ci, r);
          DecreaseMore(ps, id, carType, pi, ci, r);
        }
      }
    }
  }

  /** `decrease` on the last unit of a good entry: the type goes. */
  lemma DecreaseInLast(ps: seq<Product>, id: string, carType: string, pi: nat, ci: nat)
    requires pi == ProductIndex(ps, id) && ci == TypeIndex(ps[pi].carTypes, carType)
    requires ps[pi].carTypes[ci].Obj? && ps[pi].carTypes[ci].quantity == 1
    ensures DecreaseIn(ps, id, carType) == Some(DropType(ps, pi, carType))
  {
  }

  /** `decrease` on a good entry with more than one unit: one unit goes. */
  lemma DecreaseInMore(ps: seq<Product>, id: string, carType: string, pi: nat, ci: nat, r: seq<Product>)
    requires pi == ProductIndex(ps, id) && ci == TypeIndex(ps[pi].carTypes, carType)
    requires ps[pi].carTypes[ci].Obj? && ps[pi].carTypes[ci].quantity > 1
    requires var cts := ps[pi].carTypes;
      r == ps[pi := ps[pi].(carTypes := cts[ci := cts[ci].(quantity := cts[ci].quantity - 1)])]
    ensures DecreaseIn(ps, id, carType) == Some(r)
  {
  }

  /** Dropping the last unit of a type: the product goes when that was its only type. */
  lemma DecreaseLast(ps: seq<Product>, id: string, carType: string, pi: nat, ci: nat)
    requires WellFormed(ps) && pi == ProductIndex(ps, id) && ci == TypeIndex(ps[pi].carTypes, carType)
    requires ps[pi].carTypes[ci].Obj? && ps[pi].carTypes[ci].quantity == 1
    ensures var r := DropType(ps, pi, carType);
      && QuantityOf(ps, id, carType) == 1
      && WellFormed(r) && QuantityOf(r, id, carType) == 0 && OnlyTouches(ps, r, id, carType)
      && (FindProduct(r, id).None? <==> |ps[pi].carTypes| == 1)
      && (FindProduct(r, id).Some? ==> FindProduct(r, id).value.name == ps[pi].name)
      && InPlace(ps, r, pi)
  {
    var p := ps[pi];
    var cts := p.carTypes;
    assert p in ps;
    assert EntryFor(cts, carType) == Some(cts[ci]);
    DropTypeEffect(ps, pi, carType);
    assert (forall c :: c in cts ==> Matches(c, carType)) <==> |cts| == 1 by {
      if |cts| >= 2 {
        assert cts[0] in cts && cts[1] in cts;
        assert KeyOf(cts[0]) != KeyOf(cts[1]);
      }
      if |cts| == 1 {
        assert forall c :: c in cts ==> c == cts[ci];
      }
    }
  }

  /** Taking one of several units of a type. */
  lemma DecreaseMore(ps: seq<Product>, id: string, carType: string, pi: nat, ci: nat, r: seq<Product>)
    requires WellFormed(ps) && pi == ProductIndex(ps, id) && ci == TypeIndex(ps[pi].carTypes, carType)
    requires ps[pi].carTypes[ci].Obj? && ps[pi].carTypes[ci].quantity > 1
    requires var cts := ps[pi].carTypes;
      r == ps[pi := ps[pi].(carTypes := cts[ci := cts[ci].(quantity := cts[ci].quantity - 1)])]
    ensures QuantityOf(ps, id, carType) == ps[pi].carTypes[ci].quantity
    ensures WellFormed(r) && QuantityOf(r, id, carType) == ps[pi].carTypes[ci].quantity - 1
    ensures OnlyTouches(ps, r, id, carType) && FindProduct(r, id).Some?
    ensures FindProduct(r, id).value.name == ps[pi].name && ChangedOnlyAt(ps, r, pi)
  {
    var p := ps[pi];
    assert p in ps;
    var cts := p.carTypes;
    var c2 := cts[ci := cts[ci].(quantity := cts[ci].quantity - 1)];
    LowerEntry(cts, carType, ci);
    ReplaceTouching(ps, id, carType, pi, c2, r);
  }

  /** One unit off the entry `ci` of a good list, which matches `carType` and holds more than one. */
  lemma LowerEntry(cts: seq<CarType>, carType: string, ci: nat)
    requires EntriesOk(cts) && ci == TypeIndex(cts, carType)
    requires cts[ci].Obj? && cts[ci].quantity > 1
    ensures var c2 := cts[ci := cts[ci].(quantity := cts[ci].quantity - 1)];
      && EntriesOk(c2) && |c2| > 0
      && QuantityIn(cts, carType) == cts[ci].quantity
      && QuantityIn(c2, carType) == cts[ci].quantity - 1
      && forall t :: t != carType ==> QuantityIn(c2, t) == QuantityIn(cts, t)
  {
    assert cts[ci] in cts;
    assert cts[ci].kind.name == carType;
    assert EntryFor(cts, carType) == Some(cts[ci]);
    SetEntryQuantity(cts, ci, cts[ci].quantity - 1);
  }

  /** The list of the product `id` replaced by a good list that differs only for `carType`. */
  lemma ReplaceTouching(ps: seq<Product>, id: string, carType: string, pi: nat, c2: seq<CarType>, r: seq<Product>)
    requires WellFormed(ps) && pi == ProductIndex(ps, id)
    requires EntriesOk(c2) && |c2| > 0 && r == ps[pi := ps[pi].(carTypes := c2)]
    requires forall t :: t != carType ==> QuantityIn(c2, t) == QuantityIn(ps[pi].carTypes, t)
    ensures WellFormed(r) && OnlyTouches(ps, r, id, carType) && FindProduct(r, id).Some?
    ensures QuantityOf(ps, id, carType) == QuantityIn(ps[pi].carTypes, carType)
    ensures QuantityOf(r, id, carType) == QuantityIn(c2, carType)
  {
    var p := ps[pi];
    assert p.id == id;
    ReplaceEntries(ps, pi, p.name, c2);
    assert r == ps[pi := Product(ps[pi].id, p.name, c2)];
  }

  /** `setQuantity` to `q >= 1` (lines 580-645): the type's quantity becomes exactly `q`, the name
      is refreshed, nothing else changes. */
  lemma SetPositiveEffect(ps: seq<Product>, id: string, name: string, carType: string, q: int)
    requires WellFormed(ps) && carType != "" && q >= 1
    ensures SetIn(ps, id, name, carType, q).Some?
    ensures var r := SetIn(ps, id, name, carType, q).value;
      && WellFormed(r)
      && QuantityOf(r, id, carType) == q
      && OnlyTouches(ps, r, id, carType)
      && FindProduct(r, id).Some? && FindProduct(r, id).value.name == name
      && (FindProduct(ps, id).None? ==> r == ps + [NewProduct(id, name, carType, q)])
      && (FindProduct(ps, id).Some? ==>
            && ChangedOnlyAt(ps, r, ProductIndex(ps, id))
            && TypePlaced(ps[ProductIndex(ps, id)].carTypes, r[ProductIndex(ps, id)].carTypes, carType, q))
  {
    var pi := ProductIndex(ps, id);
    if pi < 0 {
      NewProductEffect(ps, id, name, carType, q);
    } else {
      var p := ps[pi];
      assert p in ps;
      GoodEntries(p.carTypes);
      var cts := p.carTypes;
      var ci := TypeIndex(cts, carType);
      if ci >= 0 {
        SetEntryQuantity(cts, ci, q);
        var cts' := cts[ci := cts[ci].(quantity := q)];
        EntryReplacedAt(cts, ci, cts[ci].(quantity := q), carType);
        ReplaceEntries(ps, pi, name, cts');
        ReplacedAt(ps, pi, Product(id, name, cts'));
        assert SetIn(ps, id, name, carType, q).value == ps[pi := Product(id, name, cts')];
      } else {
        AddToListEffect(cts, carType, q);
        ReplaceEntries(ps, pi, name, AddToList(cts, carType, q));
        ReplacedAt(ps, pi, Product(id, name, AddToList(cts, carType, q)));
        assert SetIn(ps, id, name, carType, q).value == ps[pi := Product(id, name, AddToList(cts, carType, q))];
      }
    }
  }

  /** Renaming a product entry changes no quantity and keeps the invariants. */
  lemma RenameEffect(ps: seq<Product>, i: nat, name: string)
    requires i < |ps|
    ensures var r := ps[i := ps[i].(name := name)];
      && (forall id', t :: QuantityOf(r, id', t) == QuantityOf(ps, id', t))
      && (WellFormed(ps) ==> WellFormed(r))
  {
    var r := ps[i := ps[i].(name := name)];
    forall id', t ensures QuantityOf(r, id', t) == QuantityOf(ps, id', t) {
      SameIdsSameIndex(r, ps, id');
    }
    if WellFormed(ps) {
      assert ps[i] in ps;
      UpdateProduct(ps, i, ps[i].(name := name));
    }
  }

  /** `setQuantity` to `q <= 0` as written: it throws exactly when it removes the last type of the
      LAST product entry; otherwise the type is gone, no other quantity changes and the ledger
      stays well formed, though the name write at line 635 may land on the next product. */
  lemma SetNonPositiveEffect(ps: seq<Product>, id: string, name: string, carType: string, q: int)
    requires WellFormed(ps) && q <= 0
    ensures SetIn(ps, id, name, carType, q).None? <==>
              |ps| > 0 && ps[|ps| - 1].id == id && forall c :: c in ps[|ps| - 1].carTypes ==> Matches(c, carType)
    ensures SetIn(ps, id, name, carType, q).Some? ==>
              var r := SetIn(ps, id, name, carType, q).value;
              && WellFormed(r)
              && QuantityOf(r, id, carType) == 0
              && forall id', t :: id' != id || t != carType ==> QuantityOf(r, id', t) == QuantityOf(ps, id', t)
  {
    var pi := ProductIndex(ps, id);
    if pi >= 0 {
      var p := ps[pi];
      assert p in ps;
      GoodEntries(p.carTypes);
      if TypeIndex(p.carTypes, carType) >= 0 {
        SetNonPositiveDrops(ps, pi, name, carType, q);
      } else {
        SetNonPositiveKeeps(ps, pi, name, carType, q);
      }
    } else if |ps| > 0 {
      assert ps[|ps| - 1].id != id;
    }
  }

  /** The case of lines 608-620 where the type is there: drop it, then write the name through the
      index found before the splice. */
  lemma SetNonPositiveDrops(ps: seq<Product>, pi: nat, name: string, carType: string, q: int)
    requires WellFormed(ps) && q <= 0 && pi < |ps|
    requires TypeIndex(ps[pi].carTypes, carType) >= 0
    ensures var id := ps[pi].id;
      && (SetIn(ps, id, name, carType, q).None? <==>
            pi == |ps| - 1 && forall c :: c in ps[pi].carTypes ==> Matches(c, carType))
      && (SetIn(ps, id, name, carType, q).Some? ==>
            var r := SetIn(ps, id, name, carType, q).value;
            && WellFormed(r)
            && QuantityOf(r, id, carType) == 0
            && forall id', t :: id' != id || t != carType ==> QuantityOf(r, id', t) == QuantityOf(ps, id', t))
  {
    var p := ps[pi];
    assert p in ps;
    assert ProductIndex(ps, p.id) == pi;
    GoodEntries(p.carTypes);
    SetDropsAt(ps, pi, name, carType, q);
    DropRename(ps, pi, name, carType);
  }

  /** Dropping a type from the product at `pi`, then writing the name at `pi`. */
  lemma DropRename(ps: seq<Product>, pi: nat, name: string, carType: string)
    requires WellFormed(ps) && pi < |ps|
    ensures var id := ps[pi].id; var res := RenameAt(DropType(ps, pi, carType), pi, name);
      && (res.None? <==> pi == |ps| - 1 && forall c :: c in ps[pi].carTypes ==> Matches(c, carType))
      && (res.Some? ==>
            && WellFormed(res.value)
            && QuantityOf(res.value, id, carType) == 0
            && forall id', t :: id' != id || t != carType ==> QuantityOf(res.value, id', t) == QuantityOf(ps, id', t))
  {
    var p := ps[pi];
    var kept := FilterOut(p.carTypes, carType);
    assert |kept| == 0 <==> forall c :: c in p.carTypes ==> Matches(c, carType) by {
      if |kept| > 0 { assert kept[0] in kept; }
    }
    var ps1 := DropType(ps, pi, carType);
    DropTypeEffect(ps, pi, carType);
    assert |ps1| == if |kept| == 0 then |ps| - 1 else |ps|;
    if pi < |ps1| {
      RenameKeeps(ps, ps1, pi, name, p.id, carType);
    }
  }

  /** Writing a name into a ledger that differs from `ps` only in the quantity of `carType` of
      `id`, which is 0. */
  lemma RenameKeeps(ps: seq<Product>, ps1: seq<Product>, pi: nat, name: string, id: string, carType: string)
    requires WellFormed(ps1) && pi < |ps1|
    requires QuantityOf(ps1, id, carType) == 0 && OnlyTouches(ps, ps1, id, carType)
    ensures var res := RenameAt(ps1, pi, name);
      && res.Some?
      && WellFormed(res.value)
      && QuantityOf(res.value, id, carType) == 0
      && forall id', t :: id' != id || t != carType ==> QuantityOf(res.value, id', t) == QuantityOf(ps, id', t)
  {
    RenameEffect(ps1, pi, name);
    var r := ps1[pi := ps1[pi].(name := name)];
    assert RenameAt(ps1, pi, name) == Some(r);
    forall id', t | id' != id || t != carType ensures QuantityOf(r, id', t) == QuantityOf(ps, id', t) {
      assert QuantityOf(r, id', t) == QuantityOf(ps1, id', t);
    }
  }

  /** `setQuantity` to `q <= 0` of a listed type of a well-formed ledger: the type dropped, then
      the name written through the old index. */
  lemma SetDropsAt(ps: seq<Product>, pi: nat, name: string, carType: string, q: int)
    requires WellFormed(ps) && q <= 0 && pi < |ps|
    requires ProductIndex(ps, ps[pi].id) == pi
    requires forall k :: 0 <= k < |ps[pi].carTypes| ==> EntryOk(ps[pi].carTypes[k])
    requires TypeIndex(ps[pi].carTypes, carType) >= 0
    ensures SetIn(ps, ps[pi].id, name, carType, q) == RenameAt(DropType(ps, pi, carType), pi, name)
  {
  }

  /** The case where the product is there but the type is not: only the name is written. */
  lemma SetNonPositiveKeeps(ps: seq<Product>, pi: nat, name: string, carType: string, q: int)
    requires WellFormed(ps) && q <= 0 && pi < |ps|
    requires TypeIndex(ps[pi].carTypes, carType) < 0
    ensures var id := ps[pi].id;
      && SetIn(ps, id, name, carType, q) == Some(ps[pi := ps[pi].(name := name)])
      && !(forall c :: c in ps[pi].carTypes ==> Matches(c, carType))
      && WellFormed(ps[pi := ps[pi].(name := name)])
      && QuantityOf(ps, id, carType) == 0
      && forall id', t :: QuantityOf(ps[pi := ps[pi].(name := name)], id', t) == QuantityOf(ps, id', t)
  {
    var p := ps[pi];
    assert p in ps;
    assert ProductIndex(ps, p.id) == pi;
    GoodEntries(p.carTypes);
    assert p.carTypes[0] in p.carTypes;
    assert FindProduct(ps, p.id) == Some(p);
    RenameEffect(ps, pi, name);
  }

  /** The calls that keep a well-formed ledger well formed: add, increase and setQuantity with a
      named type and a positive quantity, and every call of the other actions. */
  predicate KeepsShape(action: Action, carType: string, q: int) {
    (action == Add || action == Increase || action == SetQuantity) ==> carType != "" && q >= 1
  }

  lemma StepWellFormed(ps: seq<Product>, id: string, name: string, carType: string, action: Action, q: int)
    requires WellFormed(ps) && KeepsShape(action, carType, q)
    ensures Step(ps, id, name, carType, action, q).Some?
    ensures WellFormed(Step(ps, id, name, carType, action, q).value)
  {
    match action
    case Add => AddEffect(ps, id, name, carType, q);
    case Increase => AddEffect(ps, id, name, carType, q);
    case Remove => RemoveEffect(ps, id, carType);
    case Decrease => DecreaseEffect(ps, id, carType);
    case SetQuantity => SetPositiveEffect(ps, id, name, carType, q);
    case _ =>
  }

  /** One whole call on a well-formed cookie: it saves, under the session's cart id, a ledger that
      is again well formed. */
  lemma ApplyWellFormed(cartCookie: string, newCartId: string, cookie: Cookie,
                        id: string, name: string, carType: string, action: Action, q: int)
    requires StoredWellFormed(cookie) && KeepsShape(action, carType, q)
    ensures var o := Apply(cartCookie, newCartId, cookie, id, name, carType, action, q);
      && o.Saved?
      && o.ledger.cartId == CartId(cartCookie, newCartId)
      && WellFormed(o.ledger.products)
      && StoredWellFormed(Persisted(o.ledger))
  {
    LoadWellFormed(cartCookie, newCartId, cookie);
    StepWellFormed(Load(cartCookie, newCartId, cookie).products, id, name, carType, action, q);
  }

  /** Any sequence of such calls, each reading what the previous one saved, leaves a well-formed
      cookie. */
  lemma {:induction false} ReplayWellFormed(cartId: string, cookie: Cookie, calls: seq<Call>)
    requires StoredWellFormed(cookie)
    requires forall k :: 0 <= k < |calls| ==> KeepsShape(calls[k].action, calls[k].carType, calls[k].quantity)
    ensures StoredWellFormed(Replay(cartId, cookie, calls))
    decreases |calls|
  {
    if |calls| > 0 {
      var c := calls[0];
      ApplyWellFormed(cartId, cartId, cookie, c.id, c.name, c.carType, c.action, c.quantity);
      var next := Persisted(Apply(cartId, cartId, cookie, c.id, c.name, c.carType, c.action, c.quantity).ledger);
      assert forall k :: 0 <= k < |calls[1..]| ==> calls[1..][k] == calls[k + 1];
      ReplayWellFormed(cartId, next, calls[1..]);
    }
  }

  /** `n` successive `decrease` calls on one product and type. */
  function DecreaseTimes(ps: seq<Product>, id: string, carType: string, n: nat): Option<seq<Product>>
    decreases n
  {
    if n == 0 then Some(ps)
    else
      match DecreaseIn(ps, id, carType)
      case None => None
      case Some(r) => DecreaseTimes(r, id, carType, n - 1)
  }

  /** Taking one unit from a product entry appended last with a single type. */
  lemma DecreaseAppended(ps: seq<Product>, id: string, name: string, carType: string, n: int)
    requires FindProduct(ps, id).None? && n >= 1
    ensures DecreaseIn(ps + [NewProduct(id, name, carType, n)], id, carType)
            == Some(if n == 1 then ps else ps + [NewProduct(id, name, carType, n - 1)])
  {
    var r := ps + [NewProduct(id, name, carType, n)];
    AppendedLast(ps, NewProduct(id, name, carType, n));
    var cts := r[|ps|].carTypes;
    assert TypeIndex(cts, carType) == 0;
    if n == 1 {
      assert FilterOut(cts, carType) == [];
      assert r[..|ps|] + r[|ps| + 1..] == ps;
    } else {
      var r' := r[|ps| := r[|ps|].(carTypes := cts[0 := cts[0].(quantity := n - 1)])];
      assert cts[0 := cts[0].(quantity := n - 1)] == [Obj(Named(carType), n - 1)];
      assert r'[|ps|] == NewProduct(id, name, carType, n - 1);
      assert forall j :: 0 <= j < |ps| ==> r'[j] == ps[j];
      assert r' == ps + [NewProduct(id, name, carType, n - 1)];
    }
  }

  /** Adding `q` of a type to a product the ledger did not list, then decreasing it `q` times,
      gives back exactly the ledger it started from. */
  lemma {:induction false} AddThenDecreaseRoundTrip(ps: seq<Product>, id: string, name: string, carType: string, q: nat)
    requires FindProduct(ps, id).None? && q >= 1
    ensures DecreaseTimes(AddTo(ps, id, name, carType, q), id, carType, q) == Some(ps)
  {
    DecreaseDown(ps, id, name, carType, q);
  }

  lemma {:induction false} DecreaseDown(ps: seq<Product>, id: string, name: string, carType: string, n: nat)
    requires FindProduct(ps, id).None? && n >= 1
    ensures DecreaseTimes(ps + [NewProduct(id, name, carType, n)], id, carType, n) == Some(ps)
    decreases n
  {
    var r := if n == 1 then ps else ps + [NewProduct(id, name, carType, n - 1)];
    DecreaseAppended(ps, id, name, carType, n);
    DecreaseTimesStep(ps + [NewProduct(id, name, carType, n)], id, carType, n, r);
    if n > 1 {
      DecreaseDown(ps, id, name, carType, n - 1);
    }
  }

  /** The first of `n` decreases. */
  lemma DecreaseTimesStep(ps: seq<Product>, id: string, carType: string, n: nat, r: seq<Product>)
    requires n >= 1 && DecreaseIn(ps, id, carType) == Some(r)
    ensures DecreaseTimes(ps, id, carType, n) == DecreaseTimes(r, id, carType, n - 1)
  {
  }

  /** Adding a type to a product the ledger did not list and then removing that type gives back
      exactly the ledger it started from. */
  lemma AddThenRemoveRoundTrip(ps: seq<Product>, id: string, name: string, carType: string, q: int)
    requires FindProduct(ps, id).None?
    ensures RemoveFrom(AddTo(ps, id, name, carType, q), id, carType) == ps
  {
    var r := ps + [NewProduct(id, name, carType, q)];
    AppendedLast(ps, NewProduct(id, name, carType, q));
    assert r[..|ps|] + r[|ps| + 1..] == ps;
  }

  /** Lines 433-435 test only the first element. A legacy string after an object survives the
      load, and an object after a legacy string is wrapped whole into a new entry's `type`, so its
      quantity is no longer found. */
  lemma MigrationDropsQuantities()
    ensures MigrateList([Obj(Named("Sedan"), 2), Str("SUV")]) == [Obj(Named("Sedan"), 2), Str("SUV")]
    ensures var ps := [Product("P1", "One", [Str("Sedan"), Obj(Named("SUV"), 3)])];
      && QuantityOf(ps, "P1", "SUV") == 3
      && QuantityOf(MigrateAll(ps), "P1", "SUV") == 0
  {
    var ps := [Product("P1", "One", [Str("Sedan"), Obj(Named("SUV"), 3)])];
    assert TypeIndex(ps[0].carTypes, "SUV") == 1;
    var m := MigrateAll(ps);
    assert m[0].carTypes == [Obj(Named("Sedan"), 1), Obj(Nested(Obj(Named("SUV"), 3)), 1)];
    assert TypeIndex(m[0].carTypes, "SUV") == -1;
  }

  /** Lines 547 and 553: a `decrease` that reaches a legacy string entry the migration left behind
      assigns to a `const` and throws, so nothing is saved. */
  lemma DecreaseLegacyStringThrows()
    ensures Apply("c1", "c1", Json(Stored(Some("c1"), Some([Product("P1", "One", [Obj(Named("Sedan"), 2), Str("SUV")])]))),
                  "P1", "One", "SUV", Decrease, 1) == Threw
  {
    var ps := [Product("P1", "One", [Obj(Named("Sedan"), 2), Str("SUV")])];
    assert MigrateAll(ps) == ps;
    assert TypeIndex(ps[0].carTypes, "SUV") == 1;
  }

  /** Lines 618 and 635: setting the quantity of a product's only type to 0 splices the product out
      and then writes its name over the NEXT product's; on the last product the write throws. */
  lemma SetZeroRenamesNextProduct()
    ensures SetIn([Product("P1", "One", [Obj(Named("Sedan"), 1)]), Product("P2", "Two", [Obj(Named("SUV"), 1)])],
                  "P1", "One", "Sedan", 0)
            == Some([Product("P2", "One", [Obj(Named("SUV"), 1)])])
    ensures SetIn([Product("P1", "One", [Obj(Named("Sedan"), 1)])], "P1", "One", "Sedan", 0) == None
  {
    var ps := [Product("P1", "One", [Obj(Named("Sedan"), 1)]), Product("P2", "Two", [Obj(Named("SUV"), 1)])];
    assert ProductIndex(ps, "P1") == 0;
    assert FilterOut(ps[0].carTypes, "Sedan") == [];
    assert ps[..0] + ps[1..] == [ps[1]];
    assert TypeIndex(ps[0].carTypes, "Sedan") == 0;
    assert DropType(ps, 0, "Sedan") == [ps[1]];
    assert [ps[1]][0 := ps[1].(name := "One")] == [Product("P2", "One", [Obj(Named("SUV"), 1)])];
    var one := [Product("P1", "One", [Obj(Named("Sedan"), 1)])];
    assert ProductIndex(one, "P1") == 0;
    assert FilterOut(one[0].carTypes, "Sedan") == [];
  }
}
