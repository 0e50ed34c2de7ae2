/**
 * `displayCarTypesForProducts` of the `car-types-display` element on the cart page
 * (assets/car-types-display.js:36-134): the list of one cart line's car types, each with its
 * quantity and a remove button. Unlike the cart-line widget and the textarea, it does not sum
 * repeated types: it keeps the first entry of each type and shows that entry's own quantity.
 *
 * DisplayFor is the specification; DisplayCarTypesForProducts follows the script, with Dedup for
 * its `forEach`/`some` loop.
 */
module CarTypesDisplay {
  import opened Wrappers
  import opened CartDetails
  import opened LedgerFacts
  import opened Entries
  import SelectorLedger
  import SelectorLedgerProperties
  import CarTypesJson

  /** Lines 78-83: a bare string becomes `{type: item, quantity: 1}`; an object is kept as it is,
      its quantity not yet defaulted. */
  function LegacyEntry(c: CarType): (e: Entry)
    ensures e.kind == KeyOf(c)
    ensures OrOne(e.quantity) == EntryQuantity(c)
  {
    match c
    case Str(s) => Entry(Named(s), 1)
    case Obj(k, q) => Entry(k, q)
  }

  function LegacyEntries(cts: seq<CarType>): (es: seq<Entry>)
    ensures |es| == |cts| && forall i :: 0 <= i < |cts| ==> es[i] == LegacyEntry(cts[i])
  {
    seq(|cts|, i requires 0 <= i < |cts| => LegacyEntry(cts[i]))
  }

  /** One list item: the type's name span and the `Qty: ${quantity || 1}` span. */
  datatype Item = Item(carType: TypeField, shown: int)

  /** What the element holds afterwards: nothing (beyond its comments), the error message of the
      catch at lines 130-133, or a list. */
  datatype Display = Nothing | Failed | Listed(items: seq<Item>)

  function ItemOf(e: Entry): Item {
    Item(e.kind, OrOne(e.quantity))
  }

  function ItemsOf(es: seq<Entry>): (r: seq<Item>)
    ensures |r| == |es| && forall i :: 0 <= i < |es| ==> r[i] == ItemOf(es[i])
  {
    seq(|es|, i requires 0 <= i < |es| => ItemOf(es[i]))
  }

  /** Lines 36-106 for the cart line of `productId` ("" when the element has no container or the
      container no product id). A cookie that JSON.parse rejects lands in the catch. */
  function DisplayFor(productId: string, cookie: Cookie): (d: Display)
    ensures d.Failed? <==> productId != "" && cookie.Corrupt?
    ensures d.Listed? <==>
              && productId != "" && cookie.Json? && cookie.value.products.Some?
              && FindProduct(cookie.value.products.value, productId).Some?
              && |FindProduct(cookie.value.products.value, productId).value.carTypes| > 0
  {
    if productId == "" then Nothing
    else
      match cookie
      case Absent => Nothing
      case Corrupt(_) => Failed
      case Json(st) =>
        if st.products.None? || |st.products.value| == 0 then Nothing
        else
          match FindProduct(st.products.value, productId)
          case None => Nothing
          case Some(p) =>
            if |p.carTypes| == 0 then Nothing
            else Listed(ItemsOf(FirstOccurrences(LegacyEntries(p.carTypes))))
  }

  /** Lines 85-91: push a copy of each entry no earlier entry shares a type with. */
  method Dedup(es: seq<Entry>) returns (processed: seq<Entry>)
    ensures processed == FirstOccurrences(es)
  {
    processed := [];
    var i := 0;
    while i < |es|
      invariant 0 <= i <= |es|
      invariant processed == FirstOccurrences(es[..i])
    {
      var item := es[i];
      RepeatInFirsts(es[..i], item.kind);
      assert es[..i + 1][..i] == es[..i];
      if GroupIndex(processed, item.kind) < 0 {
        processed := processed + [item];
      }
      i := i + 1;
    }
    assert es[..|es|] == es;
  }

  /** `displayCarTypesForProducts`, with the dedup loop and the loop building the list items. */
  method DisplayCarTypesForProducts(productId: string, cookie: Cookie) returns (d: Display)
    ensures d == DisplayFor(productId, cookie)
  {
    if productId == "" || cookie.Absent? {
      return Nothing;
    }
    if cookie.Corrupt? {
      return Failed;
    }
    var st := cookie.value;
    if st.products.None? || |st.products.value| == 0 {
      return Nothing;
    }
    var product := FindProduct(st.products.value, productId);
    if product.None? || |product.value.carTypes| == 0 {
      return Nothing;
    }
    var processed := Dedup(LegacyEntries(product.value.carTypes));
    var items: seq<Item> := [];
    var i := 0;
    while i < |processed|
      invariant 0 <= i <= |processed|
      invariant items == ItemsOf(processed[..i])
    {
      items := items + [ItemOf(processed[i])];
      i := i + 1;
    }
    assert processed[..|processed|] == processed;
    d := Listed(items);
  }

  // ---------------------------------------------------------------------------------------------
  // What the list shows

  /** The dedup reads a list's types at the same place the ledger's lookups do. */
  lemma FirstTypeIndex(cts: seq<CarType>, n: string)
    ensures GroupIndex(LegacyEntries(cts), Named(n)) == TypeIndex(cts, n)
  {
    var es := LegacyEntries(cts);
    forall j | 0 <= j < |cts|
      ensures SameType(es[j].kind, Named(n)) <==> Matches(cts[j], n)
    {
      MatchesKey(cts[j], n);
    }
  }

  /** The list has one item per type, no two alike; a string type is listed exactly when the
      product has it, and its item shows what the ledger's lookup reads for it: the first
      entry's quantity, `|| 1`, however many entries of that type follow. */
  lemma ListedItems(productId: string, st: Stored, p: Product)
    requires DisplayFor(productId, Json(st)).Listed?
    requires st.products.Some? && FindProduct(st.products.value, productId) == Some(p)
    ensures var items := DisplayFor(productId, Json(st)).items;
      && (forall a, b :: 0 <= a < b < |items| ==> !SameType(items[a].carType, items[b].carType))
      && forall n :: (exists i :: 0 <= i < |items| && items[i].carType == Named(n)) <==> QuantityIn(p.carTypes, n) != 0
  {
    var items := DisplayFor(productId, Json(st)).items;
    var es := LegacyEntries(p.carTypes);
    var f := FirstOccurrences(es);
    forall n ensures (exists i :: 0 <= i < |items| && items[i].carType == Named(n)) <==> QuantityIn(p.carTypes, n) != 0 {
      RepeatInFirsts(es, Named(n));
      FirstTypeIndex(p.carTypes, n);
      if QuantityIn(p.carTypes, n) != 0 {
        var g := GroupIndex(f, Named(n));
        assert items[g].carType == Named(n);
      } else {
        forall i | 0 <= i < |items| ensures items[i].carType != Named(n) {
          assert !SameType(f[i].kind, Named(n));
        }
      }
    }
  }

  /** The quantity an item shows is the one the ledger's lookup reads for its type. */
  lemma ListedQuantity(productId: string, st: Stored, p: Product, n: string)
    requires DisplayFor(productId, Json(st)).Listed?
    requires st.products.Some? && FindProduct(st.products.value, productId) == Some(p)
    requires QuantityIn(p.carTypes, n) != 0
    ensures var items := DisplayFor(productId, Json(st)).items;
      var g := GroupIndex(FirstOccurrences(LegacyEntries(p.carTypes)), Named(n));
      0 <= g < |items| && items[g] == Item(Named(n), QuantityIn(p.carTypes, n))
  {
    var es := LegacyEntries(p.carTypes);
    FirstTypeIndex(p.carTypes, n);
    FirstOccurrenceOf(es, Named(n));
  }

  /** On a well-formed product entry, this list and the cart-line widget's rows show the same
      types and quantities in the same order: they part ways only on repeated types, where this
      list keeps the first entry and the widget sums them. */
  lemma ListedOfWellFormed(productId: string, st: Stored, p: Product)
    requires st.products.Some? && FindProduct(st.products.value, productId) == Some(p)
    requires productId != "" && ProductOk(p)
    ensures DisplayFor(productId, Json(st)) == Listed(ItemsOf(Grouped(LegacyEntries(p.carTypes))))
    ensures var items := DisplayFor(productId, Json(st)).items;
      |items| == |p.carTypes| &&
      forall i :: 0 <= i < |items| ==> items[i] == Item(KeyOf(p.carTypes[i]), EntryQuantity(p.carTypes[i]))
  {
    GoodListShown(p.carTypes);
    ListedFound(productId, st, p);
  }

  /** The list shown for a product the ledger has, with car types. */
  lemma ListedFound(productId: string, st: Stored, p: Product)
    requires st.products.Some? && FindProduct(st.products.value, productId) == Some(p)
    requires productId != "" && |p.carTypes| > 0
    ensures DisplayFor(productId, Json(st)) == Listed(ItemsOf(FirstOccurrences(LegacyEntries(p.carTypes))))
  {
    assert p in st.products.value;
  }

  /** A good list read as entries repeats no type, so neither the dedup nor the grouping changes
      it, and each item shows its entry's stored quantity. */
  lemma GoodListShown(cts: seq<CarType>)
    requires EntriesOk(cts)
    ensures var es := LegacyEntries(cts);
      && FirstOccurrences(es) == es && Grouped(es) == es
      && |ItemsOf(es)| == |cts|
      && forall i :: 0 <= i < |cts| ==> ItemsOf(es)[i] == Item(KeyOf(cts[i]), EntryQuantity(cts[i]))
  {
    var es := LegacyEntries(cts);
    assert DistinctTypes(es) by {
      assert forall i :: 0 <= i < |cts| ==> cts[i] in cts;
      forall a, b | 0 <= a < b < |es| ensures !SameType(es[a].kind, es[b].kind) {
        assert KeyOf(cts[a]) != KeyOf(cts[b]);
      }
    }
    FirstOccurrencesOfDistinct(es);
    GroupedOfDistinct(es);
  }

  lemma RepeatDedup(es: seq<Entry>, t: string, a: int, b: int)
    requires es == [Entry(Named(t), a), Entry(Named(t), b)]
    ensures FirstOccurrences(es) == [Entry(Named(t), a)]
  {
    var init := es[..1];
    assert init[..0] == [];
    assert FirstOccurrences(init) == init;
    assert SameType(init[0].kind, es[1].kind);
  }

  lemma RepeatGrouped(es: seq<Entry>, t: string, a: int, b: int)
    requires es == [Entry(Named(t), a), Entry(Named(t), b)]
    ensures Grouped(es) == [Entry(Named(t), a + b)]
  {
    var init := es[..1];
    assert init[..0] == [];
    assert Grouped(init) == init;
    assert GroupIndex(init, Named(t)) == 0;
  }

  /** Two entries of one type, as the selector's first-element migration bug or an older script
      can leave them: this list shows the first entry's quantity where the cart-line widget, which
      groups, shows the sum (2 Sedans against 5 for quantities 2 and 3). */
  lemma RepeatsShownDifferently(productId: string, st: Stored, p: Product, t: string, a: int, b: int)
    requires st.products.Some? && FindProduct(st.products.value, productId) == Some(p)
    requires productId != "" && p.carTypes == [Obj(Named(t), a), Obj(Named(t), b)]
    ensures DisplayFor(productId, Json(st)) == Listed([Item(Named(t), OrOne(a))])
    ensures Grouped(LegacyEntries(p.carTypes)) == [Entry(Named(t), a + b)]
  {
    var es := LegacyEntries(p.carTypes);
    assert es == [Entry(Named(t), a), Entry(Named(t), b)];
    RepeatDedup(es, t, a, b);
    RepeatGrouped(es, t, a, b);
    ListedFound(productId, st, p);
    var items := ItemsOf(FirstOccurrences(es));
    assert items == [Item(Named(t), OrOne(a))] by {
      assert |items| == 1 && items[0] == ItemOf(Entry(Named(t), a));
    }
  }

  /** The remove button of an item (lines 102 and 112-127) hands the item's type, as text, to the
      selector's `remove`. On a well-formed ledger that takes the type off the product and
      changes nothing else. */
  lemma RemoveButtonEffect(ps: seq<Product>, productId: string, i: nat)
    requires WellFormed(ps)
    requires DisplayFor(productId, Json(Stored(None, Some(ps)))).Listed?
    requires i < |DisplayFor(productId, Json(Stored(None, Some(ps)))).items|
    ensures var item := DisplayFor(productId, Json(Stored(None, Some(ps)))).items[i];
      && item.carType.Named?
      && var r := SelectorLedger.Step(ps, productId, "", CarTypesJson.TypeText(item.carType), Remove, 1);
      && r.Some? && WellFormed(r.value)
      && QuantityOf(ps, productId, item.carType.name) != 0
      && QuantityOf(r.value, productId, item.carType.name) == 0
      && OnlyTouches(ps, r.value, productId, item.carType.name)
  {
    var p := FindProduct(ps, productId).value;
    assert p in ps;
    ListedOfWellFormed(productId, Stored(None, Some(ps)), p);
    var c := p.carTypes[i];
    assert c in p.carTypes;
    assert QuantityIn(p.carTypes, c.kind.name) != 0 by {
      assert EntryFor(p.carTypes, c.kind.name) == Some(c);
    }
    SelectorLedgerProperties.RemoveEffect(ps, productId, c.kind.name);
  }
}
