/**
 * Facts about the lookups of CartDetails under the edits every ledger operation is built from:
 * replacing a product entry or a car-type entry, appending one, dropping one, filtering a list.
 * Each says which lookups an edit leaves alone, and which invariants it keeps.
 */
module LedgerFacts {
  import opened Wrappers
  import opened CartDetails

  /** Every other product entry is unchanged, and so is every other car type's quantity for the
      product touched: the "nothing else changes" half of each operation's contract. */
  ghost predicate OnlyTouches(before: seq<Product>, after: seq<Product>, id: string, carType: string) {
    && (forall id' :: id' != id ==> FindProduct(after, id') == FindProduct(before, id'))
    && (forall t :: t != carType ==> QuantityOf(after, id, t) == QuantityOf(before, id, t))
  }

  /** The product entry at `pi` keeps its place and its id; every other entry stays where it was,
      unchanged. */
  predicate ChangedOnlyAt(before: seq<Product>, after: seq<Product>, pi: int) {
    && |after| == |before| && 0 <= pi < |before|
    && after[pi].id == before[pi].id
    && forall j :: 0 <= j < |before| && j != pi ==> after[j] == before[j]
  }

  /** The product entry at `pi` is spliced out; the others keep their order. */
  predicate SplicedAt(before: seq<Product>, after: seq<Product>, pi: int) {
    0 <= pi < |before| && after == before[..pi] + before[pi + 1..]
  }

  /** Where the entries of an edit that may drop the product at `pi` end up: spliced out when the
      product is no longer listed, otherwise only that entry changed. Nothing to say when `pi` is
      not an index. */
  predicate InPlace(before: seq<Product>, after: seq<Product>, pi: int) {
    0 <= pi < |before| ==>
      if FindProduct(after, before[pi].id).None? then SplicedAt(before, after, pi)
      else ChangedOnlyAt(before, after, pi)
  }

  /** The car-type entry at `k` keeps its place and still matches `carType`; every other entry
      stays where it was, unchanged. */
  predicate EntryChangedAt(before: seq<CarType>, after: seq<CarType>, k: int, carType: string) {
    && |after| == |before| && 0 <= k < |before|
    && Matches(after[k], carType)
    && forall j :: 0 <= j < |before| && j != k ==> after[j] == before[j]
  }

  /** Where adding or setting `q` of a type leaves a product's list: `{type, quantity: q}` appended
      at the end when no entry matched, otherwise only the first matching entry changed, in place. */
  predicate TypePlaced(before: seq<CarType>, after: seq<CarType>, carType: string, q: int) {
    var k := TypeIndex(before, carType);
    if k < 0 then after == before + [Obj(Named(carType), q)] else EntryChangedAt(before, after, k, carType)
  }

  /** Replacing one car-type entry by one that matches the same type changes only that entry. */
  lemma EntryReplacedAt(cts: seq<CarType>, k: nat, c: CarType, carType: string)
    requires k < |cts| && Matches(c, carType)
    ensures EntryChangedAt(cts, cts[k := c], k, carType)
  {
  }

  /** Replacing one product entry by one with the same id changes only that entry. */
  lemma ReplacedAt(ps: seq<Product>, pi: nat, p: Product)
    requires pi < |ps| && p.id == ps[pi].id
    ensures ChangedOnlyAt(ps, ps[pi := p], pi)
  {
  }

  /** Two changes to the same entry are one. */
  lemma ChangedTwiceAt(ps: seq<Product>, qs: seq<Product>, rs: seq<Product>, pi: int)
    requires ChangedOnlyAt(ps, qs, pi) && ChangedOnlyAt(qs, rs, pi)
    ensures ChangedOnlyAt(ps, rs, pi)
  {
  }

  /** The first-index lookup depends on the ids alone. */
  lemma SameIdsSameIndex(ps: seq<Product>, qs: seq<Product>, id: string)
    requires |ps| == |qs|
    requires forall j :: 0 <= j < |ps| ==> ps[j].id == qs[j].id
    ensures ProductIndex(ps, id) == ProductIndex(qs, id)
  {
    var a, b := ProductIndex(ps, id), ProductIndex(qs, id);
    if a >= 0 {
      assert qs[a].id == id;
    }
  }

  /** The first-match lookup depends on the entries' types alone. */
  lemma SameKindsSameIndex(a: seq<CarType>, b: seq<CarType>, t: string)
    requires |a| == |b|
    requires forall j :: 0 <= j < |a| ==> KeyOf(a[j]) == KeyOf(b[j])
    ensures TypeIndex(a, t) == TypeIndex(b, t)
  {
    assert forall j :: 0 <= j < |a| ==> (Matches(a[j], t) <==> Matches(b[j], t)) by {
      forall j | 0 <= j < |a| ensures Matches(a[j], t) <==> Matches(b[j], t) {
        assert KeyOf(a[j]) == KeyOf(b[j]);
      }
    }
    var x := TypeIndex(a, t);
    if x >= 0 {
      assert Matches(b[x], t);
    }
  }

  /** Replacing a product entry by one with the same id. */
  lemma UpdateProduct(ps: seq<Product>, i: nat, p: Product)
    requires i < |ps| && p.id == ps[i].id
    ensures forall id' :: id' != p.id ==> FindProduct(ps[i := p], id') == FindProduct(ps, id')
    ensures DistinctIds(ps) ==> DistinctIds(ps[i := p]) && FindProduct(ps[i := p], p.id) == Some(p)
    ensures WellFormed(ps) && ProductOk(p) ==> WellFormed(ps[i := p])
  {
    var r := ps[i := p];
    forall id' | id' != p.id ensures FindProduct(r, id') == FindProduct(ps, id') {
      SameIdsSameIndex(r, ps, id');
    }
    assert forall j :: 0 <= j < |ps| ==> r[j].id == ps[j].id;
    assert p in r;
    assert forall x :: x in r ==> x == p || x in ps;
  }

  /** Appending a product entry. */
  lemma AppendProduct(ps: seq<Product>, p: Product)
    ensures forall id' :: id' != p.id ==> FindProduct(ps + [p], id') == FindProduct(ps, id')
    ensures FindProduct(ps, p.id).None? && DistinctIds(ps) ==>
              DistinctIds(ps + [p]) && FindProduct(ps + [p], p.id) == Some(p)
    ensures FindProduct(ps, p.id).None? && WellFormed(ps) && ProductOk(p) ==> WellFormed(ps + [p])
  {
    forall id' | id' != p.id ensures FindProduct(ps + [p], id') == FindProduct(ps, id') {
      AppendOther(ps, p, id');
    }
    if FindProduct(ps, p.id).None? {
      AppendNew(ps, p);
    }
  }

  lemma AppendOther(ps: seq<Product>, p: Product, id': string)
    requires id' != p.id
    ensures FindProduct(ps + [p], id') == FindProduct(ps, id')
  {
    AppendIndex(ps, p, id');
    assert forall j :: 0 <= j < |ps| ==> (ps + [p])[j] == ps[j];
  }

  lemma AppendNew(ps: seq<Product>, p: Product)
    requires FindProduct(ps, p.id).None?
    ensures DistinctIds(ps) ==> DistinctIds(ps + [p]) && FindProduct(ps + [p], p.id) == Some(p)
    ensures WellFormed(ps) && ProductOk(p) ==> WellFormed(ps + [p])
  {
    var r := ps + [p];
    AppendIndex(ps, p, p.id);
    assert ProductIndex(ps, p.id) < 0;
    assert forall j :: 0 <= j < |ps| ==> r[j] == ps[j] && ps[j].id != p.id;
    assert forall x :: x in r ==> x == p || x in ps;
  }

  /** The first index of an id after appending an entry. */
  lemma AppendIndex(ps: seq<Product>, p: Product, id: string)
    ensures ProductIndex(ps + [p], id) ==
      if ProductIndex(ps, id) >= 0 then ProductIndex(ps, id) else if p.id == id then |ps| else -1
  {
    var r := ps + [p];
    var a, b := ProductIndex(r, id), ProductIndex(ps, id);
    if b >= 0 {
      assert r[b] == ps[b];
    } else if p.id == id {
      assert r[|ps|] == p;
    }
  }

  /** Splicing out the product entry at `i`. */
  lemma RemoveProduct(ps: seq<Product>, i: nat)
    requires i < |ps| && DistinctIds(ps)
    ensures var r := ps[..i] + ps[i + 1..];
      && DistinctIds(r)
      && FindProduct(r, ps[i].id).None?
      && (forall id' :: id' != ps[i].id ==> FindProduct(r, id') == FindProduct(ps, id'))
      && (WellFormed(ps) ==> WellFormed(r))
  {
    var r := ps[..i] + ps[i + 1..];
    assert |r| == |ps| - 1;
    assert forall j :: 0 <= j < i ==> r[j] == ps[j];
    assert forall j :: i <= j < |r| ==> r[j] == ps[j + 1];
    assert DistinctIds(r) by {
      forall a, b | 0 <= a < b < |r| ensures r[a].id != r[b].id {
        var a' := if a < i then a else a + 1;
        var b' := if b < i then b else b + 1;
        assert r[a] == ps[a'] && r[b] == ps[b'];
      }
    }
    assert forall x :: x in r ==> exists j :: 0 <= j < |ps| && j != i && ps[j] == x by {
      forall x | x in r ensures exists j :: 0 <= j < |ps| && j != i && ps[j] == x {
        var k :| 0 <= k < |r| && r[k] == x;
        if k < i { assert ps[k] == x; } else { assert ps[k + 1] == x; }
      }
    }
    assert forall x :: x in r ==> x in ps && x.id != ps[i].id;
    forall id' | id' != ps[i].id ensures FindProduct(r, id') == FindProduct(ps, id') {
      var f := FindProduct(ps, id');
      if f.Some? {
        var j :| 0 <= j < |ps| && ps[j] == f.value;
        assert j != i;
        if j < i { assert r[j] == f.value; } else { assert r[j - 1] == f.value; }
      }
    }
  }

  /** Replacing a car-type entry by one of the same type. */
  lemma UpdateEntry(cts: seq<CarType>, k: nat, c: CarType)
    requires k < |cts| && KeyOf(c) == KeyOf(cts[k])
    ensures forall t :: !Matches(cts[k], t) ==> EntryFor(cts[k := c], t) == EntryFor(cts, t)
    ensures DistinctKinds(cts) ==> DistinctKinds(cts[k := c])
    ensures DistinctKinds(cts) ==> forall t :: Matches(c, t) ==> EntryFor(cts[k := c], t) == Some(c)
  {
    var r := cts[k := c];
    assert forall j :: 0 <= j < |cts| ==> KeyOf(r[j]) == KeyOf(cts[j]);
    forall t | !Matches(cts[k], t) ensures EntryFor(r, t) == EntryFor(cts, t) {
      SameKindsSameIndex(r, cts, t);
    }
    assert c in r;
  }

  /** Appending a car-type entry. */
  lemma AppendEntry(cts: seq<CarType>, c: CarType)
    ensures forall t :: !Matches(c, t) ==> EntryFor(cts + [c], t) == EntryFor(cts, t)
    ensures DistinctKinds(cts) && (forall x :: x in cts ==> KeyOf(x) != KeyOf(c)) ==>
              DistinctKinds(cts + [c]) && forall t :: Matches(c, t) ==> EntryFor(cts + [c], t) == Some(c)
  {
    var r := cts + [c];
    forall t | !Matches(c, t) ensures EntryFor(r, t) == EntryFor(cts, t) {
      AppendOtherType(cts, c, t);
    }
    if DistinctKinds(cts) && (forall x :: x in cts ==> KeyOf(x) != KeyOf(c)) {
      assert forall j :: 0 <= j < |cts| ==> r[j] == cts[j];
      assert forall j :: 0 <= j < |cts| ==> cts[j] in cts;
      assert c in r;
    }
  }

  /** An appended entry of another type leaves the lookup of `t` as it was. */
  lemma AppendOtherType(cts: seq<CarType>, c: CarType, t: string)
    requires !Matches(c, t)
    ensures EntryFor(cts + [c], t) == EntryFor(cts, t)
  {
    var r := cts + [c];
    var a, b := TypeIndex(r, t), TypeIndex(cts, t);
    if b >= 0 { assert r[b] == cts[b]; }
    if a >= 0 { assert a < |cts|; assert r[a] == cts[a]; }
    if b >= 0 && a >= 0 {
      assert a <= b && b <= a;
    }
  }

  /** Dropping every entry of one type. */
  lemma FilterEntries(cts: seq<CarType>, carType: string, kept: seq<CarType>)
    requires DistinctKinds(cts)
    requires forall c :: c in kept ==> c in cts && !Matches(c, carType)
    requires forall c :: c in cts && !Matches(c, carType) ==> c in kept
    requires DistinctKinds(kept)
    ensures EntryFor(kept, carType).None?
    ensures forall t :: t != carType ==> EntryFor(kept, t) == EntryFor(cts, t)
  {
    forall t | t != carType ensures EntryFor(kept, t) == EntryFor(cts, t) {
      var e := EntryFor(cts, t);
      if e.Some? {
        assert !Matches(e.value, carType);
        assert e.value in kept;
      }
    }
  }

  /** An entry matches a type exactly when it stands for that type. */
  lemma MatchesKey(c: CarType, t: string)
    ensures Matches(c, t) <==> KeyOf(c) == Named(t)
  {
  }

  /** Splicing out the car-type entry at `k`. */
  lemma RemoveEntry(cts: seq<CarType>, k: nat)
    requires k < |cts| && DistinctKinds(cts)
    ensures var r := cts[..k] + cts[k + 1..];
      && DistinctKinds(r)
      && (forall c :: c in r ==> c in cts)
      && (forall t :: !Matches(cts[k], t) ==> EntryFor(r, t) == EntryFor(cts, t))
      && (forall t :: Matches(cts[k], t) ==> EntryFor(r, t).None?)
  {
    var r := cts[..k] + cts[k + 1..];
    assert |r| == |cts| - 1;
    assert forall j :: 0 <= j < k ==> r[j] == cts[j];
    assert forall j :: k <= j < |r| ==> r[j] == cts[j + 1];
    assert DistinctKinds(r) by {
      forall a, b | 0 <= a < b < |r| ensures KeyOf(r[a]) != KeyOf(r[b]) {
        var a' := if a < k then a else a + 1;
        var b' := if b < k then b else b + 1;
        assert r[a] == cts[a'] && r[b] == cts[b'];
      }
    }
    assert forall x :: x in r ==> exists j :: 0 <= j < |cts| && j != k && cts[j] == x by {
      forall x | x in r ensures exists j :: 0 <= j < |cts| && j != k && cts[j] == x {
        var i :| 0 <= i < |r| && r[i] == x;
        if i < k { assert cts[i] == x; } else { assert cts[i + 1] == x; }
      }
    }
    forall t | Matches(cts[k], t) ensures EntryFor(r, t).None? {
      forall x | x in r ensures !Matches(x, t) {
        var j :| 0 <= j < |cts| && j != k && cts[j] == x;
        MatchesKey(x, t);
        MatchesKey(cts[k], t);
        if j < k { assert KeyOf(cts[j]) != KeyOf(cts[k]); } else { assert KeyOf(cts[k]) != KeyOf(cts[j]); }
      }
    }
    forall t | !Matches(cts[k], t) ensures EntryFor(r, t) == EntryFor(cts, t) {
      var e := EntryFor(cts, t);
      if e.Some? {
        var j :| 0 <= j < |cts| && cts[j] == e.value;
        assert j != k;
        if j < k { assert r[j] == e.value; } else { assert r[j - 1] == e.value; }
      }
    }
  }

  /** A product appended to a ledger that did not list its id is found at the end. */
  lemma AppendedLast(ps: seq<Product>, p: Product)
    requires FindProduct(ps, p.id).None?
    ensures ProductIndex(ps + [p], p.id) == |ps|
  {
    var r := ps + [p];
    forall j | 0 <= j < |ps| ensures r[j].id != p.id {
      assert r[j] == ps[j];
      assert ps[j] in ps;
    }
    assert r[|ps|].id == p.id;
  }
}
