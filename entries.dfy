/**
 * The normalised `{type, quantity}` records the three display scripts build from a product's
 * `car_types`, and the two ways they collapse repeated types:
 *   - grouping, summing the quantities of one type (assets/cart-type-display.js:101-115 and
 *     assets/car-types-json.js:73-87), and
 *   - keeping the first entry of each type only (assets/car-types-display.js:85-91).
 * Both compare types with `===`, so a type that is itself an object equals no other entry's.
 *
 * Grouped is the specification of the grouping loop, FirstOccurrences that of the dedup loop;
 * GroupedByFirstOccurrence ties the two together.
 */
module Entries {
  import opened CartDetails

  /** `{type, quantity}` after normalisation. */
  datatype Entry = Entry(kind: TypeField, quantity: int)

  /** `a.type === b.type` */
  predicate SameType(a: TypeField, b: TypeField) {
    a.Named? && b.Named? && a.name == b.name
  }

  /** Some entry of `es` has a type `===` to `k`. */
  predicate IsRepeat(es: seq<Entry>, k: TypeField) {
    exists j :: 0 <= j < |es| && SameType(es[j].kind, k)
  }

  /** No two entries share a type. */
  predicate DistinctTypes(es: seq<Entry>) {
    forall a, b :: 0 <= a < b < |es| ==> !SameType(es[a].kind, es[b].kind)
  }

  /** `processed.find(p => p.type === k)`, as an index. */
  function GroupIndex(gs: seq<Entry>, k: TypeField): (r: int)
    ensures -1 <= r < |gs|
    ensures r >= 0 ==> SameType(gs[r].kind, k) && forall j :: 0 <= j < r ==> !SameType(gs[j].kind, k)
    ensures r < 0 <==> !IsRepeat(gs, k)
    decreases |gs|
  {
    if |gs| == 0 then -1
    else if SameType(gs[0].kind, k) then 0
    else
      var r := GroupIndex(gs[1..], k);
      assert forall j :: 1 <= j < |gs| ==> gs[1..][j - 1] == gs[j];
      if r < 0 then -1 else r + 1
  }

  /** The entries whose type no earlier entry has, in their original order. */
  function FirstOccurrences(es: seq<Entry>): (r: seq<Entry>)
    ensures |r| <= |es|
    ensures forall x :: x in r ==> x in es
    ensures DistinctTypes(r)
    decreases |es|
  {
    if |es| == 0 then []
    else
      var init, e := es[..|es| - 1], es[|es| - 1];
      var f := FirstOccurrences(init);
      assert forall x :: x in init ==> x in es;
      if IsRepeat(init, e.kind) then f
      else
        assert forall x :: x in f ==> !SameType(x.kind, e.kind);
        f + [e]
  }

  /** The entry at `i` is the first of its type: no earlier entry's type is `===` to it. */
  predicate IsFirst(es: seq<Entry>, i: int)
    requires 0 <= i < |es|
  {
    !IsRepeat(es[..i], es[i].kind)
  }

  /** `ix` lists, in increasing order, exactly the positions of the first entries of each type in
      `es`, and `f` is the entries at those positions. */
  predicate KeptAt(es: seq<Entry>, f: seq<Entry>, ix: seq<int>) {
    && |ix| == |f|
    && (forall a :: 0 <= a < |ix| ==> 0 <= ix[a] < |es| && IsFirst(es, ix[a]) && f[a] == es[ix[a]])
    && (forall a, b :: 0 <= a < b < |ix| ==> ix[a] < ix[b])
    && (forall i :: 0 <= i < |es| && IsFirst(es, i) ==> i in ix)
  }

  /** The positions FirstOccurrences keeps: exactly the first entry of each type, in increasing
      order, so the dedup is the subsequence of the input made of those entries. */
  function FirstIndices(es: seq<Entry>): (ix: seq<int>)
    ensures KeptAt(es, FirstOccurrences(es), ix)
    decreases |es|
  {
    if |es| == 0 then []
    else
      var init, e := es[..|es| - 1], es[|es| - 1];
      var ix0 := FirstIndices(init);
      FirstsOfPrefix(es);
      if IsRepeat(init, e.kind) then
        assert FirstOccurrences(es) == FirstOccurrences(init);
        KeptRepeat(es, FirstOccurrences(init), ix0);
        ix0
      else
        assert FirstOccurrences(es) == FirstOccurrences(init) + [e];
        KeptFresh(es, FirstOccurrences(init), ix0);
        ix0 + [|es| - 1]
  }

  /** An entry before the last is first of its type in `es` exactly when it is in `es` without its
      last entry. */
  lemma FirstsOfPrefix(es: seq<Entry>)
    requires |es| > 0
    ensures forall i :: 0 <= i < |es| - 1 ==> (IsFirst(es, i) <==> IsFirst(es[..|es| - 1], i))
  {
    var init := es[..|es| - 1];
    forall i | 0 <= i < |init| ensures IsFirst(es, i) <==> IsFirst(init, i) {
      assert es[..i] == init[..i] && es[i] == init[i];
    }
  }

  /** The last entry repeats a type: the kept positions stay as they were. */
  lemma KeptRepeat(es: seq<Entry>, f: seq<Entry>, ix: seq<int>)
    requires |es| > 0 && KeptAt(es[..|es| - 1], f, ix) && IsRepeat(es[..|es| - 1], es[|es| - 1].kind)
    requires forall i :: 0 <= i < |es| - 1 ==> (IsFirst(es, i) <==> IsFirst(es[..|es| - 1], i))
    ensures KeptAt(es, f, ix)
  {
    var init := es[..|es| - 1];
    assert forall i :: 0 <= i < |init| ==> init[i] == es[i];
    assert !IsFirst(es, |es| - 1) by { assert es[..|es| - 1] == init; }
  }

  /** The last entry has a new type: its position is kept, after all the others. */
  lemma KeptFresh(es: seq<Entry>, f: seq<Entry>, ix: seq<int>)
    requires |es| > 0 && KeptAt(es[..|es| - 1], f, ix) && !IsRepeat(es[..|es| - 1], es[|es| - 1].kind)
    requires forall i :: 0 <= i < |es| - 1 ==> (IsFirst(es, i) <==> IsFirst(es[..|es| - 1], i))
    ensures KeptAt(es, f + [es[|es| - 1]], ix + [|es| - 1])
  {
    var init := es[..|es| - 1];
    assert forall i :: 0 <= i < |init| ==> init[i] == es[i];
    assert IsFirst(es, |es| - 1) by { assert es[..|es| - 1] == init; }
  }

  /** The dedup keeps the input's first-occurrence order: of two kept entries with string types,
      the earlier one's type occurs first in the input. */
  lemma FirstOccurrencesInOrder(es: seq<Entry>)
    ensures var f := FirstOccurrences(es);
      forall a, b :: 0 <= a < b < |f| && f[a].kind.Named? && f[b].kind.Named? ==>
        0 <= GroupIndex(es, f[a].kind) < GroupIndex(es, f[b].kind)
  {
    var f, ix := FirstOccurrences(es), FirstIndices(es);
    forall a | 0 <= a < |f| && f[a].kind.Named? ensures GroupIndex(es, f[a].kind) == ix[a] {
      var i := ix[a];
      assert SameType(es[i].kind, f[a].kind);
    }
  }

  /** The sum of the quantities of the entries whose type is the string `n`. */
  function TypeSum(es: seq<Entry>, n: string): int
    decreases |es|
  {
    if |es| == 0 then 0
    else TypeSum(es[..|es| - 1], n) + (if es[|es| - 1].kind == Named(n) then es[|es| - 1].quantity else 0)
  }

  /** What a group started by the first entry `f` of its type adds up to: every entry of a string
      type, or `f` alone when its type is an object. */
  function GroupTotal(es: seq<Entry>, f: Entry): int {
    if f.kind.Named? then TypeSum(es, f.kind.name) else f.quantity
  }

  /** One iteration of the grouping `forEach`. */
  function AddToGroups(gs: seq<Entry>, e: Entry): seq<Entry> {
    var i := GroupIndex(gs, e.kind);
    if i < 0 then gs + [Entry(e.kind, e.quantity)]
    else gs[i := gs[i].(quantity := gs[i].quantity + e.quantity)]
  }

  /** The grouping loop run over `es`. */
  function Grouped(es: seq<Entry>): seq<Entry>
    decreases |es|
  {
    if |es| == 0 then [] else AddToGroups(Grouped(es[..|es| - 1]), es[|es| - 1])
  }

  /** `normalizedCarTypes.forEach(...)` accumulating into `processedCarTypes`. */
  method GroupByType(es: seq<Entry>) returns (processed: seq<Entry>)
    ensures processed == Grouped(es)
  {
    processed := [];
    var i := 0;
    while i < |es|
      invariant 0 <= i <= |es|
      invariant processed == Grouped(es[..i])
    {
      var item := es[i];
      var existing := GroupIndex(processed, item.kind);
      if existing >= 0 {
        processed := processed[existing := processed[existing].(quantity := processed[existing].quantity + item.quantity)];
      } else {
        processed := processed + [Entry(item.kind, item.quantity)];
      }
      assert es[..i + 1][..i] == es[..i];
      i := i + 1;
    }
    assert es[..|es|] == es;
  }

  lemma SameTypeTransitive(a: TypeField, b: TypeField, c: TypeField)
    requires SameType(a, b) && SameType(b, c)
    ensures SameType(a, c)
  {
  }

  /** A type occurs in a list exactly when it occurs among the list's first occurrences. */
  lemma {:induction false} RepeatInFirsts(es: seq<Entry>, k: TypeField)
    ensures IsRepeat(es, k) <==> IsRepeat(FirstOccurrences(es), k)
    decreases |es|
  {
    if |es| > 0 {
      var init, e := es[..|es| - 1], es[|es| - 1];
      RepeatInFirsts(init, k);
      var f := FirstOccurrences(init);
      assert forall j :: 0 <= j < |init| ==> init[j] == es[j];
      if IsRepeat(es, k) {
        var j :| 0 <= j < |es| && SameType(es[j].kind, k);
        if j < |init| {
          assert IsRepeat(init, k);
          var g :| 0 <= g < |f| && SameType(f[g].kind, k);
          assert FirstOccurrences(es)[g] == f[g];
        } else if IsRepeat(init, e.kind) {
          var j' :| 0 <= j' < |init| && SameType(init[j'].kind, e.kind);
          SameTypeTransitive(init[j'].kind, e.kind, k);
          assert IsRepeat(init, k);
        } else {
          assert FirstOccurrences(es)[|f|] == e;
        }
      }
      if IsRepeat(FirstOccurrences(es), k) {
        var g :| 0 <= g < |FirstOccurrences(es)| && SameType(FirstOccurrences(es)[g].kind, k);
        assert FirstOccurrences(es)[g] in es;
      }
    }
  }

  /** A string type that no entry has sums to nothing. */
  lemma {:induction false} TypeSumAbsent(es: seq<Entry>, n: string)
    requires !IsRepeat(es, Named(n))
    ensures TypeSum(es, n) == 0
    decreases |es|
  {
    if |es| > 0 {
      var init := es[..|es| - 1];
      assert forall j :: 0 <= j < |init| ==> init[j] == es[j];
      assert !SameType(es[|es| - 1].kind, Named(n));
      TypeSumAbsent(init, n);
    }
  }

  /** The grouping keeps one group per type, in first-occurrence order: group `g` has the type of
      the `g`-th first occurrence, and its quantity is the sum over all entries of that type (an
      object type is never joined by another entry). */
  lemma {:induction false} GroupedByFirstOccurrence(es: seq<Entry>)
    ensures |Grouped(es)| == |FirstOccurrences(es)|
    ensures forall g :: 0 <= g < |Grouped(es)| ==>
              Grouped(es)[g].kind == FirstOccurrences(es)[g].kind &&
              Grouped(es)[g].quantity == GroupTotal(es, FirstOccurrences(es)[g])
    decreases |es|
  {
    if |es| > 0 {
      var init, e := es[..|es| - 1], es[|es| - 1];
      GroupedByFirstOccurrence(init);
      RepeatInFirsts(init, e.kind);
      var f, g0 := FirstOccurrences(init), Grouped(init);
      var gs := AddToGroups(g0, e);
      assert Grouped(es) == gs;
      if IsRepeat(init, e.kind) {
        assert FirstOccurrences(es) == f;
        GroupedRepeat(es, f, g0, gs);
      } else {
        assert FirstOccurrences(es) == f + [e];
        GroupedFresh(es, f, g0, gs);
      }
    }
  }

  /** The step of GroupedByFirstOccurrence where the last entry's type was seen before. */
  lemma GroupedRepeat(es: seq<Entry>, f: seq<Entry>, g0: seq<Entry>, gs: seq<Entry>)
    requires |es| > 0 && |g0| == |f| && DistinctTypes(f)
    requires forall g :: 0 <= g < |g0| ==>
               g0[g].kind == f[g].kind && g0[g].quantity == GroupTotal(es[..|es| - 1], f[g])
    requires IsRepeat(f, es[|es| - 1].kind)
    requires gs == AddToGroups(g0, es[|es| - 1])
    ensures |gs| == |f|
    ensures forall g :: 0 <= g < |gs| ==> gs[g].kind == f[g].kind && gs[g].quantity == GroupTotal(es, f[g])
  {
    var e := es[|es| - 1];
    var j :| 0 <= j < |f| && SameType(f[j].kind, e.kind);
    assert SameType(g0[j].kind, e.kind);
    var i := GroupIndex(g0, e.kind);
    assert i >= 0;
    assert f[i].kind == e.kind;
    assert gs == g0[i := g0[i].(quantity := g0[i].quantity + e.quantity)];
    forall g | 0 <= g < |f| ensures gs[g].quantity == GroupTotal(es, f[g]) {
      TotalStep(es, f, i, g);
    }
  }

  /** How one more entry of the type of `f[i]` moves each group's total. */
  lemma TotalStep(es: seq<Entry>, f: seq<Entry>, i: nat, g: nat)
    requires |es| > 0 && i < |f| && g < |f| && DistinctTypes(f)
    requires f[i].kind == es[|es| - 1].kind && f[i].kind.Named?
    ensures GroupTotal(es, f[g]) == GroupTotal(es[..|es| - 1], f[g]) + (if g == i then es[|es| - 1].quantity else 0)
  {
    if g != i && f[g].kind.Named? {
      if g < i {
        assert !SameType(f[g].kind, f[i].kind);
      } else {
        assert !SameType(f[i].kind, f[g].kind);
      }
    }
  }

  /** The step of GroupedByFirstOccurrence where the last entry's type is new. */
  lemma GroupedFresh(es: seq<Entry>, f: seq<Entry>, g0: seq<Entry>, gs: seq<Entry>)
    requires |es| > 0 && |g0| == |f|
    requires forall g :: 0 <= g < |g0| ==>
               g0[g].kind == f[g].kind && g0[g].quantity == GroupTotal(es[..|es| - 1], f[g])
    requires !IsRepeat(es[..|es| - 1], es[|es| - 1].kind) && !IsRepeat(f, es[|es| - 1].kind)
    requires gs == AddToGroups(g0, es[|es| - 1])
    ensures |gs| == |f| + 1
    ensures forall g :: 0 <= g < |gs| ==>
              gs[g].kind == (f + [es[|es| - 1]])[g].kind && gs[g].quantity == GroupTotal(es, (f + [es[|es| - 1]])[g])
  {
    var e := es[|es| - 1];
    assert !IsRepeat(g0, e.kind) by {
      forall j | 0 <= j < |g0| ensures !SameType(g0[j].kind, e.kind) {
        assert !SameType(f[j].kind, e.kind);
      }
    }
    assert gs == g0 + [Entry(e.kind, e.quantity)];
    forall g | 0 <= g < |f| ensures GroupTotal(es, f[g]) == GroupTotal(es[..|es| - 1], f[g]) {
      if f[g].kind.Named? {
        assert !SameType(f[g].kind, e.kind);
      }
    }
    if e.kind.Named? {
      TypeSumAbsent(es[..|es| - 1], e.kind.name);
    }
  }

  /** The same facts read per type: a string type that occurs has exactly one group, holding the
      sum of its quantities, and a type that does not occur has none. */
  lemma GroupedSums(es: seq<Entry>, n: string)
    ensures DistinctTypes(Grouped(es))
    ensures IsRepeat(es, Named(n)) <==> IsRepeat(Grouped(es), Named(n))
    ensures IsRepeat(es, Named(n)) ==>
              var g := GroupIndex(Grouped(es), Named(n));
              Grouped(es)[g].kind == Named(n) && Grouped(es)[g].quantity == TypeSum(es, n)
  {
    GroupedByFirstOccurrence(es);
    RepeatInFirsts(es, Named(n));
    var gs, f := Grouped(es), FirstOccurrences(es);
    assert forall a :: 0 <= a < |gs| ==> gs[a].kind == f[a].kind;
    assert DistinctTypes(gs) by {
      forall a, b | 0 <= a < b < |gs| ensures !SameType(gs[a].kind, gs[b].kind) {
        assert !SameType(f[a].kind, f[b].kind);
      }
    }
    assert IsRepeat(f, Named(n)) <==> IsRepeat(gs, Named(n)) by {
      assert forall a :: 0 <= a < |gs| ==> (SameType(gs[a].kind, Named(n)) <==> SameType(f[a].kind, Named(n)));
    }
  }

  /** A list whose types are already distinct is its own list of first occurrences. */
  lemma {:induction false} FirstOccurrencesOfDistinct(es: seq<Entry>)
    requires DistinctTypes(es)
    ensures FirstOccurrences(es) == es
  {
    if |es| > 0 {
      var init := es[..|es| - 1];
      assert DistinctTypes(init);
      FirstOccurrencesOfDistinct(init);
      assert !IsRepeat(init, es[|es| - 1].kind) by {
        forall j | 0 <= j < |init| ensures !SameType(init[j].kind, es[|es| - 1].kind) {
          assert init[j] == es[j];
        }
      }
    }
  }

  /** In a list without repeated types, a string type's sum is its one entry's quantity. */
  lemma {:induction false} TypeSumDistinct(es: seq<Entry>, g: nat)
    requires DistinctTypes(es) && g < |es| && es[g].kind.Named?
    ensures TypeSum(es, es[g].kind.name) == es[g].quantity
    decreases |es|
  {
    var init, n := es[..|es| - 1], es[g].kind.name;
    assert forall j :: 0 <= j < |init| ==> init[j] == es[j];
    if g == |es| - 1 {
      assert !IsRepeat(init, Named(n)) by {
        forall j | 0 <= j < |init| ensures !SameType(init[j].kind, Named(n)) {
          assert !SameType(es[j].kind, es[g].kind);
        }
      }
      TypeSumAbsent(init, n);
    } else {
      assert !SameType(es[g].kind, es[|es| - 1].kind);
      TypeSumDistinct(init, g);
    }
  }

  /** Grouping a list whose types are already distinct gives the list back. */
  lemma GroupedOfDistinct(es: seq<Entry>)
    requires DistinctTypes(es)
    ensures Grouped(es) == es
  {
    GroupedByFirstOccurrence(es);
    FirstOccurrencesOfDistinct(es);
    forall g | 0 <= g < |es| ensures Grouped(es)[g] == es[g] {
      if es[g].kind.Named? {
        TypeSumDistinct(es, g);
      }
    }
  }

  /** In a list that repeats no type, the entry of a type is found where it is. */
  lemma GroupIndexOfDistinct(gs: seq<Entry>, k: TypeField, i: nat)
    requires DistinctTypes(gs) && i < |gs| && SameType(gs[i].kind, k)
    ensures GroupIndex(gs, k) == i
  {
    var g := GroupIndex(gs, k);
    assert g >= 0 by { assert IsRepeat(gs, k); }
    SameTypeTransitive(gs[g].kind, k, gs[i].kind);
  }

  /** Appending an entry does not move the first entry of a type the list already has. */
  lemma GroupIndexSnoc(gs: seq<Entry>, e: Entry, k: TypeField)
    requires IsRepeat(gs, k)
    ensures GroupIndex(gs + [e], k) == GroupIndex(gs, k)
  {
    var a, b := GroupIndex(gs + [e], k), GroupIndex(gs, k);
    assert (gs + [e])[b] == gs[b];
  }

  /** The entry the dedup keeps for a type is the first entry of that type in the list. */
  lemma {:induction false} FirstOccurrenceOf(es: seq<Entry>, k: TypeField)
    requires IsRepeat(es, k)
    ensures var f := FirstOccurrences(es);
      0 <= GroupIndex(f, k) && f[GroupIndex(f, k)] == es[GroupIndex(es, k)]
    decreases |es|
  {
    var init, e := es[..|es| - 1], es[|es| - 1];
    var f0 := FirstOccurrences(init);
    RepeatInFirsts(init, k);
    assert es == init + [e];
    if IsRepeat(init, k) {
      FirstOccurrenceOf(init, k);
      GroupIndexSnoc(init, e, k);
      if !IsRepeat(init, e.kind) {
        GroupIndexSnoc(f0, e, k);
        assert (f0 + [e])[GroupIndex(f0, k)] == f0[GroupIndex(f0, k)];
      }
    } else {
      assert SameType(e.kind, k);
      assert !IsRepeat(init, e.kind) by {
        forall j | 0 <= j < |init| ensures !SameType(init[j].kind, e.kind) {
          assert !SameType(init[j].kind, k);
        }
      }
      assert !IsRepeat(f0, k);
      assert GroupIndex(f0 + [e], k) == |f0| by {
        assert forall j :: 0 <= j < |f0| ==> (f0 + [e])[j] == f0[j];
        assert SameType((f0 + [e])[|f0|].kind, k);
      }
      assert GroupIndex(es, k) == |init| by {
        assert forall j :: 0 <= j < |init| ==> es[j] == init[j];
      }
    }
  }
}
