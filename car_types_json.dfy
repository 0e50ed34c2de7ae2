/**
 * `updateTextarea` of the `car-types-json` element (assets/car-types-json.js:28-139): the
 * `cart_details` ledger written out as readable text for the hidden cart-attribute textarea.
 * Each product becomes a block headed by its name or id, listing its car types grouped as the
 * widget groups them, and blocks are joined by a dashed separator.
 *
 * TextareaValue is the specification; UpdateTextarea follows the script's two loops. The lemmas
 * say where each product's block sits in the text, what a block lists, and that every number
 * written reads back as the quantity it came from.
 */
module CarTypesJson {
  import opened Wrappers
  import opened CartDetails
  import opened Entries
  import opened CartTypeDisplay
  import CartTypeDisplayProperties

  // ---------------------------------------------------------------------------------------------
  // Numbers in template literals

  function DigitChar(d: nat): (c: char)
    requires d < 10
    ensures '0' <= c <= '9' && c as int - '0' as int == d
  {
    ('0' as int + d) as char
  }

  /** Every character of `s` is a decimal digit. */
  predicate Digits(s: string) {
    forall i :: 0 <= i < |s| ==> '0' <= s[i] <= '9'
  }

  /** The decimal digits of `n`, as `${n}` writes them: no leading zero. */
  function NatToString(n: nat): (r: string)
    ensures |r| >= 1 && Digits(r)
    ensures |r| > 1 ==> r[0] != '0'
    decreases n
  {
    if n < 10 then [DigitChar(n)] else NatToString(n / 10) + [DigitChar(n % 10)]
  }

  /** `${i}` for an integer: a minus sign, then the digits of its magnitude. */
  function IntToString(i: int): string {
    if i < 0 then "-" + NatToString(-i) else NatToString(i)
  }

  /** The value of a string of decimal digits. */
  function ParseNat(s: string): nat
    requires Digits(s)
    decreases |s|
  {
    if |s| == 0 then 0 else ParseNat(s[..|s| - 1]) * 10 + (s[|s| - 1] as int - '0' as int)
  }

  /** An optionally signed decimal numeral; None for any other string. */
  function ParseInt(s: string): Option<int> {
    if |s| > 1 && s[0] == '-' && Digits(s[1..]) then Some(0 - ParseNat(s[1..]) as int)
    else if |s| > 0 && Digits(s) then Some(ParseNat(s))
    else None
  }

  lemma {:induction false} ParseNatToString(n: nat)
    ensures ParseNat(NatToString(n)) == n
    decreases n
  {
    if n >= 10 {
      var s := NatToString(n);
      assert s[..|s| - 1] == NatToString(n / 10);
      ParseNatToString(n / 10);
    }
  }

  /** Every quantity the text shows reads back as that quantity. */
  lemma IntToStringRoundTrip(i: int)
    ensures ParseInt(IntToString(i)) == Some(i)
  {
    if i < 0 {
      NegativeRoundTrip(-i);
    } else {
      ParseNatToString(i);
      ParseDigits(NatToString(i));
    }
  }

  lemma NegativeRoundTrip(n: nat)
    ensures ParseInt("-" + NatToString(n)) == Some(0 - n)
  {
    ParseNatToString(n);
    ParseNegative(NatToString(n));
  }

  lemma ParseNegative(t: string)
    requires |t| >= 1 && Digits(t)
    ensures ParseInt("-" + t) == Some(0 - ParseNat(t) as int)
  {
    var s := "-" + t;
    assert s[1..] == t;
    assert s[0] == '-';
  }

  lemma ParseDigits(t: string)
    requires |t| >= 1 && Digits(t)
    ensures ParseInt(t) == Some(ParseNat(t) as int)
  {
    assert '0' <= t[0] <= '9';
  }

  // ---------------------------------------------------------------------------------------------
  // The text

  /** `${type}`: a string type as it is, an object type as String() writes any object. */
  function TypeText(k: TypeField): string {
    if k.Named? then k.name else "[object Object]"
  }

  /** `product.product_name || \`Product ${product.product_id}\`` */
  function Heading(p: Product): string {
    if p.name != "" then p.name else "Product " + p.id
  }

  /** Lines 90-92: one line per group. */
  function Line(g: Entry): string {
    "  - " + TypeText(g.kind) + ": " + IntToString(g.quantity) + "\n"
  }

  /** The strings of `ss`, one after another. */
  function Concat(ss: seq<string>): string
    decreases |ss|
  {
    if |ss| == 0 then "" else Concat(ss[..|ss| - 1]) + ss[|ss| - 1]
  }

  function LineTexts(gs: seq<Entry>): (ls: seq<string>)
    ensures |ls| == |gs| && forall i :: 0 <= i < |gs| ==> ls[i] == Line(gs[i])
  {
    seq(|gs|, i requires 0 <= i < |gs| => Line(gs[i]))
  }

  /** The lines of the groups `gs`, in order. */
  function Lines(gs: seq<Entry>): string {
    Concat(LineTexts(gs))
  }

  const NoneForProduct := "No car types selected for this product.\n"
  const Separator := "\n-----------------------------------\n\n"
  const NoneYet := "No car types selected yet."

  /** The groups a product's block lists (lines 73-87). */
  function Groups(p: Product): seq<Entry> {
    Grouped(NormalizedEntries(p.carTypes))
  }

  /** Lines 65-96: the block of one product. */
  function Block(p: Product): string {
    "Product: " + Heading(p) + "\n" +
    (if |p.carTypes| > 0 then "Selected Car Types:\n" + Lines(Groups(p)) else NoneForProduct)
  }

  function Blocks(ps: seq<Product>): (bs: seq<string>)
    ensures |bs| == |ps| && forall i :: 0 <= i < |ps| ==> bs[i] == Block(ps[i])
  {
    seq(|ps|, i requires 0 <= i < |ps| => Block(ps[i]))
  }

  /** The strings of `bs` with `sep` between neighbours. */
  function Joined(bs: seq<string>, sep: string): string
    decreases |bs|
  {
    if |bs| == 0 then ""
    else if |bs| == 1 then bs[0]
    else Joined(bs[..|bs| - 1], sep) + sep + bs[|bs| - 1]
  }

  /** The textarea's value after `updateTextarea`. A missing or empty cookie clears it; a cookie
      JSON.parse rejects is copied in as it is (lines 130-134). */
  function TextareaValue(cookie: Cookie): (text: string)
    ensures cookie.Absent? ==> text == ""
    ensures cookie.Corrupt? ==> text == cookie.raw
    ensures cookie.Json? && (cookie.value.products.None? || |cookie.value.products.value| == 0) ==> text == NoneYet
  {
    match cookie
    case Absent => ""
    case Corrupt(raw) => raw
    case Json(st) =>
      if st.products.None? || |st.products.value| == 0 then NoneYet
      else Joined(Blocks(st.products.value), Separator)
  }

  /** The `forEach` writing one line per group (lines 90-92). */
  method WriteLines(processed: seq<Entry>) returns (lines: string)
    ensures lines == Lines(processed)
  {
    lines := "";
    var j := 0;
    while j < |processed|
      invariant 0 <= j <= |processed|
      invariant lines == Lines(processed[..j])
    {
      LinesPrefix(processed, j);
      lines := lines + Line(processed[j]);
      j := j + 1;
    }
    assert processed[..|processed|] == processed;
  }

  /** The body of the `forEach` over the products (lines 65-96): the heading, then the grouping
      loop and the lines. */
  method ProductBlock(product: Product) returns (block: string)
    ensures block == Block(product)
  {
    var heading := "Product: " + Heading(product) + "\n";
    if |product.carTypes| > 0 {
      var processed := GroupByType(NormalizedEntries(product.carTypes));
      var lines := WriteLines(processed);
      block := heading + ("Selected Car Types:\n" + lines);
    } else {
      block := heading + NoneForProduct;
    }
  }

  /** `updateTextarea`, with its loop over the products adding a separator after every block but
      the last (lines 98-100). */
  method UpdateTextarea(cookie: Cookie) returns (text: string)
    ensures text == TextareaValue(cookie)
  {
    if cookie.Absent? {
      return "";
    }
    if cookie.Corrupt? {
      return cookie.raw;
    }
    var st := cookie.value;
    if st.products.None? || |st.products.value| == 0 {
      return NoneYet;
    }
    var ps := st.products.value;
    ghost var bs := Blocks(ps);
    text := "";
    var index := 0;
    while index < |ps|
      invariant 0 <= index <= |ps|
      invariant index == 0 ==> text == ""
      invariant 0 < index < |ps| ==> text == Joined(bs[..index], Separator) + Separator
      invariant index == |ps| ==> text == Joined(bs, Separator)
    {
      var block := ProductBlock(ps[index]);
      ghost var before := text;
      text := text + block;
      if index < |ps| - 1 {
        text := text + Separator;
      }
      JoinStep(bs, Separator, index, before, text);
      index := index + 1;
    }
  }

  // ---------------------------------------------------------------------------------------------
  // What the text says

  lemma {:induction false} JoinedSplit(bs: seq<string>, sep: string, i: nat)
    requires 0 < i < |bs|
    ensures Joined(bs, sep) == Joined(bs[..i], sep) + sep + Joined(bs[i..], sep)
    decreases |bs|
  {
    var init := bs[..|bs| - 1];
    if i == |bs| - 1 {
      assert bs[..i] == init;
      assert bs[i..] == [bs[|bs| - 1]];
    } else {
      JoinedSplit(init, sep, i);
      assert init[..i] == bs[..i];
      var tail := bs[i..];
      assert tail[..|tail| - 1] == init[i..];
      assert tail[|tail| - 1] == bs[|bs| - 1];
    }
  }

  lemma JoinedSnoc(bs: seq<string>, sep: string, b: string)
    ensures Joined(bs + [b], sep) == if |bs| == 0 then b else Joined(bs, sep) + sep + b
  {
    assert (bs + [b])[..|bs|] == bs;
  }

  /** One turn of the loop in UpdateTextarea: block `i` appended, then a separator unless it was
      the last. */
  lemma JoinStep(bs: seq<string>, sep: string, i: nat, before: string, after: string)
    requires i < |bs|
    requires i == 0 ==> before == ""
    requires 0 < i ==> before == Joined(bs[..i], sep) + sep
    requires after == before + bs[i] + (if i < |bs| - 1 then sep else "")
    ensures i + 1 < |bs| ==> after == Joined(bs[..i + 1], sep) + sep
    ensures i + 1 == |bs| ==> after == Joined(bs, sep)
  {
    JoinedSnoc(bs[..i], sep, bs[i]);
    assert bs[..i + 1] == bs[..i] + [bs[i]];
    assert bs[..|bs|] == bs;
  }

  /** Element `i` of a joined list sits between the elements before and after it, with a
      separator on each side that has a neighbour. */
  lemma JoinedAround(bs: seq<string>, sep: string, i: nat)
    requires i < |bs|
    ensures Joined(bs, sep) ==
      Joined(bs[..i], sep) + (if i > 0 then sep else "") + bs[i] +
      (if i < |bs| - 1 then sep else "") + Joined(bs[i + 1..], sep)
  {
    JoinedFrom(bs, sep, i);
    if i > 0 {
      JoinedSplit(bs, sep, i);
    } else {
      assert bs[i..] == bs;
      assert bs[..i] == [];
    }
  }

  /** The join of the elements from `i` on: element `i`, then the join of the rest behind a
      separator. */
  lemma JoinedFrom(bs: seq<string>, sep: string, i: nat)
    requires i < |bs|
    ensures Joined(bs[i..], sep) == bs[i] + (if i < |bs| - 1 then sep else "") + Joined(bs[i + 1..], sep)
  {
    var rest := bs[i..];
    if i < |bs| - 1 {
      JoinedSplit(rest, sep, 1);
      assert rest[..1] == [bs[i]];
      assert rest[1..] == bs[i + 1..];
    } else {
      assert rest == [bs[i]];
      assert bs[i + 1..] == [];
    }
  }

  /** Product `i`'s block sits in the text between the blocks before it and those after it, with a
      separator on each side that has a neighbour and none at either end. */
  lemma ProductSection(ps: seq<Product>, i: nat)
    requires i < |ps|
    ensures var bs := Blocks(ps);
      TextareaValue(Json(Stored(None, Some(ps)))) ==
        Joined(bs[..i], Separator) + (if i > 0 then Separator else "") + Block(ps[i]) +
        (if i < |ps| - 1 then Separator else "") + Joined(bs[i + 1..], Separator)
  {
    JoinedAround(Blocks(ps), Separator, i);
  }

  lemma {:induction false} ConcatSplit(ss: seq<string>, g: nat)
    requires g < |ss|
    ensures Concat(ss) == Concat(ss[..g]) + ss[g] + Concat(ss[g + 1..])
    decreases |ss|
  {
    var init := ss[..|ss| - 1];
    if g == |ss| - 1 {
      assert ss[..g] == init;
      assert ss[g + 1..] == [];
    } else {
      ConcatSplit(init, g);
      assert init[..g] == ss[..g];
      var tail := ss[g + 1..];
      assert tail[..|tail| - 1] == init[g + 1..];
    }
  }

  lemma LinesSplit(gs: seq<Entry>, g: nat)
    requires g < |gs|
    ensures Lines(gs) == Lines(gs[..g]) + Line(gs[g]) + Lines(gs[g + 1..])
  {
    ConcatSplit(LineTexts(gs), g);
    LineTextsPrefix(gs, g);
    LineTextsSuffix(gs, g + 1);
  }

  /** The lines of a prefix are the prefix of the lines. */
  lemma LineTextsPrefix(gs: seq<Entry>, g: nat)
    requires g <= |gs|
    ensures LineTexts(gs[..g]) == LineTexts(gs)[..g]
  {
    var l, m := LineTexts(gs[..g]), LineTexts(gs)[..g];
    forall k | 0 <= k < g ensures l[k] == m[k] {
      assert gs[..g][k] == gs[k];
    }
  }

  /** The lines of a suffix are the suffix of the lines. */
  lemma LineTextsSuffix(gs: seq<Entry>, g: nat)
    requires g <= |gs|
    ensures LineTexts(gs[g..]) == LineTexts(gs)[g..]
  {
    var l, m := LineTexts(gs[g..]), LineTexts(gs)[g..];
    forall k | 0 <= k < |gs| - g ensures l[k] == m[k] {
      assert gs[g..][k] == gs[g + k];
    }
  }

  lemma LinesSnoc(gs: seq<Entry>, g: Entry)
    ensures Lines(gs + [g]) == Lines(gs) + Line(g)
  {
    var ls := LineTexts(gs + [g]);
    assert ls[..|gs|] == LineTexts(gs);
  }

  lemma LinesPrefix(gs: seq<Entry>, j: nat)
    requires j < |gs|
    ensures Lines(gs[..j + 1]) == Lines(gs[..j]) + Line(gs[j])
  {
    assert gs[..j + 1] == gs[..j] + [gs[j]];
    LinesSnoc(gs[..j], gs[j]);
  }

  /** The groups' types are distinct, so a type is on one group at most. */
  lemma OnlyGroup(gs: seq<Entry>, g: nat, n: string)
    requires DistinctTypes(gs) && g < |gs| && gs[g].kind == Named(n)
    ensures forall h :: 0 <= h < |gs| && h != g ==> gs[h].kind != Named(n)
  {
    forall h | 0 <= h < |gs| && h != g
      ensures gs[h].kind != Named(n)
    {
      if h < g {
        assert !SameType(gs[h].kind, gs[g].kind);
      } else {
        assert !SameType(gs[g].kind, gs[h].kind);
      }
    }
  }

  /** A type the product holds is listed on exactly one line, with its quantities summed. */
  lemma TypeListedOnce(p: Product, n: string)
    requires IsRepeat(NormalizedEntries(p.carTypes), Named(n))
    ensures var gs := Groups(p);
      var g := GroupIndex(gs, Named(n));
      && 0 <= g < |gs|
      && Lines(gs) == Lines(gs[..g]) + ("  - " + n + ": " + IntToString(TypeSum(NormalizedEntries(p.carTypes), n)) + "\n") + Lines(gs[g + 1..])
      && forall h :: 0 <= h < |gs| && h != g ==> gs[h].kind != Named(n)
  {
    ListedAt(NormalizedEntries(p.carTypes), Groups(p), n);
  }

  /** The group of a type the entries hold is on one line of its own, with their sum. */
  lemma ListedAt(es: seq<Entry>, gs: seq<Entry>, n: string)
    requires gs == Grouped(es) && IsRepeat(es, Named(n))
    ensures var g := GroupIndex(gs, Named(n));
      && 0 <= g < |gs|
      && Lines(gs) == Lines(gs[..g]) + ("  - " + n + ": " + IntToString(TypeSum(es, n)) + "\n") + Lines(gs[g + 1..])
      && forall h :: 0 <= h < |gs| && h != g ==> gs[h].kind != Named(n)
  {
    GroupedSums(es, n);
    var g := GroupIndex(gs, Named(n));
    LinesSplit(gs, g);
    OnlyGroup(gs, g, n);
    assert TypeText(gs[g].kind) == n;
    assert Line(gs[g]) == "  - " + n + ": " + IntToString(TypeSum(es, n)) + "\n";
  }

  /** A type the product does not hold is on no line. */
  lemma TypeNotListed(p: Product, n: string)
    requires !IsRepeat(NormalizedEntries(p.carTypes), Named(n))
    ensures forall g :: 0 <= g < |Groups(p)| ==> Groups(p)[g].kind != Named(n)
  {
    var gs := Groups(p);
    GroupedSums(NormalizedEntries(p.carTypes), n);
    forall g | 0 <= g < |gs|
      ensures gs[g].kind != Named(n)
    {
      assert !SameType(gs[g].kind, Named(n));
    }
  }

  /** A stored list read as `{type, quantity}` records. */
  function StoredEntries(cts: seq<CarType>): (es: seq<Entry>)
    ensures |es| == |cts| && forall i :: 0 <= i < |cts| ==> es[i] == Entry(KeyOf(cts[i]), EntryQuantity(cts[i]))
  {
    seq(|cts|, i requires 0 <= i < |cts| => Entry(KeyOf(cts[i]), EntryQuantity(cts[i])))
  }

  /** The block of a well-formed product entry lists its stored entries one per line, in the
      stored order, with the stored quantities. */
  lemma BlockOfWellFormed(p: Product)
    requires ProductOk(p)
    ensures Block(p) == "Product: " + Heading(p) + "\n" + ("Selected Car Types:\n" + Lines(StoredEntries(p.carTypes)))
  {
    CartTypeDisplayProperties.GoodListGroups(p.carTypes);
    assert Groups(p) == StoredEntries(p.carTypes);
  }

  /** The textarea and the cart widget show the same types in the same order; the textarea writes
      the sum itself where the widget's input shows `quantity || 1`. */
  lemma TextareaMatchesWidget(productId: string, cartCookie: Option<string>, st: Stored, p: Product)
    requires DisplayOf(productId, cartCookie, Json(st)).Rows?
    requires st.products.Some? && FindProduct(st.products.value, productId) == Some(p)
    ensures var rows := DisplayOf(productId, cartCookie, Json(st)).rows;
      var gs := Groups(p);
      |rows| == |gs| &&
      forall i :: 0 <= i < |gs| ==> rows[i].carType == gs[i].kind && rows[i].shown == OrOne(gs[i].quantity)
  {
  }
}
