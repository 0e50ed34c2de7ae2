/**
 * The form half of the `car-type-selector` element (assets/car-type-selector.js): three selects
 * (make, model, year) filled from the options API one after the other, the third-row options
 * the seat-row lookup enables or disables, and the submit button, enabled only once all three
 * are chosen. Each handler is a method of CarTypeSelector; the API's answers are the methods'
 * parameters. The submit handler hands its label to the ledger update of SelectorLedger.
 */
module SelectorWidget {
  import opened Wrappers
  import opened CartDetails
  import opened CartTypeDisplay
  import SelectorLedger
  import SelectorLedgerProperties

  /** What `fetchMakes`, `fetchModels` or `fetchYears` gets back: no usable answer (a network
      error, a status that is not ok, or a body without `success` and an array), or the array. */
  datatype ListResponse = ListFailed | Options(values: seq<string>)

  /** What `fetchSeatRows` gets back: no usable answer, or `data.seat_rows` read with Number(). */
  datatype SeatRowsResponse = SeatRowsFailed | SeatRows(rows: Num)

  /** The entries the `forEach` turns into options: every one that is not empty. */
  function NonEmpty(vs: seq<string>): (r: seq<string>)
    ensures |r| <= |vs|
    ensures forall i :: 0 <= i < |r| ==> r[i] != "" && r[i] in vs
    ensures forall v :: v in vs && v != "" ==> v in r
    decreases |vs|
  {
    if |vs| == 0 then []
    else
      var init := NonEmpty(vs[..|vs| - 1]);
      assert forall v :: v in vs[..|vs| - 1] ==> v in vs;
      if vs[|vs| - 1] != "" then init + [vs[|vs| - 1]] else init
  }

  /** `this.info.seat_rows` after `fetchSeatRows` (lines 197-241): the answer when it is truthy,
      else 2. */
  function SeatRowsOf(resp: SeatRowsResponse): (n: Num)
    ensures resp.SeatRowsFailed? ==> n == Int(2)
    ensures resp.SeatRows? && resp.rows != Int(0) ==> n == resp.rows
    ensures n != Int(0)
  {
    match resp
    case SeatRowsFailed => Int(2)
    case SeatRows(rows) => if rows == Int(0) then Int(2) else rows
  }

  /** `row_number < 3` (line 321); NaN compares false. */
  predicate ThirdRowDisabled(row: Num) {
    row.Int? && row.value < 3
  }

  /** The third row is closed unless the lookup answers with a number of rows of 3 or more, or
      with something that is not a number: a failed lookup counts as 2 rows. */
  lemma SeatRule(resp: SeatRowsResponse)
    ensures !ThirdRowDisabled(SeatRowsOf(resp)) <==> resp.SeatRows? && (resp.rows.NaN? || resp.rows.value >= 3)
  {
  }

  /** Line 690: the car-type label the submit button adds to the ledger. */
  function Label(made: string, model: string, year: string): (r: string)
    ensures |r| == |made| + |model| + |year| + 2
    ensures r[..|made|] == made && r[|made|] == ' '
    ensures r[|made| + 1..|made| + 1 + |model|] == model && r[|made| + 1 + |model|] == ' '
    ensures r[|made| + |model| + 2..] == year
  {
    var r := made + " " + model + " " + year;
    assert r[..|made|] == made;
    assert r[|made| + 1..|made| + 1 + |model|] == model;
    assert r[|made| + |model| + 2..] == year;
    r
  }

  /** `parseInt(quantityInput.value, 10)` when the quantity input exists, else 1 (lines 693-694). */
  function Quantity(quantityInput: Option<int>): (q: int)
    ensures quantityInput.Some? ==> q == quantityInput.value
    ensures quantityInput.None? ==> q == 1
  {
    quantityInput.GetOr(1)
  }

  class CarTypeSelector {
    /** The selects' current values ("" for the placeholder) and `disabled` flags. */
    var made: string
    var model: string
    var year: string
    var madeDisabled: bool
    var modelDisabled: bool
    var yearDisabled: bool
    /** The options after each select's placeholder. */
    var makeOptions: seq<string>
    var modelOptions: seq<string>
    var yearOptions: seq<string>
    var submitDisabled: bool
    /** `this.info.seat_rows`; None while `this.info` is null. */
    var info: Option<Num>
    /** The `disabled` flag of each "Full Set with 3rd Row" input on the page. */
    var thirdRow: array<bool>

    /** The cascade's invariant: submit is enabled only with a make, a model and a year chosen. */
    predicate Valid()
      reads this
    {
      !submitDisabled ==> made != "" && model != "" && year != ""
    }

    /** Lines 1-27: submit starts disabled and `this.info` null. The selects start on their
        placeholders, as the page renders them. */
    constructor(thirdRowOptions: array<bool>)
      ensures Valid()
      ensures made == "" && model == "" && year == ""
      ensures submitDisabled && info.None? && thirdRow == thirdRowOptions
      ensures makeOptions == [] && modelOptions == [] && yearOptions == []
    {
      made, model, year := "", "", "";
      madeDisabled, modelDisabled, yearDisabled := false, true, true;
      makeOptions, modelOptions, yearOptions := [], [], [];
      submitDisabled := true;
      info := None;
      thirdRow := thirdRowOptions;
    }

    /** The `forEach` appending an option per non-empty entry. */
    static method AppendOptions(values: seq<string>) returns (options: seq<string>)
      ensures options == NonEmpty(values)
    {
      options := [];
      var i := 0;
      while i < |values|
        invariant 0 <= i <= |values|
        invariant options == NonEmpty(values[..i])
      {
        assert values[..i + 1][..i] == values[..i];
        if values[i] != "" {
          options := options + [values[i]];
        }
        i := i + 1;
      }
      assert values[..|values|] == values;
    }

    /** `fetchMakes` (lines 53-96): the select is re-enabled whatever the answer. */
    method FetchMakes(resp: ListResponse)
      modifies this
      ensures makeOptions == (if resp.Options? then NonEmpty(resp.values) else [])
      ensures !madeDisabled && made == ""
      ensures model == old(model) && year == old(year) && submitDisabled == old(submitDisabled)
      ensures modelDisabled == old(modelDisabled) && yearDisabled == old(yearDisabled)
      ensures modelOptions == old(modelOptions) && yearOptions == old(yearOptions)
      ensures info == old(info) && thirdRow == old(thirdRow)
      ensures old(submitDisabled) ==> Valid()
    {
      madeDisabled := true;
      // Removing every option after the placeholder leaves the placeholder selected.
      makeOptions, made := [], "";
      if resp.Options? {
        makeOptions := AppendOptions(resp.values);
      }
      madeDisabled := false;
    }

    /** `fetchModels` (lines 98-145): the select stays disabled unless the answer is an array
        with at least one entry, empty or not. */
    method FetchModels(resp: ListResponse)
      modifies this
      ensures modelOptions == (if resp.Options? then NonEmpty(resp.values) else []) && model == ""
      ensures modelDisabled == !(resp.Options? && |resp.values| > 0)
      ensures made == old(made) && year == old(year) && submitDisabled == old(submitDisabled)
      ensures madeDisabled == old(madeDisabled) && yearDisabled == old(yearDisabled)
      ensures makeOptions == old(makeOptions) && yearOptions == old(yearOptions)
      ensures info == old(info) && thirdRow == old(thirdRow)
    {
      modelDisabled := true;
      modelOptions, model := [], "";
      if resp.Options? {
        modelOptions := AppendOptions(resp.values);
        if |resp.values| > 0 {
          modelDisabled := false;
        }
      }
    }

    /** `fetchYears` (lines 147-195), the same for the year select. */
    method FetchYears(resp: ListResponse)
      modifies this
      ensures yearOptions == (if resp.Options? then NonEmpty(resp.values) else []) && year == ""
      ensures yearDisabled == !(resp.Options? && |resp.values| > 0)
      ensures made == old(made) && model == old(model) && submitDisabled == old(submitDisabled)
      ensures madeDisabled == old(madeDisabled) && modelDisabled == old(modelDisabled)
      ensures makeOptions == old(makeOptions) && modelOptions == old(modelOptions)
      ensures info == old(info) && thirdRow == old(thirdRow)
    {
      yearDisabled := true;
      yearOptions, year := [], "";
      if resp.Options? {
        yearOptions := AppendOptions(resp.values);
        if |resp.values| > 0 {
          yearDisabled := false;
        }
      }
    }

    /** `limitOptionsBySeatRow` (lines 310-330): every third-row input disabled when the car has
        fewer than 3 rows, every one enabled otherwise. */
    method LimitOptionsBySeatRow(row: Num)
      modifies thirdRow
      ensures forall i :: 0 <= i < thirdRow.Length ==> thirdRow[i] == ThirdRowDisabled(row)
    {
      var disable := thirdRow.Length > 0 && ThirdRowDisabled(row);
      for i := 0 to thirdRow.Length
        invariant forall j :: 0 <= j < i ==> thirdRow[j] == disable
      {
        thirdRow[i] := disable;
      }
    }

    /** `fetchSeatRows` (lines 197-241). */
    method FetchSeatRows(resp: SeatRowsResponse)
      modifies this, thirdRow
      ensures info == Some(SeatRowsOf(resp))
      ensures forall i :: 0 <= i < thirdRow.Length ==> thirdRow[i] == ThirdRowDisabled(SeatRowsOf(resp))
      ensures made == old(made) && model == old(model) && year == old(year)
      ensures submitDisabled == old(submitDisabled) && thirdRow == old(thirdRow)
      ensures madeDisabled == old(madeDisabled) && modelDisabled == old(modelDisabled) && yearDisabled == old(yearDisabled)
      ensures makeOptions == old(makeOptions) && modelOptions == old(modelOptions) && yearOptions == old(yearOptions)
    {
      info := Some(SeatRowsOf(resp));
      LimitOptionsBySeatRow(info.value);
    }

    /** `handleMadeChange` (lines 243-267): a cleared make closes the model and year selects; a
        chosen one reloads the models and resets the year. Either way submit ends disabled. */
    method HandleMadeChange(selectedMade: string, models: ListResponse)
      requires Valid()
      modifies this
      ensures Valid() && submitDisabled && yearDisabled && year == "" && model == ""
      ensures made == selectedMade
      ensures selectedMade == "" ==> modelDisabled && modelOptions == old(modelOptions)
      ensures selectedMade != "" ==>
                modelOptions == (if models.Options? then NonEmpty(models.values) else []) &&
                modelDisabled == !(models.Options? && |models.values| > 0)
      ensures yearOptions == old(yearOptions) && makeOptions == old(makeOptions)
      ensures info == old(info) && thirdRow == old(thirdRow)
    {
      made := selectedMade;
      if selectedMade == "" {
        model, modelDisabled := "", true;
        year, yearDisabled := "", true;
        submitDisabled := true;
        return;
      }
      FetchModels(models);
      year, yearDisabled := "", true;
      submitDisabled := true;
    }

    /** `handleModelChange` (lines 269-288): a cleared model closes the year select; a chosen one
        reloads the years, which opens the select when there are any. Submit ends disabled. */
    method HandleModelChange(selectedModel: string, years: ListResponse)
      requires Valid()
      modifies this
      ensures Valid() && submitDisabled && year == ""
      ensures model == selectedModel && made == old(made)
      ensures selectedModel == "" ==> yearDisabled && yearOptions == old(yearOptions)
      ensures selectedModel != "" ==>
                yearOptions == (if years.Options? then NonEmpty(years.values) else []) &&
                yearDisabled == !(years.Options? && |years.values| > 0)
      ensures modelOptions == old(modelOptions) && makeOptions == old(makeOptions)
      ensures modelDisabled == old(modelDisabled) && info == old(info) && thirdRow == old(thirdRow)
    {
      model := selectedModel;
      if selectedModel == "" {
        year, yearDisabled := "", true;
        submitDisabled := true;
        return;
      }
      FetchYears(years);
      year := "";
      submitDisabled := true;
    }

    /** `handleYearChange` (lines 290-308): a chosen year looks up the seat rows, then enables
        submit when a make and a model are chosen too. */
    method HandleYearChange(selectedYear: string, seatRows: SeatRowsResponse)
      requires Valid()
      modifies this, thirdRow
      ensures Valid()
      ensures year == selectedYear && made == old(made) && model == old(model)
      ensures !submitDisabled <==> made != "" && model != "" && year != ""
      ensures selectedYear == "" ==> info == old(info) && thirdRow[..] == old(thirdRow[..])
      ensures selectedYear != "" ==>
                info == Some(SeatRowsOf(seatRows)) &&
                forall i :: 0 <= i < thirdRow.Length ==> thirdRow[i] == ThirdRowDisabled(SeatRowsOf(seatRows))
      ensures makeOptions == old(makeOptions) && modelOptions == old(modelOptions) && yearOptions == old(yearOptions)
      ensures modelDisabled == old(modelDisabled) && yearDisabled == old(yearDisabled) && thirdRow == old(thirdRow)
    {
      year := selectedYear;
      if selectedYear == "" {
        submitDisabled := true;
        return;
      }
      FetchSeatRows(seatRows);
      if made != "" && model != "" && selectedYear != "" {
        submitDisabled := false;
      }
    }

    /** `handleProductAdd` (lines 680-715): adds the label of the chosen car (`displayName`), with the quantity of
        the product's quantity input, through the selector's `updateCarTypeCookies`. The
        session's cart cookie, the new cart id it would fetch, the stored cookie and the product
        name are the inputs that call reads from outside. Given a well-formed cookie and a positive
        quantity, the saved ledger is well formed and holds `quantity` more of the label. */
    method HandleProductAdd(productId: string, quantityInput: Option<int>, cartCookie: string,
                            newCartId: string, cookie: Cookie, productName: string)
      returns (displayName: string, quantity: int, outcome: SelectorLedger.Outcome)
      requires Valid()
      ensures displayName == Label(made, model, year) && quantity == Quantity(quantityInput)
      ensures outcome == SelectorLedger.Apply(cartCookie, newCartId, cookie, productId, productName, displayName, Add, quantity)
      ensures !submitDisabled ==> made != "" && model != "" && year != ""
      ensures StoredWellFormed(cookie) && quantity >= 1 ==>
                && outcome.Saved?
                && WellFormed(outcome.ledger.products)
                && QuantityOf(outcome.ledger.products, productId, displayName)
                   == QuantityOf(SelectorLedger.Load(cartCookie, newCartId, cookie).products, productId, displayName) + quantity
    {
      displayName := Label(made, model, year);
      quantity := Quantity(quantityInput);
      outcome := SelectorLedger.UpdateCarTypeCookies(cartCookie, newCartId, cookie, productId, productName,
                                                     displayName, Add, quantity);
      if StoredWellFormed(cookie) && quantity >= 1 {
        var loaded := SelectorLedger.Load(cartCookie, newCartId, cookie);
        SelectorLedgerProperties.LoadWellFormed(cartCookie, newCartId, cookie);
        SelectorLedgerProperties.AddEffect(loaded.products, productId, productName, displayName, quantity);
      }
    }
  }
}
