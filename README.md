# Car-type ledger of a storefront theme, in Dafny

A Shopify theme lets a shopper pick, for each product, one or more vehicle types ("car
types": a make, a model and a year) and a quantity for each. The selection is kept
client-side as a small JSON ledger in the `cart_details` cookie:

    {cart_id, product_details: [{product_id, product_name, car_types: [{type, quantity}]}]}

Older versions of the theme stored a car type as a bare string, and the ledger may still hold
such entries. Four scripts read or change the ledger:

- `car-type-selector` (assets/car-type-selector.js) is the product-page form. It is a
  make → model → year cascade of selects filled from a remote options API, plus a seat-row
  lookup that opens or closes the "Full Set with 3rd Row" options. Its submit button adds the
  chosen car through the main ledger update, `updateCarTypeCookies`. That update does five
  things in order:
  1. loads the cookie, where missing or unreadable means empty;
  2. forces the cart id to the session's;
  3. migrates legacy strings;
  4. applies `add`, `increase`, `remove`, `decrease` or `setQuantity` in place;
  5. saves the result.
- `cart-type-display` (assets/cart-type-display.js) is the cart-line widget. It groups a
  product's entries by type, summing their quantities, and shows one row per group with quantity
  buttons. The buttons run the script's own copy of the ledger update (the "fallback") and then
  recompute the host cart line's quantity. The fallback's rules differ from the selector's:
  - `minus` subtracts the quantity passed;
  - only the first entry of a type is touched;
  - product entries are never removed, and an unknown product gets an entry with an empty list.
- `car-types-json` (assets/car-types-json.js) writes the ledger as readable text into a hidden
  cart-attribute textarea. There is one block per product, with its types grouped as the widget
  groups them, and blocks are separated by a dashed line.
- `car-types-display` (assets/car-types-display.js) lists one cart line's car types. It keeps
  the first entry of each type and does not sum.

Each script has its own copy of `getCookie`, and the cart-line widget has two. The copies are
identical: each prepends `"; "` to `document.cookie` and splits it on `"; name="`. `Cookies` models
them once.

The model has one module per script, plus shared modules:

| module | what it holds |
|---|---|
| `CartDetails` | the cookie's value and its lookups; the ledger invariant `WellFormed` |
| `Wrappers` | `Option` |
| `LedgerFacts` | what each elementary edit does to the lookups |
| `Entries` | the `{type, quantity}` records, both ways of collapsing repeated types, and the proofs that tie them together |
| `Cookies` | `getCookie` |
| `SelectorLedger`, `SelectorLedgerProperties` | the selector's ledger update as written, and what it promises |
| `SelectorWidget` | the cascade, as the class `CarTypeSelector` |
| `CartTypeDisplay`, `CartTypeDisplayProperties` | the cart-line widget: its fallback update, the host-cart arithmetic, the button rules, the row list |
| `CarTypesJson` | the textarea text |
| `CarTypesDisplay` | the deduplicated list and its remove button |
| `SelectorLedgerFixed`, `CartTypeDisplayFixed` | the corrected versions behind "## Findings" |

Where the code works step by step (the ledger updates, the grouping and dedup loops, the text
builder, the form handlers), it is a `method` with loops. Each such method is proved equal to a
specification function, and the lemmas are stated about those functions. Code that only computes
is written as functions.

Each row of the table below is either a method whose `ensures` clause ties it to its
specification function, or a lemma that states a promise about that function. The cookie and the
host cart are inputs and outputs of the model: the cookies the scripts read, the product name,
the session's cart id and the API's answers are parameters, and the saved ledger and the host
cart's new quantity are results.

The system's design description differs from the code in several places. The model follows the
code:

- The description says every legacy string is migrated on read. The code converts a list only
  when its first element is a string (see Findings).
- The description says `setQuantity` with 0 always removes the entry. The code loses the save,
  or renames the next product, when it removes a product's last type (see Findings).
- The description says the display widgets mutate the ledger through the shared `apply`. The
  cart-line widget's branch for that (assets/cart-type-display.js:341) tests for a method the
  selector does not define, so the widget always runs its own fallback. The fallback
  subtracts the quantity passed and leaves product entries with empty lists.
- The description says the host line is removed when no car type remains. The code removes it
  when at most one remains (see Findings).
- The description says a failed lookup leaves the dependent select disabled. `fetchMakes`
  re-enables its select in a `finally` block whatever the answer.
- The description says the submit quantity defaults to 1 when it is absent or not a number. The
  code defaults only when the quantity input is absent; a non-numeric value gives NaN.

## Model

| member | source | states |
|---|---|---|
| CartDetails.OrOne | assets/car-type-selector.js:498 | `q \|\| 1` is never 0, and is `q` whenever `q` is not 0 |
| CartDetails.ProductIndex | assets/car-type-selector.js:455-457 | the index of the first product with that id, and -1 exactly when no product has it |
| CartDetails.TypeIndex | assets/car-type-selector.js:479-481 | the index of the first entry matching the type (a string equal to it, or an object whose `type` is it), and -1 exactly when none matches |
| CartDetails.FindProduct | assets/cart-type-display.js:396 | a product of the list with that id; None exactly when no product has it; with unique ids, the one product that has it |
| Cookies.Before | assets/cart-type-display.js:332 | the longest prefix without ';'; the character after it, if there is one, is ';' |
| Cookies.SplitTwo | assets/cart-type-display.js:330-332 | splitting on a separator that starts with its only ';' gives exactly two pieces iff the separator occurs exactly once, and the second piece is then everything after it |
| Cookies.GetCookieSpec | assets/cart-type-display.js:328-333 | `getCookie` finds a value iff `"; name="` occurs exactly once in `"; " + document.cookie`, and the value is what follows that occurrence up to the next ';' |
| Cookies.GetCookieRoundTrip | assets/cart-type-display.js:328-333 | in a cookie string built from distinct names without ';' or '=' and values without ';', a name that was set reads back as its value, and a name that was not set reads as null |
| Entries.GroupIndex | assets/cart-type-display.js:106 | the first group whose type is `===` to the given one, -1 exactly when there is none |
| Entries.FirstOccurrences | assets/car-types-display.js:85-91 | keeps only entries of the input, never more of them than the input has, and no two share a type; its order is stated by FirstIndices and FirstOccurrencesInOrder |
| Entries.FirstIndices | assets/car-types-display.js:85-91 | the dedup is the subsequence of the input at exactly the positions whose entry is the first of its type, in increasing order (object types included) |
| Entries.FirstOccurrencesInOrder | assets/car-types-display.js:85-94 | of two kept entries with string types, the earlier one's type occurs first in the input: rows come in first-occurrence order even when a type repeats |
| Entries.GroupByType | assets/cart-type-display.js:101-115 | the grouping loop computes Grouped |
| Entries.RepeatInFirsts | assets/car-types-display.js:85-91 | a type occurs in a list iff it occurs among the entries the dedup keeps |
| Entries.GroupedByFirstOccurrence | assets/cart-type-display.js:101-115 | the grouping has one group per first occurrence, in first-occurrence order: the group has that entry's type and the sum of all quantities of that type (an object type joins no other entry) |
| Entries.GroupedSums | assets/car-types-json.js:73-87 | the groups repeat no type; a string type has a group iff an entry has that type, and the group holds the sum of that type's quantities |
| Entries.FirstOccurrenceOf | assets/car-types-display.js:85-91 | the entry the dedup keeps for a type is the first entry of that type in the input |
| Entries.GroupedOfDistinct | assets/cart-type-display.js:101-115 | grouping a list that repeats no type gives the list back unchanged |
| SelectorLedger.FilterOut | assets/car-type-selector.js:519-522 | the entries kept are exactly the input's entries that do not match the type; a list with distinct types stays distinct |
| SelectorLedger.FilterOutConcat | assets/car-type-selector.js:519-522 | filtering keeps order and multiplicity: filtering a concatenation concatenates the filtered parts |
| SelectorLedger.FilterOutSingle | assets/car-type-selector.js:519-522 | a one-entry list keeps its entry exactly when it does not match the type |
| SelectorLedger.MigrateInPlace | assets/car-type-selector.js:432-437 | the migration loop over the loaded products computes MigrateAll |
| SelectorLedger.AddInPlace | assets/car-type-selector.js:452-507 | `add`/`increase`, statement by statement, computes AddTo |
| SelectorLedger.DropTypeInPlace | assets/car-type-selector.js:519-528 | filtering a type out, then splicing out the emptied product, computes DropType |
| SelectorLedger.DecreaseInPlace | assets/car-type-selector.js:530-579 | `decrease` throws exactly when DecreaseIn says so, and otherwise computes it |
| SelectorLedger.SetInPlace | assets/car-type-selector.js:580-645 | `setQuantity` throws exactly when SetIn says so, and otherwise computes it |
| SelectorLedger.UpdateCarTypeCookies | assets/car-type-selector.js:358-660 | the whole call (load, cart id, migration, one action, save or throw) computes Apply |
| SelectorLedgerProperties.LoadWellFormed | assets/car-type-selector.js:411-445 | the load returns the session's cart id and a well-formed list: the stored list unchanged, or the empty list for a fresh session or a missing or unreadable cookie |
| SelectorLedgerProperties.MigrationEffect | assets/car-type-selector.js:432-437 | after the migration no list starts with a string; ids, names and lengths are kept; a list not starting with a string is untouched |
| SelectorLedgerProperties.AddToListEffect | assets/car-type-selector.js:477-503 | on a good list, adding `q >= 1` keeps the list good and non-empty, raises the type by exactly `q`, and leaves every other type's quantity alone. An absent type gets `{type, quantity: q}` appended at the end; otherwise only its own entry changes, in place (`TypePlaced`), and every other entry stays where it was |
| SelectorLedgerProperties.AddEffect | assets/car-type-selector.js:452-507 | on a well-formed ledger, `add` of `q >= 1` keeps it well formed and raises the type by exactly `q`. The product's name is refreshed. An unknown product is appended at the end; a known one is changed where it is, and every other product entry stays in place, unchanged. Inside a known product's list a new type goes at the end and an existing one is changed in place (`TypePlaced`). No other product's lookup and no other type's quantity changes |
| SelectorLedgerProperties.RemoveEffect | assets/car-type-selector.js:508-529 | `remove` keeps the ledger well formed and leaves the type at 0. The product goes exactly when it had no other type. An unknown product leaves the ledger unchanged. A product that goes is spliced out, the others keeping their order. A product that stays keeps its place and its name, and every other entry stays in place, unchanged. No other type's quantity changes |
| SelectorLedgerProperties.DropTypeEffect | assets/car-type-selector.js:519-528 | dropping a type from the product at an index keeps the ledger well formed and leaves the type at 0. The product goes exactly when all its entries were of that type, and is then spliced out, the others keeping their order. Otherwise it keeps its place and its name, and every other entry stays in place, unchanged. No other type's quantity changes |
| SelectorLedgerProperties.DecreaseEffect | assets/car-type-selector.js:530-579 | on a well-formed ledger, `decrease` never throws and takes exactly one unit (it has no quantity of its own). A type at 0 leaves the ledger unchanged. The product goes exactly when its only type had one unit, and is then spliced out, the others keeping their order. Otherwise it keeps its place and its name, and every other entry stays in place, unchanged. No other type's quantity changes |
| SelectorLedgerProperties.SetPositiveEffect | assets/car-type-selector.js:580-645 | on a well-formed ledger, `setQuantity` with `q >= 1` never throws and keeps the ledger well formed. The type becomes exactly `q` and the name is refreshed. An unknown product is appended at the end; a known one is changed where it is, and every other entry stays in place, unchanged. Inside a known product's list a missing type is appended at the end and an existing one is set in place (`TypePlaced`). No other type's quantity changes |
| SelectorLedgerProperties.SetNonPositiveEffect | assets/car-type-selector.js:605-636 | as written, `setQuantity` with `q <= 0` throws exactly when it takes the last type off the LAST product entry. Otherwise the ledger stays well formed, the type is 0, and no other quantity changes |
| SelectorLedgerProperties.RenameEffect | assets/car-type-selector.js:635 | writing a product name changes no quantity and keeps a well-formed ledger well formed |
| SelectorLedgerProperties.StepWellFormed | assets/car-type-selector.js:450-645 | every action keeps a well-formed ledger well formed, without throwing, given a named type and `q >= 1` for `add`, `increase` and `setQuantity` |
| SelectorLedgerProperties.ApplyWellFormed | assets/car-type-selector.js:358-660 | one whole call on a well-formed cookie saves, under the session's cart id, a well-formed ledger |
| SelectorLedgerProperties.ReplayWellFormed | assets/car-type-selector.js:358-660 | any sequence of such calls, each reading the cookie the previous one saved, leaves a well-formed cookie |
| SelectorLedgerProperties.AddThenDecreaseRoundTrip | assets/car-type-selector.js:452-579 | adding `q` of a type for a product the ledger does not list, then decreasing it `q` times, gives back exactly the original ledger |
| SelectorLedgerProperties.AddThenRemoveRoundTrip | assets/car-type-selector.js:452-529 | adding a type for an unlisted product, then removing it, gives back exactly the original ledger |
| SelectorLedgerProperties.MigrationDropsQuantities | assets/car-type-selector.js:432-437 | as written: a string after an object survives the load; an object after a leading string is wrapped whole into a new entry's `type`, so its quantity of 3 reads as 0 |
| SelectorLedgerProperties.DecreaseLegacyStringThrows | assets/car-type-selector.js:545-556 | as written: a `decrease` that reaches a surviving string entry throws, so nothing is saved |
| SelectorLedgerProperties.SetZeroRenamesNextProduct | assets/car-type-selector.js:607-636 | as written: setting a product's only type to 0 renames the next product; on the last product the call throws |
| SelectorLedgerFixed.MigrateEach | assets/car-type-selector.js:431-437 | the corrected migration leaves no string entry; every entry keeps its type and the quantity it counts for |
| SelectorLedgerFixed.LoadFixedKeepsQuantities | assets/car-type-selector.js:431-437 | the corrected migration changes no recorded quantity |
| SelectorLedgerFixed.LoadFixedWellFormed | assets/car-type-selector.js:411-445 | the corrected load returns the session's cart id and a well-formed list for a well-formed cookie |
| SelectorLedgerFixed.DecreaseFixedAgrees | assets/car-type-selector.js:530-579 | wherever the as-written `decrease` does not throw, the corrected one gives the same ledger |
| SelectorLedgerFixed.FilterReplaceMatching | assets/car-type-selector.js:564-567 | replacing an entry of a type by another entry of that type does not change the filtered list |
| SelectorLedgerFixed.DecreaseFixedOnLegacyString | assets/car-type-selector.js:545-573 | on a string entry, the corrected `decrease` takes its one unit: the type goes, and the product with its last type, exactly as `remove` does |
| SelectorLedgerFixed.SetFixedAgrees | assets/car-type-selector.js:580-645 | for `q >= 1`, the corrected `setQuantity` is the as-written one |
| SelectorLedgerFixed.SetFixedNonPositiveEffect | assets/car-type-selector.js:605-636 | the corrected `setQuantity` with `q <= 0` never throws and keeps the ledger well formed. It leaves the type at 0 and refreshes the name of a product still listed. A product that goes is spliced out, the others keeping their order. Otherwise only that entry changes, in place, and every other entry, with its name, stays as it was. An unknown product leaves the ledger unchanged. No other type's quantity changes |
| SelectorLedgerFixed.StepFixedWellFormed | assets/car-type-selector.js:450-645 | every corrected action keeps the ledger well formed, `setQuantity` at any quantity included |
| SelectorLedgerFixed.ReplayFixedWellFormed | assets/car-type-selector.js:358-660 | any sequence of corrected calls leaves a well-formed cookie |
| SelectorWidget.NonEmpty | assets/car-type-selector.js:80-87 | every option added is a non-empty answer, and every non-empty answer becomes an option |
| SelectorWidget.SeatRowsOf | assets/car-type-selector.js:197-241 | the seat rows recorded: 2 after a failed lookup, the answered count whenever it is not 0, and never 0 |
| SelectorWidget.SeatRule | assets/car-type-selector.js:310-330 | the third row is open iff the lookup answered with 3 or more rows, or with something that is not a number |
| SelectorWidget.Label | assets/car-type-selector.js:690 | the label is the make, a space, the model, a space and the year |
| SelectorWidget.Quantity | assets/car-type-selector.js:693-694 | the quantity input's value when the input exists, else 1 |
| SelectorWidget.CarTypeSelector.constructor | assets/car-type-selector.js:2-27 | submit starts disabled, the selects on their placeholders, `info` null |
| SelectorWidget.CarTypeSelector.AppendOptions | assets/car-type-selector.js:80-87 | the option loop computes NonEmpty |
| SelectorWidget.CarTypeSelector.FetchMakes | assets/car-type-selector.js:53-96 | the make options are the answer's non-empty entries (none on failure); the select ends enabled and on its placeholder; nothing else changes |
| SelectorWidget.CarTypeSelector.FetchModels | assets/car-type-selector.js:98-145 | the model options are the answer's non-empty entries; the select is enabled iff the answer is an array with at least one entry; nothing else changes |
| SelectorWidget.CarTypeSelector.FetchYears | assets/car-type-selector.js:147-195 | the same for the year select |
| SelectorWidget.CarTypeSelector.LimitOptionsBySeatRow | assets/car-type-selector.js:310-330 | every third-row input is disabled iff the row count is a number below 3 |
| SelectorWidget.CarTypeSelector.FetchSeatRows | assets/car-type-selector.js:197-241 | `info` holds SeatRowsOf of the answer, and the third-row inputs follow it; nothing else changes |
| SelectorWidget.CarTypeSelector.HandleMadeChange | assets/car-type-selector.js:243-267 | a cleared make disables model, year and submit; a chosen one reloads the models and resets the year; submit always ends disabled |
| SelectorWidget.CarTypeSelector.HandleModelChange | assets/car-type-selector.js:269-288 | a cleared model disables year and submit; a chosen one reloads the years; submit always ends disabled |
| SelectorWidget.CarTypeSelector.HandleYearChange | assets/car-type-selector.js:290-308 | submit ends enabled iff make, model and year are all chosen; a chosen year records the seat rows and sets the third-row inputs |
| SelectorWidget.CarTypeSelector.HandleProductAdd | assets/car-type-selector.js:680-715 | adds the label with the input's quantity through the ledger update; an enabled submit implies all three selects are chosen. Given a well-formed cookie and a quantity of at least 1, the call saves a well-formed ledger that holds exactly `quantity` more of the label for the product than the loaded one |
| CartTypeDisplay.NormalizeCarType | assets/cart-type-display.js:286-296 | an object with a truthy `type` keeps it with `quantity \|\| 1`; a string counts once; an object without a type becomes "[object Object]" with quantity 1; a good entry is unchanged |
| CartTypeDisplay.NormalizeCarTypes | assets/cart-type-display.js:281-297 | one normalised result per element, in order; a list of good entries is returned unchanged |
| CartTypeDisplay.WithProduct | assets/cart-type-display.js:395-408 | the product is listed afterwards |
| CartTypeDisplay.HandleQuantityUpdate | assets/cart-type-display.js:463-517 | the in-place update computes QuantityUpdated |
| CartTypeDisplay.ApplyAction | assets/cart-type-display.js:410-435 | the action dispatch computes FallbackStep |
| CartTypeDisplay.UpdateCarTypeCookies | assets/cart-type-display.js:335-460 | the fallback call saves FallbackApply, and sends the host cart HostUpdate computed from the saved ledger |
| CartTypeDisplay.AtLeastOne | assets/cart-type-display.js:595 | `Math.max(1, x)` is at least 1 and at least `x`, and is `x` when `x >= 1` |
| CartTypeDisplay.HostUpdate | assets/cart-type-display.js:586-629 | a new host quantity is sent only when the line exists and the value changes, and then it is the computed one; `add`/`increase` send current + 1 |
| CartTypeDisplay.UpdateServerCartQuantity | assets/cart-type-display.js:550-630 | the method computes HostUpdate |
| CartTypeDisplay.ValidateQtyRules | assets/cart-type-display.js:300-326 | minus is disabled iff the value is at most `min` (1 by default); plus is disabled iff the value is at least `max`, and never without a `max` or with a NaN value |
| CartTypeDisplay.DisplayOf | assets/cart-type-display.js:22-100 | the widget retries iff the cart cookie is empty; it says "No car types selected yet" iff there is no ledger cookie; it lists rows iff the product is in the ledger with car types |
| CartTypeDisplay.UpdateDisplay | assets/cart-type-display.js:22-242 | the method computes DisplayOf |
| CartTypeDisplay.ProductDataFor | assets/cart-type-display.js:883-915 | a product is returned iff the ledger's cart id is the session's and the ledger lists the product, and it is that product |
| CartTypeDisplayProperties.NormalizeIdempotent | assets/cart-type-display.js:281-297 | normalising twice is normalising once, except for a bare empty string, which changes again on the second pass |
| CartTypeDisplayProperties.IncrementIsAdd | assets/cart-type-display.js:463-517 | on a good list, the widget's increment is the selector's `add` |
| CartTypeDisplayProperties.IncrementList | assets/cart-type-display.js:479-506 | incrementing a good list by `q >= 1` keeps it good and non-empty, raises the type by `q`, and changes no other type. A new entry goes at the end; an existing one is raised in place (`TypePlaced`) |
| CartTypeDisplayProperties.DecrementList | assets/cart-type-display.js:486-512 | decrementing a good list by `q` leaves the type at `before - q`, or at 0 when that is not positive, and no other type changes. The list itself (`LoweredBy`) is unchanged for an absent type, has the type's entry spliced out when it drops to 0 or below, and otherwise has that entry lowered in place |
| CartTypeDisplayProperties.DecrementFirstMatchOnly | assets/cart-type-display.js:479-512 | on any list, decrementing touches only the first matching entry of the normalised list. Entries before it stay. Every later one keeps its order, later entries of the same type included. After a splice the type is still listed exactly when another entry of it follows |
| CartTypeDisplayProperties.RepeatedTypeMinus | assets/cart-type-display.js:479-512 | with two entries of one type, `minus` of 1 splices out the first (quantity 1) and leaves the second, so the type reads 2 afterwards |
| CartTypeDisplayProperties.WithProductEffect | assets/cart-type-display.js:395-408 | adding the empty entry for an unknown product changes no lookup, appends `{product_id, car_types: []}` at the end, and keeps the fallback invariant |
| CartTypeDisplayProperties.FallbackAddEffect | assets/cart-type-display.js:410-413 | `add` raises the type by exactly `q`, changes no other product's lookup and no other type's quantity, keeps the fallback invariant and keeps a well-formed ledger well formed. The product's list gets the type appended at the end, or its entry raised in place (`TypePlaced`) |
| CartTypeDisplayProperties.FallbackMinusEffect | assets/cart-type-display.js:413-416 | `minus` lowers the type by `q`, or to 0 when that is not positive, changes no other product's lookup and no other type's quantity, and keeps the invariant. The product stays listed, and its list is the one `LoweredBy` describes: unchanged for an absent type, its entry spliced out or lowered in place |
| CartTypeDisplayProperties.FallbackRemoveEffect | assets/cart-type-display.js:416-435 | `remove` leaves the type at 0, changes no other product's lookup and no other type's quantity, and keeps the invariant. The product stays listed: its list loses the type's entry by a splice, or stays as it was when the type is absent |
| CartTypeDisplayProperties.FallbackKeepsProducts | assets/cart-type-display.js:377-438 | no product entry is removed or moved, and ids and names stay. The product acted on is listed afterwards; when it was unknown it is appended without a name. An unknown action only adds that entry |
| CartTypeDisplayProperties.FallbackThenProductData | assets/cart-type-display.js:883-915 | right after the fallback saves, `getProductDataForProduct` finds the product |
| CartTypeDisplayProperties.DisplayedRows | assets/cart-type-display.js:101-235 | the rows repeat no type; a string type has a row iff an entry has it, showing the sum of its quantities, `\|\| 1`; plus is never disabled, and minus is disabled iff the shown value is at most 1 |
| CartTypeDisplayProperties.GoodListGroups | assets/cart-type-display.js:101-115 | a good list normalises and groups to itself |
| CartTypeDisplayProperties.DisplayOfWellFormed | assets/cart-type-display.js:22-242 | for a well-formed ledger the widget lists exactly the stored entries, in order, with their quantities |
| CartTypeDisplayProperties.FallbackDiffersFromSelector | assets/cart-type-display.js:410-435 | on one stored ledger the widget's `minus` takes the quantity passed where the selector's `decrease` takes one, and the widget's `remove` keeps the emptied product entry where the selector drops it |
| CartTypeDisplayFixed.HostMinusAsWritten | assets/cart-type-display.js:594-606 | as written, `minus` zeroes the host line iff at most one car type is left |
| CartTypeDisplayFixed.MinusZeroesHostWithTypeLeft | assets/cart-type-display.js:599-606 | as written: one `minus` on three Sedans leaves two in the ledger and removes the line from the host cart |
| CartTypeDisplayFixed.HostFixedAgrees | assets/cart-type-display.js:586-629 | the corrected arithmetic agrees with the as-written one except on `minus` with exactly one type left |
| CartTypeDisplayFixed.HostFixedMinus | assets/cart-type-display.js:599-606 | corrected: `minus` zeroes the line iff no type is left |
| CartTypeDisplayFixed.HostFixedZeroesOnlyEmpty | assets/cart-type-display.js:599-606 | corrected: after a `minus` on a consistent ledger, the host line is zeroed iff the ledger records no car type for the product any more |
| CarTypesJson.NatToString | assets/car-types-json.js:91 | decimal digits, at least one, with no leading zero |
| CarTypesJson.IntToStringRoundTrip | assets/car-types-json.js:91 | every quantity written reads back as that quantity, for the model's unbounded integers (the range where this matches the script is under "## Left out") |
| CarTypesJson.TextareaValue | assets/car-types-json.js:41-56 | a missing cookie clears the textarea; an unreadable one is copied in raw; no products gives "No car types selected yet." |
| CarTypesJson.WriteLines | assets/car-types-json.js:89-92 | the line loop computes Lines |
| CarTypesJson.ProductBlock | assets/car-types-json.js:62-96 | the block loop body computes Block |
| CarTypesJson.UpdateTextarea | assets/car-types-json.js:28-139 | the method computes TextareaValue |
| CarTypesJson.JoinedAround | assets/car-types-json.js:98-100 | an element of a joined list sits between those before and after it, with a separator on each side that has a neighbour |
| CarTypesJson.ProductSection | assets/car-types-json.js:61-100 | each product's block sits between the blocks before and after it, with a separator on each side that has a neighbour and none at either end |
| CarTypesJson.TypeListedOnce | assets/car-types-json.js:73-92 | a type the product holds is on exactly one line, `"  - " + type + ": " + sum + "\n"` |
| CarTypesJson.TypeNotListed | assets/car-types-json.js:73-92 | a type the product does not hold is on no line |
| CarTypesJson.BlockOfWellFormed | assets/car-types-json.js:62-96 | a well-formed product's block is its heading, then "Selected Car Types:", then its stored entries one per line, in order, with the stored quantities |
| CarTypesJson.TextareaMatchesWidget | assets/car-types-json.js:73-92 | both views are built from one grouping function, which is modelled once. The lemma records that the widget's rows and the textarea's lines come from the same groups, in the same order, and that the widget shows each sum `\|\| 1` where the textarea writes the sum. It is a consequence of that shared definition, not an agreement between two independent renderings |
| CarTypesDisplay.LegacyEntry | assets/car-types-display.js:78-83 | a string becomes `{type, quantity: 1}`; an object is kept, and `quantity \|\| 1` is what it counts for |
| CarTypesDisplay.DisplayFor | assets/car-types-display.js:43-62 | the error message shows iff the cookie is unreadable; a list shows iff the product is in the ledger with car types |
| CarTypesDisplay.Dedup | assets/car-types-display.js:85-91 | the dedup loop computes FirstOccurrences |
| CarTypesDisplay.DisplayCarTypesForProducts | assets/car-types-display.js:36-134 | the method computes DisplayFor |
| CarTypesDisplay.ListedItems | assets/car-types-display.js:85-104 | the items repeat no type, and a string type is listed iff the ledger's lookup finds it |
| CarTypesDisplay.ListedQuantity | assets/car-types-display.js:85-101 | an item shows the quantity of the first entry of its type, `\|\| 1` |
| CarTypesDisplay.ListedOfWellFormed | assets/car-types-display.js:78-104 | for a well-formed product the list is every stored entry, in order, with its quantity, the same as the grouping shows |
| CarTypesDisplay.GoodListShown | assets/car-types-display.js:78-91 | a good list is unchanged by the dedup and by the grouping |
| CarTypesDisplay.RepeatsShownDifferently | assets/car-types-display.js:85-101 | two entries of one type: this list shows the first quantity, while the grouping of the other two scripts holds the sum |
| CarTypesDisplay.RemoveButtonEffect | assets/car-types-display.js:112-127 | an item's remove button names a type the product holds, and the selector's `remove` on it keeps a well-formed ledger well formed, leaves the type at 0 and changes nothing else |

## Left out

- DOM rendering, HTML templates, CSS classes and event plumbing (custom events, listeners,
  `MutationObserver`, the one-second retry in `updateDisplay`): these are presentation. The model
  stops at the value each script shows or saves.
- The remote options API and the async races between its answers: each answer is a method
  parameter. Concurrent calls are not modelled.
- `setCookie`, its expiry dates and the cookie path: a save is the returned ledger, read back
  through `Persisted`.
- The selector's wait for a cart id and its `temp_<timestamp>_<random>` fallback id (clock and
  randomness): the id is the parameter `newCartId`.
- `getProductName`, `getCartItemLineForProduct` and `updateCarTypesInput` (DOM lookups): their
  results are parameters. The host cart's `updateQuantity` is a foreign call; the model computes
  only the quantity it would be sent.
- JavaScript's loose `==` on product ids: ids are strings compared with `==`.
- `parseInt` corner cases: a non-numeric quantity in the ledger or in the product form's
  quantity input is not modelled; quantities are integers. In the widget's own view, NaN is kept
  (`Num`).
- Quantities are unbounded integers, where the scripts hold JavaScript numbers (IEEE doubles).
  The model matches them only up to 2^53. Beyond that, sums round: `+=` at
  assets/car-types-json.js:80 and assets/cart-type-display.js:108 and 487, and `+` at
  assets/car-type-selector.js:499. From 1e21 up, the template at assets/car-types-json.js:91 prints
  exponent notation ("1e+21").
- CarTypesJson.IntToStringRoundTrip: proved for the model's decimal rendering of every integer.
  The script's text is that rendering only below 1e21, and its quantities are exact only up to
  2^53.
- Ledger values the model's types cannot hold are not modelled: `car_types` that is not an
  array, a `null` element, seat-row counts that are not integers, JSON itself (parsing and `;`
  inside values), and a parse result that is not an object.
- A `product_details` that is truthy but not an array is not modelled. A missing or falsy one is
  `None`. The selector treats any non-array as empty (assets/car-type-selector.js:429), and the
  model's `None` is exact for it. The other three scripts test only for a falsy value. On a
  truthy non-array they throw, and the model does not follow them:
  - the textarea's `forEach` throws and the raw cookie is written (assets/car-types-json.js:62,
    130-134);
  - the list's `.find` throws and the error message shows (assets/car-types-display.js:61,
    130-133);
  - the cart-line widget's `.find` throws before the save, so neither the cookie nor the host
    cart changes (assets/cart-type-display.js:396).
- A missing quantity and quantity 0 are merged; every script reads both through `quantity || 1`
  or as falsy.
- A missing `type` and `type: ""` are merged into one value, `Named("")`, and this merge loses
  behaviour:
  - The per-line list dedups with `===` (assets/car-types-display.js:88), so a typeless object
    and a `type: ""` object stay two items there. A typeless item is labelled "undefined", and
    its remove button carries `data-car-type="undefined"` (lines 99-102). The model shows one
    item labelled "".
  - In the selector, a `carType` of "" matches `type: ""` but never a typeless object
    (assets/car-type-selector.js:479-481, 519-522). The model matches both.
- The delegating branch of the cart-line widget's update (assets/cart-type-display.js:341-355)
  is dead code, because the method it tests for does not exist. The model runs the fallback only.
- `isThirdRowAlreadyDisabled` is set and never read. The reset of the selects' placeholders
  happens in the DOM and is not modelled.
- CarTypesDisplay.RemoveButtonEffect: states the button's effect on the loaded ledger through
  `Step`. The remove button calls the selector's whole update, and the load in front of it is
  covered by ApplyWellFormed.
- CartTypeDisplay.NormalizeCarTypes: the check for a list that is not an array
  (assets/cart-type-display.js:282-284) is not modelled, because lists are always sequences here.
- The textarea's own copy of the normalisation (assets/car-types-json.js:107-123) is the same
  function as the cart-line widget's and is modelled once, as CartTypeDisplay.NormalizeCarType.
- SelectorWidget.CarTypeSelector.FetchSeatRows: `this.info` keeps the raw `seat_rows` answer,
  which the model records already converted with `Number()`.

## Findings

| source | as written | input that shows it | evidently intended | confidence | as-written member | corrected member |
|---|---|---|---|---|---|---|
| assets/car-type-selector.js:433-435 | the migration converts a product's list only when its first element is a string, and then maps every element, objects included, with `type => ({type, quantity: 1})` | `car_types: ["Sedan", {type: "SUV", quantity: 3}]` loads as Sedan ×1 plus an entry whose `type` is the SUV object, so SUV reads as 0; `[{type: "Sedan", quantity: 2}, "SUV"]` keeps the string | every legacy string becomes `{type, quantity: 1}` and objects are kept (the comment at line 431) | high (not executed) | SelectorLedgerProperties.MigrationDropsQuantities | SelectorLedgerFixed.LoadFixedKeepsQuantities |
| assets/car-type-selector.js:547-553 | `decrease` declares the matched entry `const` and reassigns it after converting a string, which throws a TypeError before the save | a ledger `[{type: "Sedan", quantity: 2}, "SUV"]`, which the migration leaves alone, then `decrease` of "SUV" | the string counts as quantity 1 and is removed, as `setQuantity` (with `let`, line 597) does | high (not executed) | SelectorLedgerProperties.DecreaseLegacyStringThrows | SelectorLedgerFixed.DecreaseFixedOnLegacyString |
| assets/car-type-selector.js:618-635 | `setQuantity` with `q <= 0` splices out a product whose last type it removed, then writes `product_name` through the old index | products P1 (Sedan) and P2 (SUV), `setQuantity(P1, Sedan, 0)`: P2 is renamed "One"; with P1 alone the write throws and nothing is saved | refresh the name only while the product entry is still there | high (not executed) | SelectorLedgerProperties.SetZeroRenamesNextProduct | SelectorLedgerFixed.SetFixedNonPositiveEffect |
| assets/cart-type-display.js:603 | `minus` zeroes the host cart line when the saved ledger has at most one car type left for the product | three Sedans, one click on minus: the ledger keeps two Sedans and the product is removed from the host cart | remove the host line only when no car type is left (the comment at lines 599-600) | high (not executed) | CartTypeDisplayFixed.MinusZeroesHostWithTypeLeft | CartTypeDisplayFixed.HostFixedZeroesOnlyEmpty |
