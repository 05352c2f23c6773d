# Product catalog store, modelled in Dafny

This project models `ProducManagement`, the in-memory product catalog class of
`productManagement.js`. A store holds a list of product records and an id
counter that starts at 1. It supports four operations:

- `addProduct` checks its six arguments, normalises the text fields (trim, then
  lower case) and rejects a duplicate code or title. It then appends a record
  whose id is the counter's value and advances the counter.
- `getAllProducts` lists the records.
- `getProductById` finds a record by id or fails.
- `removeProduct` filters out every record with a given product's id.

The project has four modules:

- `Wrappers` (wrappers.dfy): `Option`, `Result` and `Outcome`.
- `Text` (text.dfy): JavaScript's `String.prototype.trim` and `toLowerCase` on
  `seq<char>`, and the `Normalize` step built from them. It proves that trimming
  keeps an infix and drops only white space, and that normalising is idempotent.
- `ProductCatalog` (catalog.dfy): the catalog as a value (`Catalog`: records plus
  counter) with each operation as a pure function (`Add`, `FindById`, `Remove`).
  It defines the store's invariant and the lemmas about these functions: which
  error an add reports, what it appends, that the invariant is preserved, that
  lookups after an add and a remove answer correctly, and that an id once
  removed never comes back over any sequence of operations (`Run`).
- `Store` (store.dfy): the class `ProductManagement`. Its fields `products` and
  `autoIncrementId` are updated in place by its methods. Each method's contract
  ties the new state to the corresponding `ProductCatalog` function. The module
  also holds the script at the end of the source file (`Demo`) and a second
  scenario.

Thrown exceptions become `Fail(e)` or `Err(e)` results, with one `Error`
constructor per distinct `throw`. A failed operation leaves the store unchanged.
Arguments that may be `undefined` or `null` are `Option`s. JavaScript
truthiness (`!x`) treats `None`, `""` and `0` as falsy.

In three places the code does something other than what one might expect of
a product catalog, and the model follows the code:

- The presence check runs before trimming. A title made only of white space is
  therefore accepted and stored as `""` (`BlankTitleRecordedEmpty`,
  `BlankTitleAccepted`), although one might expect every required field to be
  non-empty after normalisation.
- The code is compared and stored exactly as passed, not normalised like the
  other text fields.
- Ids come from a counter that starts at 1 and is never decremented. They are
  not "previous maximum + 1": after the last record is removed, the next id
  still skips the removed one.

## Model

| member | source | states |
|---|---|---|
| Store.ProductManagement.constructor | productManagement.js:2-5 | a new store holds no products, its counter is 1, and the invariant holds |
| Store.ProductManagement.GetAllProducts | productManagement.js:7-12 | the products are listed in insertion order, and every listed record satisfies the records invariant (issued id, well formed, ids increasing, codes and titles distinct) |
| Store.ProductManagement.GetProductById | productManagement.js:14-22 | fails with NotFound(id) exactly when no record has the id; otherwise returns a stored record with that id, and it is the only one with that id; the result is the catalog lookup `FindById`, which `AddThenFind` and `RemoveThenFindFails` are about |
| Store.ProductManagement.AddProduct | productManagement.js:24-63 | succeeds exactly when the catalog function `Add` does; then the new state is `Add`'s result; otherwise it reports `Add`'s error and nothing changes; the invariant is kept either way |
| Store.ProductManagement.RemoveProduct | productManagement.js:65-67 | the new state drops exactly the records with the product's id, keeps the counter, and keeps the invariant |
| ProductCatalog.ParseInt | productManagement.js:39 | `parseInt` of a number in decimal notation truncates toward zero: the result is the integer within distance 1 of the value on the zero side |
| ProductCatalog.ParseIntWholeAndFraction | productManagement.js:39-42 | a whole number survives `parseInt` unchanged; a value strictly between -1 and 1 becomes 0, so such a stock is rejected |
| ProductCatalog.NewProductKeepsNormalizedInputs | productManagement.js:30-59 | a record built from texts that are already trimmed and lower case holds exactly the passed values (stock through parseInt) |
| ProductCatalog.AddSucceedsIff | productManagement.js:26-49 | an add succeeds if and only if all six arguments are present and truthy, the price is positive, the parsed stock is positive, the code is unused and the normalised title is unused |
| ProductCatalog.AddFailure | productManagement.js:26-49 | a failed add reports the first failing check, in the source's order: missing data, price, stock, duplicate code, duplicate normalised title |
| ProductCatalog.AddAppends | productManagement.js:51-61 | a successful add keeps every earlier record, appends exactly one record whose id is the old counter, and advances the counter by one |
| ProductCatalog.BlankTitleRecordedEmpty | productManagement.js:26-31 | when an add succeeds with a title made only of white space, the recorded title is the empty string |
| ProductCatalog.BlankTitleAccepted | productManagement.js:26-31 | an add with the title "   " on the empty catalog succeeds and records title "" |
| ProductCatalog.EmptyInv | productManagement.js:2-5 | the empty catalog with counter 1 satisfies the invariant |
| ProductCatalog.AddPreservesInv | productManagement.js:24-63 | a successful add keeps ids issued and increasing, codes and titles distinct, and every record well formed |
| ProductCatalog.IndexOfId | productManagement.js:15 | returns the position of the first record with the id, scanning from the front as `find` does, or the length when no record has it |
| ProductCatalog.AddThenFind | productManagement.js:15-61 | after a successful add, looking up the new id yields the new record and every other id answers as before |
| ProductCatalog.WithoutId | productManagement.js:66 | the filter keeps exactly the records whose id differs, and never grows the list |
| ProductCatalog.WithoutIdAppend | productManagement.js:66 | the filter distributes over concatenation, so the kept records stay in their order |
| ProductCatalog.RemoveAbsentIsNoop | productManagement.js:66 | removing an id that no record has leaves the list unchanged |
| ProductCatalog.RemoveThenFindFails | productManagement.js:14-22 | after removing an id, looking it up fails with NotFound |
| ProductCatalog.RemoveKeepsRecordsInv | productManagement.js:65-67 | filtering keeps the records invariant |
| ProductCatalog.RemovePreservesInv | productManagement.js:65-67 | a removal keeps the invariant of the whole catalog |
| ProductCatalog.RemovePresentDropsOne | productManagement.js:65-67 | since ids are distinct, removing an id that is present shortens the list by exactly one |
| ProductCatalog.StepKeepsInv | productManagement.js:24-67 | any single add or remove keeps the invariant, never lowers the counter, and never brings back an absent id below the counter |
| ProductCatalog.RemovedIdNeverReturns | productManagement.js:24-67 | over any sequence of adds and removes, an issued id that is absent stays absent: ids are never reused |
| Text.ToLowerChar | productManagement.js:31-33 | lower-cases an upper-case letter by moving it 32 code points up, fixes every other character, never yields an upper-case letter, and keeps white space white space |
| Text.ToLower | productManagement.js:31-33 | lower-cases character by character and keeps the length |
| Text.ToLowerLowers | productManagement.js:31-33 | after lower-casing no upper-case letter is left, and a string without one is returned unchanged |
| Text.Trim | productManagement.js:31-33 | the result is no longer than the input and neither starts nor ends with white space |
| Text.LeadingWhiteSpace | productManagement.js:31-33 | counts the white-space prefix: everything before the count is white space, and the character at the count is not |
| Text.TrimIsInfix | productManagement.js:31-33 | trim keeps the infix right after the leading white space, and everything after that infix is white space: only white space is dropped |
| Text.NormalizeIsNormalized | productManagement.js:31-33 | a trimmed, lower-cased string has no white space at either end and no upper-case letter |
| Text.NormalizedIsFixed | productManagement.js:31-33 | a string with no white space at either end and no upper-case letter is left unchanged by normalisation |
| Text.NormalizeIdempotent | productManagement.js:31-33 | normalising twice gives the same result as normalising once |
| Text.AllWhiteSpaceNormalizesToEmpty | productManagement.js:31 | a string made only of white space normalises to the empty string |
| Store.ScriptTextsNormalized | productManagement.js:74-75 | the texts the script passes are already trimmed and lower case |
| Store.FirstRecorded | productManagement.js:74 | the script's first call is complete and builds the record with id 1 |
| Store.SecondRecorded | productManagement.js:75 | the script's second call is complete and builds the record with id 2 |
| Store.FirstAddSucceeds | productManagement.js:74 | the first add on the empty catalog succeeds and leaves one record and counter 2 |
| Store.SecondAddSucceeds | productManagement.js:75 | the second add succeeds because its code and title are new, and leaves both records and counter 3 |
| Store.Demo | productManagement.js:70-78 | the script run against the class lists both products in order, and the lookup of id 1 finds the first one |
| Store.ScenarioTitlesLowered | productManagement.js:31 | "Widget" and "Gadget" normalise to "widget" and "gadget" |
| Store.ScenarioTextsNormalized | productManagement.js:32-33 | the scenario's descriptions and thumbnails are already normalised |
| Store.ScenarioLeavesGadget | productManagement.js:24-67 | adding a widget and a gadget and then removing id 1 leaves only the gadget, with id 2, and the counter at 3 |

## Left out

- Console output (`console.log` in `getAllProducts`, `getProductById` and `addProduct`) is not modelled. `GetAllProducts` returns the list it would print, and `GetProductById` returns the record it would print.
- The throw at productManagement.js:18 applies `new` to a template string, which raises a TypeError rather than the intended error. The model reports `NotFound(id)` in both cases, because either way the lookup ends in an exception and the store is unchanged.
- Price and stock are `real` numbers, not IEEE-754 doubles. `parseFloat` of a number is the identity, so it is not modelled. NaN and the infinities are not modelled.
- ProductCatalog.ParseInt: covers only numbers that JavaScript prints in plain decimal notation. For magnitudes of at least 1e21 or below 1e-6, `parseInt` reads the exponent form's leading digits instead.
- Arguments of the wrong JavaScript type (a number as title, a string as price, which `parseFloat` and `parseInt` would parse) are not modelled. Each argument has its natural type.
- Text.ToLowerChar: lower-cases only ASCII and Latin-1 Supplement capitals. The rest of Unicode's case mapping, including multi-character mappings, is not modelled.
- Strings are sequences of characters, not UTF-16 code units, so surrogate pairs are not modelled.
- `getProductById` compares ids with `===`. The model compares integers, so a string id never matching a numeric one is not modelled.
- ProductCatalog.RemovedIdNeverReturns: ids and the counter are unbounded integers. In the program the counter is a JavaScript number, and once it reaches 2^53 the `++` at productManagement.js:52 no longer changes it. Ids are therefore never reused only below that bound.
- Persistence to a file and an update operation are not part of this class and are not modelled.
- Aliasing of the stored record objects (a caller mutating a record after adding it) is not modelled: records are values.
