# Tailor customer store — a Dafny model

The tailoring app (YOMES tailor PWA) keeps its customers in two globals of
`App.js`: the `customers` list and the `currentIndex` selection. Its user
gestures act on them: add a customer from two prompts, open a profile, go
back to the list, type a body measurement, search by name or phone, show the
customer and order counts. The list is also saved to and restored from the
browser storage key `tailorCustomers`.

This project models that store and proves what each operation does to it.

- `wrappers.dfy` (`Wrappers`): `Option`, which stands for JavaScript's `null`/`undefined`.
- `js_text.dfy` (`JsText`): the string operations the store relies on.
  `trim` strips the whole ECMAScript WhiteSpace/LineTerminator set.
  `toLowerCase` lowers ASCII letters. `includes` is defined as an infix occurrence.
- `records.dfy` (`Records`): the customer record, the measurement edit and id uniqueness.
- `search.dfy` (`CustomerSearch`): the search term and the filter predicate.
  It also holds `filter`, `findIndex`, the hits a search lists, and the matching positions the filter is checked against.
- `stats.dfy` (`CustomerStats`): the `reduce` that totals the orders.
- `store.dfy` (`CustomerStore`): class `Store`, holding `customers`, `currentIndex` and the storage slot.
  Its methods model `addCustomer`, `openProfile`, `backHome`, `updateMeasurement`, `saveToLocalStorage` and `loadFromLocalStorage`.

The browser's inputs are parameters:
- a `prompt` answer is an `Option<string>`, with `None` for a cancelled prompt;
- `Date.now()` is the `int` id, and the ISO creation time is a string;
- whether storage accepts a write is a `bool`;
- whether reading storage throws is a `bool`;
- what the storage slot holds is a `Slot`: absent, empty text, text JSON cannot parse, or a parsed list.

`Store.Valid()` says the selection is either absent or a position in the list.
Records are only ever appended, so every method that can run after start-up keeps it.

In these places the model follows the code where a reader might expect otherwise:
- An absent storage value leaves the list as it is; it does not reset it to empty. At start-up the list is already empty, so the two agree there.
- An empty stored string counts as absent, because it is falsy.
- `backHome` does not clear the selection.
- Ids are not guaranteed unique. `Date.now()` ids stay unique only when the new id differs from every existing one, so `AddCustomer` keeps uniqueness under that condition. Search hits address their own record only for a list with unique ids.

## Model

| member | source | states |
|---|---|---|
| `JsText.SkipWhitespaceForward` | App.js:35-36 | the run scanned from a start position is all whitespace and ends at the string's end or before a non-whitespace character |
| `JsText.SkipWhitespaceBackward` | App.js:35-36 | the run scanned back from an end position, never below a bound, is all whitespace and starts at the bound or after a non-whitespace character |
| `JsText.Trim` | App.js:35-36 | the result is an infix of the input, the cut-away parts on both sides are whitespace, it neither starts nor ends with whitespace, and it is empty exactly when the input is all whitespace |
| `JsText.ToLowerCase` | App.js:194 | same length; no upper-case ASCII letter remains; each character is kept or is the lower-case form of an upper-case letter |
| `JsText.TrimKeepsNoUpper` | App.js:186 | trimming a string without upper-case ASCII letters leaves none, so lower-casing before trimming yields a lower-case term |
| `JsText.Includes` | App.js:194-195 | `includes`: the empty string occurs in every string, an occurrence at any position counts, and no string longer than the searched one occurs |
| `JsText.IncludedKeepsNoUpper` | App.js:194 | whatever occurs in a lower-cased name holds no upper-case ASCII letter |
| `CustomerStore.Validated` | App.js:21-31 | a prompt answer is accepted exactly when it was given and is not whitespace only; the kept value is the trimmed answer, non-empty, with no whitespace at either end |
| `CustomerStore.Store.constructor` | App.js:2-3 | the script starts with an empty list and no selection, and storage is as earlier sessions left it |
| `CustomerStore.Store.Save` | App.js:52-60 | a successful write replaces the slot with a snapshot of the whole list and returns true; a refused write leaves the slot, returns false, and never rolls back the list |
| `CustomerStore.Store.Load` | App.js:63-72 | a throwing read or unparsable text empties the list; an absent or empty value leaves it unchanged; a parsed list replaces it; with no selection the store stays valid |
| `CustomerStore.Store.AddCustomer` | App.js:20-49 | a rejected name, or else a rejected phone, changes nothing and saves nothing; otherwise exactly one record is appended. The earlier records are unchanged. The new record has the trimmed name and phone, the given id, empty measurements, orders and notes. The list is saved; the customer count grows by one and the order total stays. Ids stay unique when the new id is fresh |
| `CustomerStore.Store.OpenProfile` | App.js:110-113 | an index outside the list leaves the selection unchanged; any other index becomes the selection; the selection stays absent or valid |
| `CustomerStore.Store.BackHome` | App.js:128-132 | the selection and the list are unchanged (the selection is not cleared) |
| `CustomerStore.Store.UpdateMeasurement` | App.js:173-182 | with no selection nothing changes and nothing is saved. Otherwise only the selected record changes: its measurement map gets `field := value`. The list is saved. Length, statistics and id uniqueness are preserved |
| `CustomerStore.EditSaveReload` | App.js:173-182 | opening a record and saving a measurement edits only that record; a page reloaded afterwards, a fresh store restored from the slot, holds the whole edited list with nothing selected; that record reads back the value and keeps its other measurements |
| `Records.WithMeasurement` | App.js:176-180 | the field reads back the value verbatim, and the map exists afterwards. Every other key reads as before. The key set gains only the field, and no other member of the record changes |
| `CustomerSearch.SearchTerm` | App.js:186 | the lower-cased, trimmed term is no longer than the input, holds no upper-case ASCII letter, and neither starts nor ends with whitespace |
| `CustomerSearch.Matches` | App.js:194-195 | the empty term matches every record; a term found in the lower-cased name or in the phone is a match; a term with an upper-case ASCII letter can match only through the phone, because only the name is lower-cased |
| `CustomerSearch.NameAnyCase` | App.js:186-194 | text that occurs in a customer's name when ASCII letter case is ignored (typed "ANA" for the name "Ana") matches that customer once the search lower-cases it |
| `CustomerSearch.NameMatchIgnoresCase` | App.js:186-195 | conversely, a lower-cased search text that the phone does not contain matches a customer only when it occurs in the name with letter case ignored, so the search leaves every other record out |
| `CustomerSearch.Filtered` | App.js:193-196 | the filter keeps records of the list that satisfy the name-or-phone predicate, never more records than the list has |
| `CustomerSearch.MatchingPositions` | App.js:193-196 | the matching positions in strictly increasing order; every position it lists matches, and every matching position is listed |
| `CustomerSearch.FilteredPicksMatchingPositions` | App.js:193-196 | the filter's result is exactly the records at the matching positions, in their original order |
| `CustomerSearch.FindIndex` | App.js:213 | returns -1 exactly when no record has the id; otherwise the first position holding the id |
| `CustomerSearch.Hits` | App.js:193-213 | no more hits than records; every hit's index lies in the list and addresses a record with the hit's id; for a non-empty term every hit is a matching record of the list, listed under the first position holding its id (`findIndex`) |
| `CustomerSearch.Search` | App.js:185-213 | input that is whitespace only lists the whole list in order, each record under its own position (as renderCustomerList does); any other input lists the hits for its non-empty lower-cased, trimmed term |
| `CustomerSearch.SearchTermBlank` | App.js:186-188 | the lower-cased, trimmed term is empty exactly when the input is whitespace only |
| `CustomerSearch.HitsSelectMatches` | App.js:193-213 | a non-empty term lists exactly the matching records in original order, each under an index no later than its own position |
| `CustomerSearch.HitIndexIsPosition` | App.js:212-213 | with unique ids each hit's index is its own position, so the record it opens is the hit, and that record matches the term |
| `CustomerStats.OrderCount` | App.js:235 | a record counts zero orders exactly when it has no order list or an empty one |
| `CustomerStats.TotalOrders` | App.js:234-236 | the total is at least the order count of every record |
| `CustomerStats.Stats` | App.js:231-236 | the customer count is the list length; the order count is the reduce's total; it is zero exactly when no record has an order |
| `CustomerStats.TotalOrdersZero` | App.js:234-236 | the total is zero exactly when every record's order count is zero |
| `CustomerStats.TotalOrdersAppend` | App.js:234-236 | the total of a concatenation is the sum of the totals |
| `CustomerStats.TotalOrdersFromFront` | App.js:234-236 | the left-to-right reduce equals the sum taken from the front |
| `CustomerStats.TotalOrdersReplace` | App.js:234-236 | replacing one record changes the total by the difference of the two records' order counts |
| `CustomerStats.StatsOfThreeCustomers` | App.js:231-236 | three customers with 0, 2 and 1 orders give 3 customers and 3 orders |

## Left out

- Rendering is not modelled. That covers `renderCustomerList`, `renderMeasurementsTable`, the markup of `searchCustomer` and the text `openProfile` and `updateStats` write into the page. It is presentation only; `Search` and `Stats` give the data those views show.
- `showNotification` and its timer are not modelled; they are display only. `AddOutcome` records which notice `addCustomer` would show.
- `printLabel`, `toggleSettings`, `toggleDarkMode`, `toggleLightMode`, `saveData` and the click listener in `initApp` are not modelled. They are window, print and theme glue; `saveData` is `Save` plus a notice.
- `initApp` is modelled as the constructor followed by `Load`.
- `localStorage`, `JSON.stringify` and `JSON.parse` are foreign calls. A successful save is assumed to store a snapshot that parses back to the same list. A parse that yields something other than a list of records is outside the `Slot` type.
- Records restored from storage are assumed to be well-formed. The model does not cover fields of the wrong type, missing names or phones, or missing notes.
- `JsText.ToLowerCase`: lowers ASCII letters only. It does not model Unicode case mapping beyond ASCII, such as accented Latin letters; Persian script has no case.
- `Store.Load`: keeps the store valid only when nothing is selected. The app restores only at start-up, when nothing is selected yet. A restore that shrinks the list under a selection is not modelled.
- Ids and counts are unbounded integers. JavaScript's double-precision numbers do not matter for a millisecond clock or realistic order counts.
- There is no delete and no order entry, because the app has neither.
