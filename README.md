# Inventory store: server handlers and client view, in Dafny

This project models the inventory application's server in `server.ts` and its browser client in `src/main.ts`.

The server keeps a collection of items in one JSON file. An item has an `id`, a `nombre` (name), a `cantidad` (quantity), an optional `precio` (price) and an optional `categoria` (category). Each handler reads the whole file, changes the collection, and writes the whole collection back:

- `POST /api/items` creates an item. When the id is already stored, it adds the body's quantity to that item instead.
- `PUT /api/items/:id` replaces the fields the body supplies.
- `DELETE /api/items/:id` removes the item and returns it.

The client side covered here consists of:

- `n`: a string read as a finite number, or null.
- `leerFormulario`: reads the form. It trims every field, tests the id, name and quantity, and builds the item.
- `filtrarOrdenar`: a case-insensitive search over name and category, then a stable sort of the array in place by the selected column.
- `refrescarKPIs`: the item count, the total units and the total value.

Modules:

- `Items`: the item record, JavaScript numbers (`Num`: finite or not), `??` on optional values, and unique ids.
- `JsText`: the JavaScript built-ins this code relies on, given bodies:
  - `trim`;
  - `toLowerCase` on A-Z;
  - `includes`;
  - the code-point order standing for `localeCompare`;
  - `Number(string)`;
  - `String(integer)`.
- `Server`: `findIndex`, each handler as a function from the collection read to what is written and answered (`PostStep`, `PutStep`, `DeleteStep`), and the handlers themselves as methods of a `Store` class. The class holds the backing file as a field and is proved against those functions.
- `Form`: `n` and `leerFormulario`, split into reading the fields (`Leer`) and testing them (`Validar`). It also covers the round trip through the "Editar" button, which fills the form from a stored item.
- `View`: the filter, the comparator, a stable insertion sort (`SortBy`) and the in-place array sort proved equal to it, `filtrarOrdenar`, and the KPIs with their invariance under reordering.
- `EndToEnd`: what the form sends to the server, and how the KPIs move when a POST, PUT or DELETE changes the collection.

Where the code may surprise a reader:

- The server does not trim `nombre`; only the form does.
- Neither the server nor the form checks that a price is non-negative.
- An empty quantity field reads as 0, because `Number("")` is 0, and the form accepts it.

## Model

| member | source | states |
|---|---|---|
| `Items.IsInteger` | server.ts:45 | decides `Number.isInteger`: a finite number with no fractional part; `PostStep` and `EndToEnd.FormItemAccepted` use it through `ValidPost` |
| `Items.Or` | server.ts:71-74 | computes `a ?? b` on optional values; `PutStep`, `PostSums` and `PostTwiceExisting` state it field by field |
| `Items.PrecioOrZero` | src/main.ts:171 | computes `x.precio ?? 0`, the price the sort and the value total use; `SortBySorted` states the order by it |
| `JsText.Trim` | src/main.ts:139-147 | the result of `trim` has no white space at either end |
| `JsText.TrimStartCutsSpace` | src/main.ts:139-147 | every character `trim` cuts from the start is white space |
| `JsText.TrimEndCutsSpace` | src/main.ts:139-147 | every character `trim` cuts from the end is white space |
| `JsText.TrimSlice` | src/main.ts:139-147 | `trim` returns a slice of its input, and every character cut from either end is white space |
| `JsText.TrimOfTrimmed` | src/main.ts:139-147 | a string with no white space at either end is its own trim |
| `JsText.Lower` | src/main.ts:158 | `toLowerCase` keeps the length and lower-cases every character in place |
| `JsText.Includes` | src/main.ts:163-164 | decides `s.includes(q)`; `IncludesIff` states that it holds exactly when `q` occurs in `s` at some index, and `IncludesEmpty` that the empty query always occurs |
| `JsText.IncludesIff` | src/main.ts:163-164 | `includes(q)` holds exactly when `q` occurs at some index as a contiguous piece |
| `JsText.IncludesOccurs` | src/main.ts:163-164 | when `includes(q)` holds, `q` occurs at some index |
| `JsText.OccursIncludes` | src/main.ts:163-164 | an occurrence of `q` at any index makes `includes(q)` hold |
| `JsText.IncludesEmpty` | src/main.ts:160 | every string includes the empty query |
| `JsText.LexLess` | src/main.ts:169 | decides the strict order on names that stands for `localeCompare`; `LexLessIrreflexive`, `LexLessTransitive`, `LexLessTotal` and `LexLessAsymmetric` state that it is a strict total order |
| `JsText.LexLessIrreflexive` | src/main.ts:169 | no name sorts before itself |
| `JsText.LexLessTransitive` | src/main.ts:169 | the name order is transitive |
| `JsText.LexLessTotal` | src/main.ts:169 | of two different names one sorts before the other |
| `JsText.LexLessAsymmetric` | src/main.ts:169 | two names are never each before the other |
| `JsText.NatToString` | src/main.ts:265 | `String(n)` of a natural number is non-empty, and its first and last characters are digits |
| `JsText.WholeOfNatToString` | src/main.ts:265-267 | reading the digits of `String(n)` gives `n` and carries on with what follows them |
| `JsText.UnsignedOfNatToString` | src/main.ts:87 | the digits of `n` read as the unsigned literal `n` |
| `JsText.IntToString` | src/main.ts:265-268 | computes `String(i)` for an integer: a minus sign for negatives, then the decimal digits; `ToNumberOfIntToString` and `IntToStringTrimmed` state that it reads back as `i` and has nothing to trim |
| `JsText.IntToStringTrimmed` | src/main.ts:265-268 | `String(i)` is non-empty and has no white space to trim |
| `JsText.ToNumberOfIntToString` | src/main.ts:87 | `Number(String(i)) == i` for every integer, negative ones included |
| `JsText.ToNumber` | src/main.ts:87 | computes `Number(s)`: surrounding white space ignored, `""` is 0, an optional sign, decimal digits with an optional point; `ToNumberOfIntToString` and the `Form.NOf…` lemmas state its values |
| `Form.N` | src/main.ts:86-89 | computes `n(x)`: the value of `Number(x)` when it is finite, else nothing; the `NOf…` lemmas below state it on each kind of input |
| `Form.NOfEmpty` | src/main.ts:86-89 | `n("")` is 0 |
| `Form.NOfWord` | src/main.ts:86-89 | `n("abc")` is null |
| `Form.NOfInfinity` | src/main.ts:86-89 | `n("Infinity")` and `n("-Infinity")` are null, because they are not finite |
| `Form.NOfSign` | src/main.ts:86-89 | a sign alone is null |
| `Form.NOfDecimal` | src/main.ts:86-89 | `n("12.5")` is 12.5 |
| `Form.NOfHalfDecimal` | src/main.ts:86-89 | `n(".5")` is 0.5 and `n("3.")` is 3 |
| `Form.NOfIntToString` | src/main.ts:86-89 | `n(String(i))` is `i` |
| `Form.IdAccepted` | src/main.ts:148 | decides the id test: present, not 0, an integer and above 0; `Validar` and `LeerFormulario` state that the form gives an item only when it holds |
| `Form.Leer` | src/main.ts:139-147 | the name read is trimmed; a category is present only when it is non-empty and trimmed; a price is present only when its field is non-empty after trimming |
| `Form.Validar` | src/main.ts:148-154 | an item is built exactly when the id is accepted (present, non-zero, an integer, above 0), the name is non-empty and the quantity is a number; it carries the values read, with the id as that integer |
| `Form.LeerFormulario` | src/main.ts:138-155 | the form gives an item exactly when its trimmed id is an accepted number, its trimmed name is non-empty and its trimmed quantity is a number; the item has an id above 0, a trimmed non-empty name and a trimmed non-empty category if any |
| `Form.LeerFormularioFields` | src/main.ts:139-153 | each field of the accepted item is the trimmed field read: a price only when its field is non-empty and finite, a category only when its field is non-empty |
| `Form.BadPrecioIsDropped` | src/main.ts:142-145 | a price field that is not a finite number gives an item without a price, not a rejected form |
| `Form.ValidarEditable` | src/main.ts:148-154 | the values of an editable item pass the tests and rebuild the item |
| `Form.ReadFormOf` | src/main.ts:265-269 | reading a form filled from an editable item yields that item's values |
| `Form.PrecioField` | src/main.ts:268 | the price field filled from an integer price, or left empty, reads back as that price or none |
| `Form.CategoriaField` | src/main.ts:269 | the category field filled from a trimmed non-empty category, or left empty, reads back as that category or none |
| `Form.IntegerField` | src/main.ts:265-268 | a field showing an integer is non-empty after trimming and reads back as that integer |
| `Form.LeerFormOf` | src/main.ts:265-269 | filling the form from an editable item with "Editar" and reading it yields that item |
| `Form.FormOf` | src/main.ts:265-269 | computes the five fields "Editar" fills from any stored item with integer quantity and price (`String` of id, quantity and price, the name, the category or `""`); `ReadFormOf` and `LeerFormOf` state that reading them back gives the item |
| `Server.IndexOf` | server.ts:48 | `findIndex` gives -1 or a position whose item holds the id |
| `Server.IndexOfFirst` | server.ts:48 | no item before the position found holds the id, and -1 comes back exactly when no item holds it |
| `Server.IndexOfIs` | server.ts:69 | the first position holding the id is the one found |
| `Server.IndexOfUnique` | server.ts:83 | under unique ids, any position holding the id is the one found |
| `Server.FindIndex` | server.ts:48 | the scanning loop returns what `IndexOf` specifies |
| `Server.NewItem` | server.ts:56-58 | computes the item POST appends for a fresh id; `PostCreates` states its fields |
| `Server.Merged` | server.ts:50-52 | computes the stored item after POST adds to it; `PostSums` states its fields |
| `Server.Overlay` | server.ts:71-75 | computes the item PUT stores, each field from the body when present; `PutStep` states its fields |
| `Server.IndexOfUpdate` | server.ts:50-52 | replacing the found item with another of the same id leaves it the one found |
| `Server.ValidPost` | server.ts:45 | decides POST's validation: an integer id above 0, a non-empty name and a finite quantity; `PostStep` states that 400 comes exactly when it fails |
| `Server.PostStep` | server.ts:37-62 | POST answers 400 and writes nothing exactly when the body fails validation (an integer id above 0, a non-empty name, a finite quantity); otherwise it writes a collection |
| `Server.PostSums` | server.ts:48-54 | on a stored id: the quantity is old plus body, price and category are overwritten only when supplied, id and name stay, every other item stays, the length stays, answer `sumado` with the updated item |
| `Server.PostCreates` | server.ts:55-61 | on a fresh id: the old collection plus one item at the end with the body's id, name and quantity, price and category only when supplied, answer `creado` with it |
| `Server.PostOnExisting` | server.ts:49-54 | POST on a stored id is one update at the found position |
| `Server.PutStep` | server.ts:65-77 | PUT answers 404 and writes nothing exactly when the id is absent; otherwise only the found item changes: it keeps its id, takes each field the body supplies and keeps the others, and is the answer |
| `Server.DeleteStep` | server.ts:80-87 | DELETE answers 404 and writes nothing exactly when the id is absent; otherwise it writes the collection without the found item, one shorter, and answers with the removed item |
| `Server.Store.constructor` | server.ts:19 | the store starts with the given file contents, or none |
| `Server.Store.Leer` | server.ts:21-27 | computes `leer()`: the file's collection, or `[]` when the file is missing or does not parse; `Post`, `Put` and `Delete` state their effect on what it reads |
| `Server.Store.Escribir` | server.ts:28-31 | the whole collection replaces the file |
| `Server.Store.Post` | server.ts:37-63 | the response and the new file are those of `PostStep` on the collection read; a rejected body leaves the file untouched |
| `Server.Store.Put` | server.ts:65-78 | the response and the new file are those of `PutStep` on the collection read; a missing id leaves the file untouched |
| `Server.Store.Delete` | server.ts:80-88 | the response and the new file are those of `DeleteStep` on the collection read; a missing id leaves the file untouched |
| `Server.PostKeepsIdsUnique` | server.ts:48-61 | a valid POST keeps the ids unique |
| `Server.PutKeepsIdsUnique` | server.ts:71-75 | PUT keeps the ids unique |
| `Server.PutEmptyPatch` | server.ts:71-77 | PUT with an empty body writes back what it read and answers with the unchanged item |
| `Server.DeleteRemovesId` | server.ts:83-87 | under unique ids, DELETE keeps the other items in order, keeps ids unique and leaves no item with the id, so a second DELETE answers 404 |
| `Server.PostTwiceFresh` | server.ts:48-61 | two POSTs of a new id give one new item at the end with the sum of both quantities and the later price and category |
| `Server.PostTwiceExisting` | server.ts:48-54 | two POSTs of a stored id add both quantities to it and leave every other item as it was |
| `Server.BoltScenario` | server.ts:37-88 | on an empty store: POST bolt ×10 creates it, POST bolt ×5 sums to 15, DELETE returns it with 15, a second DELETE is 404, and the file holds the empty collection |
| `View.Matches` | src/main.ts:162-164 | decides the search test: the query occurs in the lower-cased name or in the lower-cased category, absent as `""`; `FilterCorrect` states that the filter keeps exactly the items it accepts |
| `View.Filter` | src/main.ts:160-165 | the filter returns no more items than it is given |
| `View.FilterCorrect` | src/main.ts:160-165 | the filter keeps the items in order, keeps every matching item and keeps only matching ones |
| `View.FilterAppend` | src/main.ts:160-165 | one item more in the input adds it at the end of the result exactly when it matches, so every copy of a matching item is kept |
| `View.FilterEmptyQuery` | src/main.ts:160 | with the empty query the filter returns the collection unchanged |
| `View.FilterBoltNut` | src/main.ts:158-165 | searching "Bo" among Bolt and Nut keeps only Bolt |
| `View.FilterBoltNutBo` | src/main.ts:161-165 | the lower-cased query "bo" keeps Bolt and drops Nut |
| `View.BoltMatchesBo` | src/main.ts:163 | "Bolt" matches "bo" regardless of case |
| `View.NutMissesBo` | src/main.ts:163-164 | "Nut" without a category does not match "bo" |
| `View.LowerTrimBo` | src/main.ts:158 | the query "Bo" trims and lower-cases to "bo" |
| `View.LowerBo` | src/main.ts:158 | "Bo" lower-cases to "bo" |
| `View.KeyOf` | src/main.ts:166-172 | maps the selector value to a sort key, every value other than `id`, `nombre`, `cantidad` and `precio` to no key; `SortByNothing` states what no key does |
| `View.After` | src/main.ts:167-173 | decides whether the comparator returns a positive number for `a` and `b`; `AfterAsymmetric` and `NotAfterTransitive` state that it is consistent |
| `View.AfterAsymmetric` | src/main.ts:167-173 | the comparator never puts two items each after the other |
| `View.NotAfterTransitive` | src/main.ts:167-173 | "not after" is transitive for every key, so the comparator is consistent |
| `View.Insert` | src/main.ts:167-173 | an insertion step adds exactly one element |
| `View.SortBy` | src/main.ts:167-173 | the sort keeps the length |
| `View.InsertPermutes` | src/main.ts:167-173 | an insertion step adds exactly the inserted element to the multiset |
| `View.InsertElements` | src/main.ts:167-173 | an insertion step brings in no element other than the inserted one |
| `View.SortByPermutes` | src/main.ts:167-173 | the sort returns a permutation of its input |
| `View.InsertSorted` | src/main.ts:167-173 | inserting into an ordered list keeps it ordered |
| `View.SortedAppend` | src/main.ts:167-173 | an ordered list stays ordered when an element no item is after comes last |
| `View.SortBySorted` | src/main.ts:167-173 | the sort orders ids, names, quantities or prices (absent as 0) ascending |
| `View.SortByOfSorted` | src/main.ts:167-173 | an already ordered list is left as it is |
| `View.TiedTogether` | src/main.ts:167-173 | two items that each tie with a third are never one after the other |
| `View.TiesAppendOne` | src/main.ts:167-173 | one item more at the end adds it to the ties of `y` exactly when it ties with `y` |
| `View.InsertTies` | src/main.ts:167-173 | an insertion step keeps the order of the items tying with any `y`, the inserted item last among them |
| `View.SortByStable` | src/main.ts:167-173 | the sort is stable: for every `y`, the items tying with `y` come out in the order they went in |
| `View.SortByNothing` | src/main.ts:172 | an unknown sort key keeps the order |
| `View.InsertStops` | src/main.ts:167 | where the right-to-left scan stops (every later element belongs after `x`, the one before does not), `Insert` places `x` at that index |
| `View.HoleLeft` | src/main.ts:167 | moving the gap one place left in the array copies the element left of it |
| `View.HoleFilled` | src/main.ts:167 | writing the inserted element into the gap gives the inserted sequence |
| `View.OpenHole` | src/main.ts:167 | the inner loop shifts right the prefix items that belong after `x` and leaves a gap where `Insert` places `x` |
| `View.InsertInPlace` | src/main.ts:167 | one insertion step on the array: the prefix becomes `Insert` of the old prefix and the item, and the rest is untouched |
| `View.SortByPrefix` | src/main.ts:167 | sorting one more element of a prefix is one more insertion |
| `View.SortInPlace` | src/main.ts:167-173 | the in-place sort leaves the array as `SortBy` of its old contents |
| `View.FiltrarOrdenar` | src/main.ts:157-175 | with an empty trimmed query the caller's array itself is sorted and returned; otherwise the caller's array is untouched and a fresh array holds the sorted matches |
| `View.SumBy` | src/main.ts:179-182 | computes the fold `reduce((s, x) => s + f(x), 0)`; `SumByConcat`, `SumByRemoveAt` and `SumByPermutation` state how it behaves |
| `View.Units` | src/main.ts:179 | computes one item's term of the unit total, `x.cantidad ?? 0`; `PostKpis` and `DeleteKpis` state how the total moves |
| `View.Value` | src/main.ts:180-182 | computes one item's term of the value total, price (absent as 0) times quantity; `DeleteKpis` states how the total moves |
| `View.SumByConcat` | src/main.ts:179-182 | a sum over two concatenated collections is the sum of the two sums |
| `View.SumByAppendOne` | src/main.ts:179-182 | appending one item adds its term |
| `View.RemoveAtMultiset` | src/main.ts:179-182 | removing a position removes one occurrence from the multiset |
| `View.SumByRemoveAt` | src/main.ts:179-182 | a sum is the sum without one item plus that item's term |
| `View.SumByPermutation` | src/main.ts:179-182 | a sum does not depend on the order of the items |
| `View.RefrescarKpis` | src/main.ts:177-183 | computes the three figures: the item count, the sum of the quantities and the sum of price (absent as 0) times quantity; `KpisPermutation`, `PostKpis` and `DeleteKpis` state how they behave |
| `View.KpisPermutation` | src/main.ts:177-183 | all three figures are the same for any reordering of the collection |
| `View.KpisAfterSort` | src/main.ts:177-183 | the figures of the sorted collection are those of the unsorted one |
| `View.Render` | src/main.ts:189-192 | with an empty trimmed query the fetched array is sorted in place and is the view; otherwise it is left alone and the view holds its sorted matches; in both cases the figures shown are those of the collection fetched |
| `EndToEnd.FormItemAccepted` | server.ts:45-46 | every item the form accepts passes the server's validation, so its POST creates or sums and never answers 400 |
| `EndToEnd.BodyOf` | src/main.ts:115-120 | computes the POST body the server sees for a form item, its numbers finite; `FormItemAccepted` states that it passes validation |
| `EndToEnd.PatchOf` | src/main.ts:125-130 | computes the PUT body for a form item: name and quantity always, price and category when present; `EditKeepsPriceAndCategory` states its effect |
| `EndToEnd.BodyOfId` | src/main.ts:115-120 | the id the server looks up for a form item is the item's own |
| `EndToEnd.EditKeepsPriceAndCategory` | src/main.ts:233-241 | an update from the form sets the name and the quantity; a stored price or category is never removed |
| `EndToEnd.SumByUpdate` | src/main.ts:179-182 | replacing one item changes a sum by the difference of its terms |
| `EndToEnd.PostKpis` | src/main.ts:212-220 | after a valid POST the item count grows by one exactly when the id was new, and the units grow by the body's quantity |
| `EndToEnd.PutKpis` | server.ts:65-77 | after a PUT that finds the item the count stays, and the units and value change by the new item's share minus the old one's |
| `EndToEnd.DeleteKpis` | src/main.ts:271-275 | after a DELETE that finds the item, the count drops by one and the units and value drop by the removed item's share |

## Left out

- Express routing, CORS, JSON parsing of request bodies and files, and HTTP status codes: each handler's answer is a `Response` value that names its status. `GET /api/items` is only `Leer`.
- File-system failures of `escribir`, and the asynchrony of every handler. The lost-update race between concurrent requests is not modelled, because each handler here runs alone.
- Server.Store.Post: the coercions of `body` (`Number`, `String`, `??`) are not modelled. `PostBody` holds the values after them, so a `precio` that coerces to NaN, or to ±Infinity (the body string `"Infinity"`, say), cannot be represented. The server would store that number, and `JSON.stringify` writes it to the file and the answer as `precio: null`, which `Option<real>` cannot represent either.
- Server.Store.Put: the body's values are taken as already typed. The PUT handler stores whatever JSON value the body holds, unchecked.
- Server.Store.Put: ids in the path are integers. `Number(req.params.id)` of a non-integer path is not modelled, and such a path can only match nothing.
- Items stored without `cantidad` (the client's `?? 0`): every item here has a quantity.
- JsText.ToNumber: exponent forms (`1e3`) and the `0x`, `0o` and `0b` forms read as NaN here, though `Number` reads them as numbers.
- JavaScript numbers are exact reals here.
  - There is no floating-point rounding and no loss of precision for large integers.
  - There is no overflow. A digit string beyond about 1.8e308 reads as Infinity in JavaScript, so `n` gives null and `leerFormulario` rejects such an id or quantity, while `Form.N` reads a finite number.
  - A POST sum that overflows to Infinity is written to the file as `null`; here it stays finite.
- JsText.Lower: only A-Z is lower-cased; Unicode case mapping is not modelled.
- View.After: `localeCompare` is modelled as code-point lexicographic order, without locale collation. Above U+FFFF this also differs from JavaScript's UTF-16 code-unit order.
- Form.FormOf: fills the form only from items whose quantity and price are integers, because the decimal rendering of `String` for other numbers is not modelled. `IntToString` also writes every integer as plain digits, while JavaScript writes integers of 1e21 and above in exponent form (`String(1e21)` is `"1e+21"`).
- Form.LeerFormOf: the round trip covers only items whose quantity and price are integers, for the reason above. It also covers only items with an id above 0, a trimmed non-empty name and a trimmed non-empty category when there is one. Reading the form trims an untrimmed name or category, drops an empty category and rejects an id of 0 or below, so those items do not come back unchanged. The server stores such items, because it does not trim.
- `cantidad` is a real rather than an integer, because the code accepts any finite number as a quantity (`Number.isFinite`) and sums them.
- The DOM and `fetch`.
- The messages of `mensaje` and the formatting of `money`/`toFixed`.
- The row markup of `render`: only the figures it computes are modelled.
