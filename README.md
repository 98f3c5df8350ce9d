# Bookshelf API handlers in Dafny

This project models the request handlers of a small REST service for a
bookshelf. The service keeps one in-memory, ordered collection of book
records and offers five operations:

- add a book (`POST /books`);
- list the books, with optional `name`, `reading` and `finished` query
  parameters (`GET /books`);
- get one book by id (`GET /books/{bookId}`);
- update a book by id (`PUT /books/{bookId}`);
- delete a book by id (`DELETE /books/{bookId}`).

Every handler answers with an HTTP code, a `status` of `success` or `fail`,
and a body: a message, the new book's id, a list of `{id, name, publisher}`
projections, or one full record.

Files:

- `wrappers.dfy`: the `Option` datatype.
- `text.dfy` (module `Text`): the list handler's case-insensitive name test,
  with a proof that it agrees with a position-wise definition, and
  JavaScript's `Number(...)` for query-string values.
- `handler.dfy` (module `Handler`): the book record, request body, query and
  response datatypes, and the validation shared by add and update. It also
  holds the record scans (`Filter`, `Project` and `FindIndex`), the read-only
  handlers `ListBooks` and `GetBookById`, and the class `Shelf`. `Shelf` owns
  the collection as a `seq<Book>` field, and its methods `AddBook`,
  `UpdateBook` and `DeleteBook` change that field in place. Lemmas at the
  end relate one handler to another, for example add then get, or delete
  then get.

Add, update and delete take the generated id and the current time stamp as
parameters. The shared collection is the `books` field of a `Shelf` built
from a given initial sequence.

The list handler is modelled as the code is written. When `name` is not
truthy but `reading` is, the code builds a filtered listing for `reading`,
never returns it, and falls through to the `finished` filter. The model
computes that listing and discards it in the same way. A `reading`-only query
therefore lists nothing (`ReadingAloneListsNothing`), because comparing with
`Number(undefined)` means comparing with NaN. The order of the branches and
their comments (src/handler.js:116, 139-140, 157) suggest that one filter is
applied at a time, `name` first, then `reading`, then `finished`; the code does
not do that for `reading`, and this model follows the code.

## Model

| member | source | states |
|---|---|---|
| Handler.Truthy | src/handler.js:23 | JavaScript truthiness of a query value or of the body's `name`, as tested by `!name`, `!reading` and `!finished` (also at lines 99, 116, 139 and 225): present and not the empty string |
| Handler.NewBook | src/handler.js:44-62 | the record add pushes: the given id, the body's fields, `finished` set to `readPage == pageCount`, and both `insertedAt` and `updatedAt` set to `now` |
| Handler.Revised | src/handler.js:247-265 | the record update stores in place of the old one: the old record with every body field written over it, `finished` recomputed as `pageCount == readPage`, `updatedAt` set to `now`; `id` and `insertedAt` come from the old record |
| Handler.AsNumber | src/handler.js:142 | `Number(book.reading)` and `Number(book.finished)` (line 159): 1 for true, 0 for false |
| Handler.Keeps | src/handler.js:120 | the filter callbacks: the id test at line 185, the name test at line 120, and the comparisons of `Number(book.reading)` and `Number(book.finished)` with the coerced query value at lines 142 and 159, where a NaN query value matches no record |
| Handler.Validate | src/handler.js:23-42 | add and update reject a body whose `name` is missing or empty, and otherwise one whose `readPage > pageCount`; the name check comes first, and a body passes exactly when it meets both |
| Handler.ValidInputGivesWellFormed | src/handler.js:45-62 | a record built from a valid body, by add or by update, has `readPage <= pageCount` and `finished` equal to `readPage == pageCount`; add stamps `insertedAt == updatedAt == now`; update keeps `id` and `insertedAt` |
| Handler.Filter | src/handler.js:117-121 | a `filter` over the collection keeps only records of the collection that pass the test, and never yields more records than it scans |
| Handler.FilterAppend | src/handler.js:64-66 | filtering distributes over concatenation, so the selected records keep their collection order |
| Handler.FilterMembers | src/handler.js:158-160 | a record is selected exactly when it is in the collection and passes the test |
| Handler.FilterNone | src/handler.js:158-160 | a test that no record passes selects the empty list |
| Handler.Project | src/handler.js:104-108 | the projection has one `{id, name, publisher}` entry per record, at the same position |
| Handler.FindIndex | src/handler.js:250 | `findIndex` gives -1 exactly when no record has the id, and otherwise the position of the first record with that id |
| Handler.FirstMatchIsFound | src/handler.js:185 | the first element of `filter(id matches)` is the record at the `findIndex` position, and the filter is empty when that position is -1 |
| Handler.ListBooks | src/handler.js:92-176 | every listing is a 200 `success` list of projections, never longer than the collection |
| Handler.ListWithoutQuery | src/handler.js:99-114 | with no truthy query parameter, the listing has one `{id, name, publisher}` entry per record, in collection order |
| Handler.ListByName | src/handler.js:116-137 | a truthy `name` ignores the other parameters and lists, in order, exactly the records whose name contains the query at some position, ignoring case |
| Handler.ListByFinished | src/handler.js:139-175 | with `name` falsy and `reading` or `finished` truthy, the listing holds exactly the records whose `Number(finished)` equals `Number` of the `finished` parameter, in order |
| Handler.ReadingAloneListsNothing | src/handler.js:139-160 | a truthy `reading` with no `finished` parameter lists nothing, because the reading listing is discarded and `Number(undefined)` is NaN |
| Handler.FinishedFlagQuery | src/handler.js:157-175 | `finished=1` lists every finished record and nothing else, and `finished=0` lists every unfinished one and nothing else |
| Handler.GetBookById | src/handler.js:179-205 | get-by-id answers 200 or 404 |
| Handler.GetByIdFindsFirst | src/handler.js:185-204 | get-by-id returns 200 with the first record whose id matches, or 404 with the not-found message when none matches |
| Handler.AddedBookIsFound | src/handler.js:44-79 | after a successful add under a fresh id, get-by-id for that id returns the stored record |
| Handler.AddedBookIsListed | src/handler.js:64 | a successful add appends its projection to the end of the unfiltered listing |
| Handler.RevisedBookIsFound | src/handler.js:250-265 | after an update of a known id, get-by-id returns the revised record |
| Handler.DeletedBookIsGone | src/handler.js:293-302 | when ids are unique, get-by-id answers 404 for an id once its record is deleted |
| Handler.RemovePreservesUnique | src/handler.js:296 | removing one element keeps ids unique |
| Handler.ReplacePreservesUnique | src/handler.js:253-265 | replacing a slot with a record that has the same id keeps ids unique |
| Handler.Shelf.constructor | src/handler.js:7 | the shelf starts with the given initial collection |
| Handler.Shelf.AddBook | src/handler.js:10-89 | a rejected body gives the matching 400 message and leaves the collection unchanged; a valid body appends exactly one record and answers 201 with the id, so the 500 branch is never taken; the new record has the id, `finished == (readPage == pageCount)` and `insertedAt == updatedAt == now`; well-formed records stay well-formed, and unique ids stay unique when the id is fresh |
| Handler.Shelf.UpdateBook | src/handler.js:209-285 | validation runs before the lookup, so a bad body gets 400 even for an unknown id; an unknown id gives 404 and leaves the collection unchanged; a known id rewrites only the first matching slot, keeping its `id` and `insertedAt`, taking the body's fields, recomputing `finished` and setting `updatedAt` to `now`; the length and every other slot stay the same; well-formedness and unique ids are preserved |
| Handler.Shelf.DeleteBook | src/handler.js:288-310 | a known id removes exactly the first matching record (`old[..i] + old[i+1..]`), shrinks the collection by one and answers 200; an unknown id gives 404 and leaves the collection unchanged; well-formedness and unique ids are preserved |
| Text.Lowered | src/handler.js:119 | lower-casing keeps the length and lower-cases each character at its own position |
| Text.ContainsIff | src/handler.js:119-120 | the left-to-right substring search succeeds exactly when the needle occurs at some position |
| Text.ContainsIgnoringCaseIff | src/handler.js:116-121 | the name test succeeds exactly when, at some position, the name's letters equal the query's letters without regard to case |
| Text.ContainsIgnoringCase | src/handler.js:119-120 | `nameRegex.test(book.name)` taken as a literal pattern: the lower-cased query occurs in the lower-cased name |
| Text.JsNumber | src/handler.js:142 | `Number(...)` of a query value (also at line 159): an absent value is NaN (`None`), a string of decimal digits, the empty one included, gives its value, and any other string is NaN |
| Text.DecimalRoundTrip | src/handler.js:159 | reading back the decimal numeral of a non-negative integer gives that integer |
| Text.JsNumberOfDecimal | src/handler.js:159 | `Number` of the decimal numeral of a non-negative integer is that integer |

## Left out

- The web framework's response toolkit and the request plumbing (`request.payload`, `request.params`, `request.query`) are replaced by plain parameters and the `Response` datatype.
- `nanoid(16)` random id generation: the id is a parameter of `AddBook`. Randomness cannot be modelled, so freshness appears as the hypothesis of the id-uniqueness postcondition.
- `new Date().toISOString()`: the current time is an opaque string parameter `now`.
- ListBooks: the `name` filter is modelled as a literal substring test that ignores ASCII case. It is not a JavaScript regular expression: metacharacters in the query are not interpreted, and Unicode case folding beyond A-Z is not modelled. The `g` flag has no effect because a new expression is built for every record. A `name` that is not a valid pattern (for example `(`, `[` or `c++`) makes `new RegExp` throw while the first record is filtered, and the framework then answers 500 instead of a listing (an empty collection still gets 200 with an empty list); the model does not reproduce this error path and answers 200 with the literal matches for every `name`.
- JavaScript's loose typing is not modelled. Body fields are typed (`name` is an optional string, page counts are integers, `reading` is a boolean), so `!name` is true only for a missing or empty name. Non-string names and `undefined` page counts are not modelled.
- Text.JsNumber: `Number(...)` is modelled only for strings of decimal digits, the empty string (which gives 0) and absent values (NaN). Leading or trailing white space, signs, decimal points, exponents and hexadecimal literals are treated as NaN. A query parameter given more than once (an array) is not modelled.
- The `./books` module is not part of this model. Its initial content is the parameter of the `Shelf` constructor.
- Concurrency and persistence: the source has neither.
