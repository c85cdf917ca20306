# Book catalogue service, modelled in Dafny

The service keeps an in-memory, ordered collection of book records
`{id, title, publisher, loaned}`. It offers six operations over HTTP: add,
list, update by id, delete by id, loan by title and return by title. A request
gate runs before all of them and refuses any request whose `Content-Type`
header is not exactly `application/json`.

This project keeps the catalogue logic and drops the web framework. The
collection is an immutable `seq<Book>`. Each handler is a pure function from
the collection before a request to a `Step`: the collection after the request
plus an `Outcome`. An outcome is a success carrying its payload, or one of
`InvalidContentType`, `ValidationError`, `NotFound` or `Conflict`.

Files:

- `wrappers.dfy` defines `Option`, used for a body field or path parameter that may be missing.
- `catalogue.dfy` holds the data model, the first-match lookup `FindIndex`, the six handlers, the route table (`Dispatch`), the gate (`Handle`) and `Run`, which folds a sequence of requests.
- `lemmas.dfy` holds properties relating several calls: round trips, idempotence, the stored-record invariant, and how each kind of outcome changes the collection.
- `scenarios.dfy` states each API test case as a concrete lemma.

Modelling choices:

- A body field passes the handlers' `!field` test only when it is present and non-empty (`Present`).
- An id path parameter that is not a number is `None`. It matches no record, just as `NaN === id` is false.
- A loan or return body without a title is `None`, and it also matches no record.
- Lookups take the first match, as `findIndex` does. Duplicate titles are allowed.
- Ids are not unique: the code assigns `length + 1` (`src/2-books/app.js:29`), and after a delete that value can equal an id still in use. The model follows the code. `DeleteThenAddCanDuplicateId` exhibits the collision, and no lemma assumes ids are unique.
- The list and delete test cases send no body, hence no `Content-Type` header. The gate as coded (`src/2-books/app.js:14`) refuses such requests. The model follows the code: `ListWithoutContentTypeScenario` and `DeleteWithoutContentTypeScenario` state the refusals, while `ListScenario` and `DeleteScenario` send the JSON header.

## Model

| member | source | states |
|---|---|---|
| Catalogue.FindIndex | src/2-books/app.js:53 | returns `None` exactly when no record matches the key; otherwise returns the position of a matching record with no match before it (the same scan is used at lines 66, 80 and 98) |
| Catalogue.Handle | src/2-books/app.js:13-18 | the outcome is `InvalidContentType` if and only if the header is not exactly `application/json`; such a request leaves the collection unchanged, and any other request goes to its handler |
| Catalogue.Dispatch | src/2-books/app.js:21-110 | the route table: a request that passed the gate reaches its handler, no handler reports a content-type error, and no handler changes the length by more than one |
| Catalogue.Run | src/2-books/app.js:6-110 | the process-wide collection after a sequence of requests differs in length from the start by at most the number of requests |
| Catalogue.Add | src/2-books/app.js:21-37 | a missing or empty title or publisher gives `ValidationError` with the collection unchanged; otherwise exactly one record is appended with id = old length + 1 and `loaned` false, the earlier records are unchanged, and the reported book is the new last record |
| Catalogue.List | src/2-books/app.js:40-42 | the response is the whole collection in stored order, and the collection is unchanged |
| Catalogue.Update | src/2-books/app.js:45-61 | invalid fields give `ValidationError` even when the id is absent; an absent or non-numeric id gives `NotFound` with nothing changed; otherwise only the first record with that id changes, getting the new title and publisher while keeping its id and flag, the length and every other record stay the same, and that record is reported |
| Catalogue.Delete | src/2-books/app.js:64-74 | an absent id gives `NotFound` with nothing changed; otherwise exactly the first record with that id is removed, the records before it keep their positions, the ones after move up by one, and the multiset of records loses exactly that one |
| Catalogue.Loan | src/2-books/app.js:77-92 | no exact title match gives `NotFound`; if the first match is already on loan the outcome is `Conflict` with nothing changed; otherwise only that record's flag becomes true and the updated record is reported |
| Catalogue.Return | src/2-books/app.js:95-110 | no exact title match gives `NotFound`; if the first match is not on loan the outcome is `Conflict` with nothing changed; otherwise only that record's flag becomes false and the updated record is reported |
| CatalogueLemmas.AddThenDeleteRestores | src/2-books/app.js:28-72 | deleting the id a successful add just assigned gives back the original collection, provided no earlier record already held that id |
| CatalogueLemmas.DeleteThenAddCanDuplicateId | src/2-books/app.js:29-72 | deleting record 1 of a two-record collection and then adding a record assigns id 2 a second time |
| CatalogueLemmas.UpdateIdempotent | src/2-books/app.js:53-59 | repeating an update with the same id and fields changes nothing more |
| CatalogueLemmas.LoanThenReturnRestores | src/2-books/app.js:80-108 | a successful loan followed by a return of the same title restores the original collection and reports the record as it was before the loan |
| CatalogueLemmas.ReturnThenLoanRestores | src/2-books/app.js:80-108 | a successful return followed by a loan of the same title restores the original collection |
| CatalogueLemmas.LoanTwiceConflicts | src/2-books/app.js:86-90 | a second loan of the same title right after a successful one is a `Conflict` and leaves the record on loan |
| CatalogueLemmas.HandleShape | src/2-books/app.js:21-109 | only a created record lengthens the collection (by one, at the end, with earlier records unchanged); only a deletion shortens it (by one); every other request keeps the length and every record's id at its position |
| CatalogueLemmas.OnlyLoanAndReturnChangeFlags | src/2-books/app.js:28-108 | apart from loan, return and delete, no request changes any stored record's `loaned` flag, and a newly created record is not on loan |
| CatalogueLemmas.HandlePreservesWellFormed | src/2-books/app.js:24-59 | if every stored record has a positive id and non-empty title and publisher before a request, the same holds after it |
| CatalogueLemmas.RunPreservesWellFormed | src/2-books/app.js:6-110 | any sequence of requests that starts from such a collection, the empty one included, keeps that shape |
| CatalogueLemmas.RejectedRunChangesNothing | src/2-books/app.js:13-18 | a sequence of requests all refused at the gate leaves the collection as it was |
| CatalogueScenarios.AddScenario | test/books.test.js:9-21 | adding "The Secret History" / "Penguin Books" to the empty collection creates and stores it with id 1, not on loan |
| CatalogueScenarios.AddWithoutTitleScenario | test/books.test.js:23-34 | an add without a title is a `ValidationError` and stores nothing |
| CatalogueScenarios.ListScenario | test/books.test.js:36-46 | listing a one-record collection, with the JSON header the gate demands, returns that record |
| CatalogueScenarios.ListWithoutContentTypeScenario | src/2-books/app.js:13-18 | a list request without a `Content-Type` header is refused at the gate |
| CatalogueScenarios.DeleteWithoutContentTypeScenario | src/2-books/app.js:13-18 | a delete request without a `Content-Type` header is refused at the gate and the record stays stored |
| CatalogueScenarios.UpdateScenario | test/books.test.js:48-60 | updating id 1 replaces its title and publisher and keeps id 1 and the flag false |
| CatalogueScenarios.DeleteScenario | test/books.test.js:62-71 | deleting id 1 from a one-record collection, with the JSON header the gate demands, leaves it empty |
| CatalogueScenarios.LoanScenario | test/books.test.js:73-84 | loaning an available book marks it on loan |
| CatalogueScenarios.ReturnScenario | test/books.test.js:86-97 | returning a book on loan makes it available |
| CatalogueScenarios.LoanUnavailableScenario | test/books.test.js:99-109 | loaning a book already on loan is a `Conflict` |
| CatalogueScenarios.LoanMissingScenario | test/books.test.js:111-119 | loaning an unknown title is `NotFound` |

## Left out

- Express wiring is not modelled: path matching of URLs and methods (requests arrive already routed, as a `Request` constructor), `express.json()` body parsing and its errors on malformed JSON, unknown routes, status codes, error and confirmation messages, and JSON serialisation. Each outcome is one `Outcome` constructor instead.
- JavaScript truthiness of non-string fields is not modelled: a truthy number passes the field check, while `0` and `false` fail it. Fields are strings or absent.
- `parseInt` prefix parsing is not modelled (`"1abc"` parses to 1). An id is a number or `None` for `NaN`.
- The module-level array, its export and the tests' `books.length = 0` reset are not modelled. The collection is passed in and returned explicitly.
- Concurrency is not modelled, since every handler runs to completion before the next request.
