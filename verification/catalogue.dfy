/** The book catalogue service: an ordered collection of book records and the
    handlers that read and change it. Each handler is a pure function from the
    collection before a request to the collection after it together with the
    outcome reported to the client. */
module Catalogue {
  import opened Wrappers

  /** One stored record. Nothing keeps `id` unique: it is the collection size
      at the moment the record was added, plus one. */
  datatype Book = Book(id: int, title: string, publisher: string, loaned: bool)

  /** The process-wide `books` array, passed in and returned explicitly. */
  type Collection = seq<Book>

  /** The only Content-Type header value the request gate lets through. */
  const JsonContentType: string := "application/json"

  /** One request, after routing and body parsing. A missing body field is
      `None`; an id path parameter that does not parse as a number is `None`. */
  datatype Request =
    | AddBook(title: Option<string>, publisher: Option<string>)
    | ListBooks
    | UpdateBook(id: Option<int>, title: Option<string>, publisher: Option<string>)
    | DeleteBook(id: Option<int>)
    | LoanBook(title: Option<string>)
    | ReturnBook(title: Option<string>)

  /** A request together with its Content-Type header (`None` when absent). */
  datatype Call = Call(contentType: Option<string>, request: Request)

  /** What the client is told: a success carrying its payload, or one of the
      four kinds of error. */
  datatype Outcome =
    | Created(book: Book)
    | Listing(books: Collection)
    | Updated(book: Book)
    | Deleted
    | Loaned(book: Book)
    | Returned(book: Book)
    | InvalidContentType
    | ValidationError
    | NotFound
    | Conflict

  /** The collection after a request and the outcome of that request. */
  datatype Step = Step(after: Collection, outcome: Outcome)

  /** A body field passes the handlers' `!field` test only when it is present
      and is not the empty string. */
  predicate Present(field: Option<string>) {
    field.Some? && field.value != ""
  }

  /** The request gate accepts exactly one header value, compared as a string. */
  predicate AcceptsContentType(contentType: Option<string>) {
    contentType == Some(JsonContentType)
  }

  // ---------------------------------------------------------------------------
  // Lookup

  /** What a handler searches for: a record id (update, delete) or an exact
      title (loan, return). A `None` key is never strictly equal to a stored
      value, so it matches no record. */
  datatype Key = ById(id: Option<int>) | ByTitle(title: Option<string>)

  predicate Matches(b: Book, key: Key) {
    match key
    case ById(id) => id == Some(b.id)
    case ByTitle(title) => title == Some(b.title)
  }

  ghost predicate Contains(books: Collection, key: Key) {
    exists i :: 0 <= i < |books| && Matches(books[i], key)
  }

  /** `i` is the position of the first record matching `key`. */
  ghost predicate IsFirstMatch(books: Collection, key: Key, i: int) {
    && 0 <= i < |books|
    && Matches(books[i], key)
    && forall j :: 0 <= j < i ==> !Matches(books[j], key)
  }

  /** The array scan the handlers use: the first position matching `key`, or
      `None` where the source gets -1. */
  function FindIndex(books: Collection, key: Key): (r: Option<nat>)
    ensures r.None? <==> !Contains(books, key)
    ensures r.Some? ==> IsFirstMatch(books, key, r.value)
  {
    if |books| == 0 then None
    else if Matches(books[0], key) then Some(0)
    else
      var rest := FindIndex(books[1..], key);
      assert forall j :: 1 <= j < |books| ==> books[1..][j - 1] == books[j];
      match rest
      case None => None
      case Some(k) => Some(k + 1)
  }

  // ---------------------------------------------------------------------------
  // Shapes of a change, used by the handlers' contracts

  /** `after` is `before` with the record at `i` replaced by `b`, and every
      other position untouched. */
  ghost predicate ReplacedAt(before: Collection, after: Collection, i: int, b: Book) {
    && 0 <= i < |before|
    && |after| == |before|
    && after[i] == b
    && forall j :: 0 <= j < |before| && j != i ==> after[j] == before[j]
  }

  /** `after` is `before` without the record at `i`; the records before `i`
      keep their positions and the ones after it move up by one. */
  ghost predicate RemovedAt(before: Collection, after: Collection, i: int) {
    && 0 <= i < |before|
    && |after| == |before| - 1
    && (forall j :: 0 <= j < i ==> after[j] == before[j])
    && (forall j :: i <= j < |after| ==> after[j] == before[j + 1])
  }

  // ---------------------------------------------------------------------------
  // Handlers

  /** POST /books. */
  function Add(books: Collection, title: Option<string>, publisher: Option<string>): (r: Step)
    ensures !(Present(title) && Present(publisher)) ==> r == Step(books, ValidationError)
    ensures Present(title) && Present(publisher) ==>
      && |r.after| == |books| + 1
      && r.after[..|books|] == books
      && r.after[|books|] == Book(|books| + 1, title.value, publisher.value, false)
      && r.outcome == Created(r.after[|books|])
  {
    if !Present(title) || !Present(publisher) then
      Step(books, ValidationError)
    else
      var book := Book(|books| + 1, title.value, publisher.value, false);
      Step(books + [book], Created(book))
  }

  /** GET /books. */
  function List(books: Collection): (r: Step)
    ensures r.after == books
    ensures r.outcome == Listing(books)
  {
    Step(books, Listing(books))
  }

  /** PUT /books/:id. The fields are checked before the id is looked up. */
  function Update(books: Collection, id: Option<int>, title: Option<string>, publisher: Option<string>): (r: Step)
    ensures !(Present(title) && Present(publisher)) ==> r == Step(books, ValidationError)
    ensures Present(title) && Present(publisher) && !Contains(books, ById(id)) ==>
      r == Step(books, NotFound)
    ensures Present(title) && Present(publisher) ==>
      forall i :: IsFirstMatch(books, ById(id), i) ==>
        && ReplacedAt(books, r.after, i, books[i].(title := title.value, publisher := publisher.value))
        && r.outcome == Updated(r.after[i])
  {
    if !Present(title) || !Present(publisher) then
      Step(books, ValidationError)
    else
      match FindIndex(books, ById(id))
      case None => Step(books, NotFound)
      case Some(i) =>
        var book := books[i].(title := title.value, publisher := publisher.value);
        Step(books[i := book], Updated(book))
  }

  /** DELETE /books/:id. */
  function Delete(books: Collection, id: Option<int>): (r: Step)
    ensures !Contains(books, ById(id)) ==> r == Step(books, NotFound)
    ensures forall i :: IsFirstMatch(books, ById(id), i) ==>
      && RemovedAt(books, r.after, i)
      && multiset(r.after) + multiset{books[i]} == multiset(books)
      && r.outcome == Deleted
  {
    match FindIndex(books, ById(id))
    case None => Step(books, NotFound)
    case Some(i) =>
      assert books == books[..i] + [books[i]] + books[i + 1..];
      Step(books[..i] + books[i + 1..], Deleted)
  }

  /** POST /loans: the first record with exactly this title is loaned out,
      unless it already is. */
  function Loan(books: Collection, title: Option<string>): (r: Step)
    ensures !Contains(books, ByTitle(title)) ==> r == Step(books, NotFound)
    ensures forall i :: IsFirstMatch(books, ByTitle(title), i) && books[i].loaned ==>
      r == Step(books, Conflict)
    ensures forall i :: IsFirstMatch(books, ByTitle(title), i) && !books[i].loaned ==>
      && ReplacedAt(books, r.after, i, books[i].(loaned := true))
      && r.outcome == Loaned(r.after[i])
  {
    match FindIndex(books, ByTitle(title))
    case None => Step(books, NotFound)
    case Some(i) =>
      if books[i].loaned then
        Step(books, Conflict)
      else
        var book := books[i].(loaned := true);
        Step(books[i := book], Loaned(book))
  }

  /** POST /returns: the first record with exactly this title is returned,
      unless it is not on loan. */
  function Return(books: Collection, title: Option<string>): (r: Step)
    ensures !Contains(books, ByTitle(title)) ==> r == Step(books, NotFound)
    ensures forall i :: IsFirstMatch(books, ByTitle(title), i) && !books[i].loaned ==>
      r == Step(books, Conflict)
    ensures forall i :: IsFirstMatch(books, ByTitle(title), i) && books[i].loaned ==>
      && ReplacedAt(books, r.after, i, books[i].(loaned := false))
      && r.outcome == Returned(r.after[i])
  {
    match FindIndex(books, ByTitle(title))
    case None => Step(books, NotFound)
    case Some(i) =>
      if !books[i].loaned then
        Step(books, Conflict)
      else
        var book := books[i].(loaned := false);
        Step(books[i := book], Returned(book))
  }

  // ---------------------------------------------------------------------------
  // Routing and the request gate

  /** Routes a request that passed the gate to its handler. No handler reports
      a content-type error, and none changes the length by more than one. */
  function Dispatch(books: Collection, request: Request): (r: Step)
    ensures r.outcome != InvalidContentType
    ensures |books| - 1 <= |r.after| <= |books| + 1
  {
    match request
    case AddBook(title, publisher) => Add(books, title, publisher)
    case ListBooks => List(books)
    case UpdateBook(id, title, publisher) => Update(books, id, title, publisher)
    case DeleteBook(id) => Delete(books, id)
    case LoanBook(title) => Loan(books, title)
    case ReturnBook(title) => Return(books, title)
  }

  /** One request through the gate and then its handler. The gate is the only
      source of `InvalidContentType`, and a rejected request changes nothing. */
  function Handle(books: Collection, call: Call): (r: Step)
    ensures r.outcome == InvalidContentType <==> !AcceptsContentType(call.contentType)
    ensures !AcceptsContentType(call.contentType) ==> r.after == books
    ensures AcceptsContentType(call.contentType) ==> r == Dispatch(books, call.request)
  {
    if !AcceptsContentType(call.contentType) then
      Step(books, InvalidContentType)
    else
      Dispatch(books, call.request)
  }

  /** The collection after handling `calls` in order, starting from `books`:
      the process-wide array as it stands after a sequence of requests. Each
      request adds or removes at most one record. */
  function Run(books: Collection, calls: seq<Call>): (r: Collection)
    ensures |books| - |calls| <= |r| <= |books| + |calls|
    decreases |calls|
  {
    if |calls| == 0 then books
    else Run(Handle(books, calls[0]).after, calls[1..])
  }
}
