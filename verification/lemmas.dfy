/** Properties that relate several handler calls, or that hold of every
    request: round trips, idempotence, the stored-record invariant, and how
    each kind of outcome changes the shape of the collection. */
module CatalogueLemmas {
  import opened Wrappers
  import opened Catalogue

  /** The shape every record written by a handler has: a positive id and
      non-empty title and publisher. */
  ghost predicate WellFormed(books: Collection) {
    forall i :: 0 <= i < |books| ==>
      books[i].id >= 1 && books[i].title != "" && books[i].publisher != ""
  }

  /** Two collections that agree, position by position, on whether a record
      matches `key` have the same first match. */
  lemma FindIndexSameMatches(a: Collection, b: Collection, key: Key)
    requires |a| == |b|
    requires forall j :: 0 <= j < |a| ==> (Matches(a[j], key) <==> Matches(b[j], key))
    ensures FindIndex(a, key) == FindIndex(b, key)
  {
    var ra, rb := FindIndex(a, key), FindIndex(b, key);
    if ra.Some? {
      assert Matches(b[ra.value], key);
      assert rb.Some?;
    }
  }

  /** A successful add, then a delete of the id it assigned, gives back the
      original collection, provided no earlier record already had that id. */
  lemma AddThenDeleteRestores(books: Collection, title: Option<string>, publisher: Option<string>)
    requires Present(title) && Present(publisher)
    requires !Contains(books, ById(Some(|books| + 1)))
    ensures Add(books, title, publisher).outcome.Created?
    ensures Delete(Add(books, title, publisher).after, Some(|books| + 1)) == Step(books, Deleted)
  {
    var added := Add(books, title, publisher).after;
    var n := |books|;
    var key := ById(Some(n + 1));
    assert Matches(added[n], key);
    assert IsFirstMatch(added, key, n) by {
      forall j | 0 <= j < n ensures !Matches(added[j], key) {
        assert added[j] == added[..n][j] == books[j];
      }
    }
    var r := Delete(added, Some(n + 1));
    assert RemovedAt(added, r.after, n);
    assert r.after == books;
  }

  /** Ids are not kept unique: deleting the first of two records and then
      adding one assigns the id the surviving record already has. */
  lemma DeleteThenAddCanDuplicateId()
    ensures var books := [Book(1, "A", "P", false), Book(2, "B", "P", false)];
      var afterDelete := Delete(books, Some(1)).after;
      var afterAdd := Add(afterDelete, Some("C"), Some("P")).after;
      && afterDelete == [Book(2, "B", "P", false)]
      && afterAdd == [Book(2, "B", "P", false), Book(2, "C", "P", false)]
  {
    var b1, b2 := Book(1, "A", "P", false), Book(2, "B", "P", false);
    var books := [b1, b2];
    assert Matches(books[0], ById(Some(1)));
    var afterDelete := Delete(books, Some(1)).after;
    assert afterDelete == [b2] by {
      assert books[1..] == [b2];
    }
    var b3 := Book(2, "C", "P", false);
    assert Add(afterDelete, Some("C"), Some("P")).after == [b2, b3];
  }

  /** Updating twice with the same fields is the same as updating once. */
  lemma UpdateIdempotent(books: Collection, id: Option<int>, title: Option<string>, publisher: Option<string>)
    ensures var once := Update(books, id, title, publisher);
      Update(once.after, id, title, publisher).after == once.after
  {
    var once := Update(books, id, title, publisher);
    if Present(title) && Present(publisher) {
      var ri := FindIndex(books, ById(id));
      if ri.Some? {
        var i := ri.value;
        FindIndexSameMatches(books, once.after, ById(id));
        var twice := Update(once.after, id, title, publisher);
        assert ReplacedAt(once.after, twice.after, i, once.after[i].(title := title.value, publisher := publisher.value));
        assert twice.after == once.after;
      }
    }
  }

  /** A successful loan followed by a return of the same title restores the
      original collection and reports the record as it was before the loan. */
  lemma LoanThenReturnRestores(books: Collection, title: Option<string>)
    requires Loan(books, title).outcome.Loaned?
    ensures var loaned := Loan(books, title);
      var returned := Return(loaned.after, title);
      && returned.after == books
      && returned.outcome == Returned(loaned.outcome.book.(loaned := false))
  {
    var i := FindIndex(books, ByTitle(title)).value;
    var loaned := Loan(books, title);
    assert ReplacedAt(books, loaned.after, i, books[i].(loaned := true));
    FindIndexSameMatches(books, loaned.after, ByTitle(title));
    var returned := Return(loaned.after, title);
    assert ReplacedAt(loaned.after, returned.after, i, books[i]);
    assert returned.after == books;
  }

  /** A successful return followed by a loan of the same title restores the
      original collection. */
  lemma ReturnThenLoanRestores(books: Collection, title: Option<string>)
    requires Return(books, title).outcome.Returned?
    ensures var returned := Return(books, title);
      var loaned := Loan(returned.after, title);
      && loaned.after == books
      && loaned.outcome == Loaned(returned.outcome.book.(loaned := true))
  {
    var i := FindIndex(books, ByTitle(title)).value;
    var returned := Return(books, title);
    assert ReplacedAt(books, returned.after, i, books[i].(loaned := false));
    FindIndexSameMatches(books, returned.after, ByTitle(title));
    var loaned := Loan(returned.after, title);
    assert ReplacedAt(returned.after, loaned.after, i, books[i]);
    assert loaned.after == books;
  }

  /** A second loan of the same title right after a successful one is a
      conflict, and the record stays on loan. */
  lemma LoanTwiceConflicts(books: Collection, title: Option<string>)
    requires Loan(books, title).outcome.Loaned?
    ensures var first := Loan(books, title);
      Loan(first.after, title) == Step(first.after, Conflict)
  {
    var i := FindIndex(books, ByTitle(title)).value;
    var first := Loan(books, title);
    assert ReplacedAt(books, first.after, i, books[i].(loaned := true));
    FindIndexSameMatches(books, first.after, ByTitle(title));
  }

  /** How each kind of outcome changes the collection: only a created record
      makes it longer (by one, at the end), only a deletion makes it shorter
      (by one), and every other request keeps every record's position and id. */
  lemma HandleShape(books: Collection, call: Call)
    ensures var r := Handle(books, call);
      && (r.outcome.Created? ==> |r.after| == |books| + 1 && r.after[..|books|] == books)
      && (r.outcome.Deleted? ==> |r.after| == |books| - 1)
      && (!r.outcome.Created? && !r.outcome.Deleted? ==>
            |r.after| == |books| && forall j :: 0 <= j < |books| ==> r.after[j].id == books[j].id)
  {
    var r := Handle(books, call);
    if AcceptsContentType(call.contentType) {
      match call.request
      case AddBook(title, publisher) =>
      case ListBooks =>
      case UpdateBook(id, title, publisher) =>
        var ri := FindIndex(books, ById(id));
        if Present(title) && Present(publisher) && ri.Some? {
          assert IsFirstMatch(books, ById(id), ri.value);
        }
      case DeleteBook(id) =>
        var ri := FindIndex(books, ById(id));
        if ri.Some? {
          assert IsFirstMatch(books, ById(id), ri.value);
        }
      case LoanBook(title) =>
        var ri := FindIndex(books, ByTitle(title));
        if ri.Some? {
          assert IsFirstMatch(books, ByTitle(title), ri.value);
        }
      case ReturnBook(title) =>
        var ri := FindIndex(books, ByTitle(title));
        if ri.Some? {
          assert IsFirstMatch(books, ByTitle(title), ri.value);
        }
    }
  }

  /** Only loan and return change a loaned flag: after any other request that
      does not delete, each record keeps its flag, and a created record is not
      on loan. */
  lemma OnlyLoanAndReturnChangeFlags(books: Collection, call: Call)
    ensures var r := Handle(books, call);
      !r.outcome.Loaned? && !r.outcome.Returned? && !r.outcome.Deleted? ==>
        && |r.after| >= |books|
        && (forall j :: 0 <= j < |books| ==> r.after[j].loaned == books[j].loaned)
        && (r.outcome.Created? ==> !r.after[|books|].loaned)
  {
    var r := Handle(books, call);
    HandleShape(books, call);
    if AcceptsContentType(call.contentType) {
      match call.request
      case AddBook(title, publisher) =>
        if Present(title) && Present(publisher) {
          forall j | 0 <= j < |books| ensures r.after[j].loaned == books[j].loaned {
            assert r.after[j] == r.after[..|books|][j];
          }
        }
      case ListBooks =>
      case UpdateBook(id, title, publisher) =>
        var ri := FindIndex(books, ById(id));
        if Present(title) && Present(publisher) && ri.Some? {
          assert IsFirstMatch(books, ById(id), ri.value);
        }
      case DeleteBook(id) =>
      case LoanBook(title) =>
        var ri := FindIndex(books, ByTitle(title));
        if ri.Some? {
          assert IsFirstMatch(books, ByTitle(title), ri.value);
        }
      case ReturnBook(title) =>
        var ri := FindIndex(books, ByTitle(title));
        if ri.Some? {
          assert IsFirstMatch(books, ByTitle(title), ri.value);
        }
    }
  }

  /** Every handler keeps the stored-record shape: records it writes have a
      positive id and non-empty fields, and the others are untouched. */
  lemma HandlePreservesWellFormed(books: Collection, call: Call)
    requires WellFormed(books)
    ensures WellFormed(Handle(books, call).after)
  {
    var r := Handle(books, call);
    if AcceptsContentType(call.contentType) {
      match call.request
      case AddBook(title, publisher) =>
        if Present(title) && Present(publisher) {
          forall j | 0 <= j < |r.after|
            ensures r.after[j].id >= 1 && r.after[j].title != "" && r.after[j].publisher != ""
          {
            if j < |books| {
              assert r.after[j] == r.after[..|books|][j];
            }
          }
        }
      case ListBooks =>
      case UpdateBook(id, title, publisher) =>
        var ri := FindIndex(books, ById(id));
        if Present(title) && Present(publisher) && ri.Some? {
          assert IsFirstMatch(books, ById(id), ri.value);
        }
      case DeleteBook(id) =>
        var ri := FindIndex(books, ById(id));
        if ri.Some? {
          assert IsFirstMatch(books, ById(id), ri.value);
        }
      case LoanBook(title) =>
        var ri := FindIndex(books, ByTitle(title));
        if ri.Some? {
          assert IsFirstMatch(books, ByTitle(title), ri.value);
        }
      case ReturnBook(title) =>
        var ri := FindIndex(books, ByTitle(title));
        if ri.Some? {
          assert IsFirstMatch(books, ByTitle(title), ri.value);
        }
    }
  }

  /** Any sequence of requests, starting from a well-formed collection (the
      empty one included), leaves a well-formed collection. */
  lemma {:induction false} RunPreservesWellFormed(books: Collection, calls: seq<Call>)
    requires WellFormed(books)
    ensures WellFormed(Run(books, calls))
    decreases |calls|
  {
    if |calls| > 0 {
      HandlePreservesWellFormed(books, calls[0]);
      RunPreservesWellFormed(Handle(books, calls[0]).after, calls[1..]);
    }
  }

  /** A request rejected at the gate changes nothing, whatever the request:
      a run of such requests leaves the collection as it was. */
  lemma {:induction false} RejectedRunChangesNothing(books: Collection, calls: seq<Call>)
    requires forall k :: 0 <= k < |calls| ==> !AcceptsContentType(calls[k].contentType)
    ensures Run(books, calls) == books
    decreases |calls|
  {
    if |calls| > 0 {
      assert !AcceptsContentType(calls[0].contentType);
      RejectedRunChangesNothing(books, calls[1..]);
    }
  }
}
