/** The API test cases, each stated as the outcome of one request on the
    collection the test starts from. The test client sends a JSON body with
    the JSON Content-Type header; the list and delete tests send no body. */
module CatalogueScenarios {
  import opened Wrappers
  import opened Catalogue

  const Json: Option<string> := Some(JsonContentType)
  const SecretHistory: Book := Book(1, "The Secret History", "Penguin Books", false)

  /** Adding to the empty collection assigns id 1 and leaves the book not on loan. */
  lemma AddScenario()
    ensures Handle([], Call(Json, AddBook(Some("The Secret History"), Some("Penguin Books"))))
      == Step([SecretHistory], Created(SecretHistory))
  {
  }

  /** A body without a title is refused and nothing is stored. */
  lemma AddWithoutTitleScenario()
    ensures Handle([], Call(Json, AddBook(None, Some("Penguin Books"))))
      == Step([], ValidationError)
  {
  }

  /** Listing returns the stored records in order. The test sends no body and
      so no Content-Type header, which the gate refuses
      (`ListWithoutContentTypeScenario`); this lemma sends the JSON header so
      that the request reaches the list handler. */
  lemma ListScenario()
    ensures Handle([SecretHistory], Call(Json, ListBooks))
      == Step([SecretHistory], Listing([SecretHistory]))
  {
  }

  /** The gate compares the header itself, so a request without one is refused
      whichever route it is for, the list route included. */
  lemma ListWithoutContentTypeScenario()
    ensures Handle([SecretHistory], Call(None, ListBooks))
      == Step([SecretHistory], InvalidContentType)
  {
  }

  /** Updating id 1 replaces title and publisher and keeps id and flag. */
  lemma UpdateScenario()
    ensures var before := Book(1, "Old Title", "Old Publisher", false);
      var after := Book(1, "New Title", "New Publisher", false);
      Handle([before], Call(Json, UpdateBook(Some(1), Some("New Title"), Some("New Publisher"))))
        == Step([after], Updated(after))
  {
    var before := Book(1, "Old Title", "Old Publisher", false);
    assert FindIndex([before], ById(Some(1))) == Some(0);
  }

  /** Deleting id 1 from a one-record collection empties it. The test sends no
      body and so no Content-Type header, which the gate refuses
      (`DeleteWithoutContentTypeScenario`); this lemma sends the JSON header so
      that the request reaches the delete handler. */
  lemma DeleteScenario()
    ensures Handle([SecretHistory], Call(Json, DeleteBook(Some(1)))) == Step([], Deleted)
  {
    assert FindIndex([SecretHistory], ById(Some(1))) == Some(0);
  }

  /** Loaning an available book marks it as on loan. */
  lemma LoanScenario()
    ensures Handle([SecretHistory], Call(Json, LoanBook(Some("The Secret History"))))
      == Step([SecretHistory.(loaned := true)], Loaned(SecretHistory.(loaned := true)))
  {
    assert FindIndex([SecretHistory], ByTitle(Some("The Secret History"))) == Some(0);
  }

  /** Returning a book on loan makes it available again. */
  lemma ReturnScenario()
    ensures Handle([SecretHistory.(loaned := true)], Call(Json, ReturnBook(Some("The Secret History"))))
      == Step([SecretHistory], Returned(SecretHistory))
  {
    assert FindIndex([SecretHistory.(loaned := true)], ByTitle(Some("The Secret History"))) == Some(0);
  }

  /** Loaning a book that is already on loan is a conflict. */
  lemma LoanUnavailableScenario()
    ensures Handle([SecretHistory.(loaned := true)], Call(Json, LoanBook(Some("The Secret History"))))
      == Step([SecretHistory.(loaned := true)], Conflict)
  {
    assert FindIndex([SecretHistory.(loaned := true)], ByTitle(Some("The Secret History"))) == Some(0);
  }

  /** Loaning a title nobody stored is not found. */
  lemma LoanMissingScenario()
    ensures Handle([], Call(Json, LoanBook(Some("Non-existent Book")))) == Step([], NotFound)
  {
  }

  /** The gate also refuses a delete request without a `Content-Type` header,
      and the record stays stored. */
  lemma DeleteWithoutContentTypeScenario()
    ensures Handle([SecretHistory], Call(None, DeleteBook(Some(1))))
      == Step([SecretHistory], InvalidContentType)
  {
  }
}
