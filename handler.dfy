/** The five request handlers of the bookshelf service over one owned,
    ordered collection of book records. Add, update and delete change the
    collection in place and are methods of `Shelf`; list and get-by-id only
    read it and are functions over the sequence of books. */
module Handler {
  import opened Wrappers
  import Text

  /** An ISO-8601 time stamp, supplied by the caller's clock. */
  type Timestamp = string

  /** One stored book record. */
  datatype Book = Book(
    id: string,
    name: string,
    year: int,
    author: string,
    summary: string,
    publisher: string,
    pageCount: int,
    readPage: int,
    finished: bool,
    reading: bool,
    insertedAt: Timestamp,
    updatedAt: Timestamp)

  /** The request body of add and update; `name` is `None` when missing. */
  datatype BookInput = BookInput(
    name: Option<string>,
    year: int,
    author: string,
    summary: string,
    publisher: string,
    pageCount: int,
    readPage: int,
    reading: bool)

  /** The projection of a book that the list handler returns. */
  datatype BookSummary = BookSummary(id: string, name: string, publisher: string)

  /** The query string of the list handler; a parameter is `None` when absent. */
  datatype Query = Query(name: Option<string>, reading: Option<string>, finished: Option<string>)

  datatype Status = Success | Fail

  /** The response body, apart from `status`. */
  datatype Body =
    | Message(text: string)
    | BookAdded(text: string, bookId: string)
    | BookList(books: seq<BookSummary>)
    | OneBook(book: Book)

  datatype Response = Response(code: int, status: Status, body: Body)

  const ADD_MISSING_NAME := "Gagal menambahkan buku. Mohon isi nama buku"
  const ADD_READ_PAGE_TOO_LARGE := "Gagal menambahkan buku. readPage tidak boleh lebih besar dari pageCount"
  const ADDED := "Buku berhasil ditambahkan"
  const ADD_FAILED := "Buku gagal ditambahkan"
  const NOT_FOUND := "Buku tidak ditemukan"
  const UPDATE_MISSING_NAME := "Gagal memperbarui buku. Mohon isi nama buku"
  const UPDATE_READ_PAGE_TOO_LARGE := "Gagal memperbarui buku. readPage tidak boleh lebih besar dari pageCount"
  const UPDATED := "Buku berhasil diperbarui"
  const UPDATE_ID_NOT_FOUND := "Gagal memperbarui buku. Id tidak ditemukan"
  const DELETED := "Buku berhasil dihapus"
  const DELETE_ID_NOT_FOUND := "Buku gagal dihapus. Id tidak ditemukan"

  /** JavaScript truthiness of an optional string: present and non-empty. */
  predicate Truthy(s: Option<string>) {
    s.Some? && s.value != ""
  }

  /** A state of one book that add and update always establish. */
  predicate WellFormed(b: Book) {
    b.readPage <= b.pageCount && b.finished == (b.readPage == b.pageCount)
  }

  predicate AllWellFormed(books: seq<Book>) {
    forall k :: 0 <= k < |books| ==> WellFormed(books[k])
  }

  predicate HasId(books: seq<Book>, id: string) {
    exists k :: 0 <= k < |books| && books[k].id == id
  }

  /** No two records of the collection share an id. */
  predicate IdsUnique(books: seq<Book>) {
    forall i, j :: 0 <= i < j < |books| ==> books[i].id != books[j].id
  }

  // ---------------------------------------------------------------------
  // Validation shared by add and update

  datatype Rejection = MissingName | ReadPageTooLarge

  /** The checks add and update make on their body, in the order they make them. */
  function Validate(input: BookInput): (r: Option<Rejection>)
    ensures r == None <==> Truthy(input.name) && input.readPage <= input.pageCount
    ensures r == Some(MissingName) <==> !Truthy(input.name)
    ensures r == Some(ReadPageTooLarge) <==> Truthy(input.name) && input.readPage > input.pageCount
  {
    if !Truthy(input.name) then Some(MissingName)
    else if input.readPage > input.pageCount then Some(ReadPageTooLarge)
    else None
  }

  /** The record add stores: both time stamps are `now`, `finished` is derived. */
  function NewBook(input: BookInput, id: string, now: Timestamp): Book
    requires input.name.Some?
  {
    var finished := input.readPage == input.pageCount;
    var insertedAt := now;
    var updatedAt := insertedAt;
    Book(id, input.name.value, input.year, input.author, input.summary, input.publisher,
         input.pageCount, input.readPage, finished, input.reading, insertedAt, updatedAt)
  }

  /** The record update stores in place of `b`: every field but `id` and
      `insertedAt` comes from the body, `finished` is derived again. */
  function Revised(b: Book, input: BookInput, now: Timestamp): Book
    requires input.name.Some?
  {
    b.(name := input.name.value, year := input.year, author := input.author,
       summary := input.summary, publisher := input.publisher,
       pageCount := input.pageCount, readPage := input.readPage,
       reading := input.reading, finished := input.pageCount == input.readPage,
       updatedAt := now)
  }

  lemma ValidInputGivesWellFormed(input: BookInput, id: string, b: Book, now: Timestamp)
    requires Validate(input) == None
    ensures WellFormed(NewBook(input, id, now)) && WellFormed(Revised(b, input, now))
    ensures NewBook(input, id, now).insertedAt == NewBook(input, id, now).updatedAt == now
    ensures Revised(b, input, now).id == b.id && Revised(b, input, now).insertedAt == b.insertedAt
  {
  }

  // ---------------------------------------------------------------------
  // Scans over the collection

  /** The tests the handlers apply to one record. */
  datatype Criterion =
    | IdIs(id: string)
    | NameLike(pattern: string)
    | ReadingIs(number: Option<int>)
    | FinishedIs(number: Option<int>)

  /** JavaScript's `Number` of a boolean. */
  function AsNumber(b: bool): int {
    if b then 1 else 0
  }

  /** A `None` number is NaN, equal to nothing. */
  predicate Keeps(c: Criterion, b: Book) {
    match c
    case IdIs(id) => b.id == id
    case NameLike(pattern) => Text.ContainsIgnoringCase(b.name, pattern)
    case ReadingIs(n) => n == Some(AsNumber(b.reading))
    case FinishedIs(n) => n == Some(AsNumber(b.finished))
  }

  /** The records of `books` that `c` keeps, in collection order. */
  function Filter(books: seq<Book>, c: Criterion): (r: seq<Book>)
    ensures |r| <= |books|
    ensures forall b :: b in r ==> b in books && Keeps(c, b)
  {
    if books == [] then []
    else (if Keeps(c, books[0]) then [books[0]] else []) + Filter(books[1..], c)
  }

  lemma {:induction false} FilterAppend(s: seq<Book>, t: seq<Book>, c: Criterion)
    ensures Filter(s + t, c) == Filter(s, c) + Filter(t, c)
  {
    if s != [] {
      assert (s + t)[1..] == s[1..] + t;
      FilterAppend(s[1..], t, c);
    } else {
      assert s + t == t;
    }
  }

  lemma {:induction false} FilterMembers(s: seq<Book>, c: Criterion)
    ensures forall b :: b in Filter(s, c) <==> b in s && Keeps(c, b)
  {
    if s != [] {
      FilterMembers(s[1..], c);
      assert forall b :: b in s <==> b == s[0] || b in s[1..];
    }
  }

  /** A criterion no record meets selects nothing. */
  lemma {:induction false} FilterNone(s: seq<Book>, c: Criterion)
    requires forall k :: 0 <= k < |s| ==> !Keeps(c, s[k])
    ensures Filter(s, c) == []
  {
    if s != [] {
      FilterNone(s[1..], c);
    }
  }

  function Summarize(b: Book): BookSummary {
    BookSummary(b.id, b.name, b.publisher)
  }

  /** Each record reduced to `{id, name, publisher}`, in order. */
  function Project(books: seq<Book>): (r: seq<BookSummary>)
    ensures |r| == |books|
    ensures forall i :: 0 <= i < |books| ==> r[i] == Summarize(books[i])
  {
    if books == [] then [] else [Summarize(books[0])] + Project(books[1..])
  }

  /** Position of the first record with this id, or -1 (`findIndex`). */
  function FindIndex(books: seq<Book>, id: string): (r: int)
    ensures -1 <= r < |books|
    ensures r == -1 <==> !HasId(books, id)
    ensures r >= 0 ==> books[r].id == id && forall k :: 0 <= k < r ==> books[k].id != id
  {
    if books == [] then -1
    else if books[0].id == id then 0
    else
      var k := FindIndex(books[1..], id);
      if k < 0 then -1 else k + 1
  }

  /** The first record `filter` keeps for an id is the one `findIndex` finds. */
  lemma {:induction false} FirstMatchIsFound(books: seq<Book>, id: string)
    ensures var i := FindIndex(books, id);
      if i >= 0 then Filter(books, IdIs(id)) != [] && Filter(books, IdIs(id))[0] == books[i]
      else Filter(books, IdIs(id)) == []
  {
    if books != [] && books[0].id != id {
      FirstMatchIsFound(books[1..], id);
    }
  }

  // ---------------------------------------------------------------------
  // The read-only handlers

  function Listing(summaries: seq<BookSummary>): Response {
    Response(200, Success, BookList(summaries))
  }

  /** GET /books. Without a truthy query parameter every record is listed;
      a truthy `name` selects by name alone; otherwise the records come from
      the `finished` filter, whatever `reading` says. */
  function ListBooks(books: seq<Book>, query: Query): (r: Response)
    ensures r.code == 200 && r.status == Success && r.body.BookList?
    ensures |r.body.books| <= |books|
  {
    if !Truthy(query.name) && !Truthy(query.reading) && !Truthy(query.finished) then
      Listing(Project(books))
    else if Truthy(query.name) then
      Listing(Project(Filter(books, NameLike(query.name.value))))
    else
      // The reading branch builds a listing and drops it: control always
      // reaches the finished filter.
      var discarded :=
        if Truthy(query.reading) then Listing(Project(Filter(books, ReadingIs(Text.JsNumber(query.reading)))))
        else Listing([]);
      Listing(Project(Filter(books, FinishedIs(Text.JsNumber(query.finished)))))
  }

  /** GET /books/{bookId}: the first record `filter` keeps for the id. */
  function GetBookById(books: seq<Book>, bookId: string): (r: Response)
    ensures r.code == 200 || r.code == 404
  {
    var matches := Filter(books, IdIs(bookId));
    if |matches| > 0 then Response(200, Success, OneBook(matches[0]))
    else Response(404, Fail, Message(NOT_FOUND))
  }

  lemma ListWithoutQuery(books: seq<Book>, query: Query)
    requires !Truthy(query.name) && !Truthy(query.reading) && !Truthy(query.finished)
    ensures var listed := ListBooks(books, query).body.books;
      |listed| == |books| &&
      forall i :: 0 <= i < |books| ==>
        listed[i] == BookSummary(books[i].id, books[i].name, books[i].publisher)
  {
  }

  lemma ListByName(books: seq<Book>, query: Query)
    requires Truthy(query.name)
    ensures ListBooks(books, query) == ListBooks(books, Query(query.name, None, None))
    ensures ListBooks(books, query).body.books == Project(Filter(books, NameLike(query.name.value)))
    ensures forall b :: b in Filter(books, NameLike(query.name.value)) <==>
      b in books && exists i :: Text.MatchesAt(b.name, query.name.value, i)
  {
    FilterMembers(books, NameLike(query.name.value));
    forall b ensures Keeps(NameLike(query.name.value), b) <==> exists i :: Text.MatchesAt(b.name, query.name.value, i) {
      Text.ContainsIgnoringCaseIff(b.name, query.name.value);
    }
  }

  lemma ListByFinished(books: seq<Book>, query: Query)
    requires !Truthy(query.name) && (Truthy(query.reading) || Truthy(query.finished))
    ensures ListBooks(books, query).body.books == Project(Filter(books, FinishedIs(Text.JsNumber(query.finished))))
    ensures forall b :: b in Filter(books, FinishedIs(Text.JsNumber(query.finished))) <==>
      b in books && Text.JsNumber(query.finished) == Some(AsNumber(b.finished))
  {
    FilterMembers(books, FinishedIs(Text.JsNumber(query.finished)));
  }

  /** A `reading` parameter without `finished` lists nothing: `Number(undefined)` is NaN. */
  lemma ReadingAloneListsNothing(books: seq<Book>, query: Query)
    requires !Truthy(query.name) && Truthy(query.reading) && query.finished == None
    ensures ListBooks(books, query).body.books == []
  {
    FilterNone(books, FinishedIs(None));
  }

  /** `?finished=1` lists exactly the finished records, `?finished=0` the others. */
  lemma FinishedFlagQuery(books: seq<Book>, query: Query, flag: bool)
    requires !Truthy(query.name) && query.finished == Some(if flag then "1" else "0")
    ensures forall k :: 0 <= k < |books| && books[k].finished == flag ==>
      Summarize(books[k]) in ListBooks(books, query).body.books
    ensures forall s :: s in ListBooks(books, query).body.books ==>
      exists k :: 0 <= k < |books| && books[k].finished == flag && s == Summarize(books[k])
  {
    var c := FinishedIs(Text.JsNumber(query.finished));
    var numeral := query.finished.value;
    assert |numeral| == 1 && numeral[..0] == [] && Text.AllDigits(numeral);
    assert Text.DecimalValue(numeral) == numeral[0] as int - '0' as int;
    assert Text.JsNumber(query.finished) == Some(AsNumber(flag));
    FilterMembers(books, c);
    var selected := Filter(books, c);
    forall k | 0 <= k < |books| && books[k].finished == flag
      ensures Summarize(books[k]) in Project(selected)
    {
      assert books[k] in selected;
      var j :| 0 <= j < |selected| && selected[j] == books[k];
      assert Project(selected)[j] == Summarize(books[k]);
    }
    forall s | s in Project(selected)
      ensures exists k :: 0 <= k < |books| && books[k].finished == flag && s == Summarize(books[k])
    {
      var j :| 0 <= j < |selected| && Project(selected)[j] == s;
      assert selected[j] in books;
      var k :| 0 <= k < |books| && books[k] == selected[j];
      assert books[k].finished == flag;
    }
  }

  lemma GetByIdFindsFirst(books: seq<Book>, bookId: string)
    ensures var i := FindIndex(books, bookId);
      GetBookById(books, bookId) ==
        if i >= 0 then Response(200, Success, OneBook(books[i]))
        else Response(404, Fail, Message(NOT_FOUND))
  {
    FirstMatchIsFound(books, bookId);
  }

  // ---------------------------------------------------------------------
  // Properties that span two handlers

  /** A book added under a fresh id is what get-by-id returns for that id. */
  lemma AddedBookIsFound(books: seq<Book>, input: BookInput, id: string, now: Timestamp)
    requires input.name.Some? && !HasId(books, id)
    ensures GetBookById(books + [NewBook(input, id, now)], id) ==
      Response(200, Success, OneBook(NewBook(input, id, now)))
  {
    var after := books + [NewBook(input, id, now)];
    assert FindIndex(after, id) == |books| by {
      assert after[|books|].id == id;
      assert forall k :: 0 <= k < |books| ==> after[k].id != id;
    }
    GetByIdFindsFirst(after, id);
  }

  /** Adding a book appends its projection to the unfiltered listing. */
  lemma AddedBookIsListed(books: seq<Book>, b: Book)
    ensures ListBooks(books + [b], Query(None, None, None)).body.books ==
      ListBooks(books, Query(None, None, None)).body.books + [Summarize(b)]
  {
  }

  /** After an update of a known id, get-by-id returns the revised record. */
  lemma RevisedBookIsFound(books: seq<Book>, input: BookInput, id: string, now: Timestamp)
    requires input.name.Some? && HasId(books, id)
    ensures var i := FindIndex(books, id);
      GetBookById(books[i := Revised(books[i], input, now)], id) ==
        Response(200, Success, OneBook(Revised(books[i], input, now)))
  {
    var i := FindIndex(books, id);
    var after := books[i := Revised(books[i], input, now)];
    assert FindIndex(after, id) == i by {
      assert after[i].id == id;
      assert forall k :: 0 <= k < i ==> after[k].id != id;
    }
    GetByIdFindsFirst(after, id);
  }

  /** Once the only record with an id is deleted, get-by-id answers 404 for it. */
  lemma DeletedBookIsGone(books: seq<Book>, id: string)
    requires IdsUnique(books) && HasId(books, id)
    ensures var i := FindIndex(books, id);
      GetBookById(books[..i] + books[i + 1..], id) == Response(404, Fail, Message(NOT_FOUND))
  {
    var i := FindIndex(books, id);
    var after := books[..i] + books[i + 1..];
    assert !HasId(after, id) by {
      forall k | 0 <= k < |after| ensures after[k].id != id {
        if k < i {
          assert after[k] == books[k];
        } else {
          assert after[k] == books[k + 1];
        }
      }
    }
    GetByIdFindsFirst(after, id);
  }

  lemma RemovePreservesUnique(books: seq<Book>, i: int)
    requires IdsUnique(books) && 0 <= i < |books|
    ensures IdsUnique(books[..i] + books[i + 1..])
  {
    var after := books[..i] + books[i + 1..];
    forall k | 0 <= k < |after| ensures after[k] == books[if k < i then k else k + 1] { }
  }

  lemma ReplacePreservesUnique(books: seq<Book>, i: int, b: Book)
    requires IdsUnique(books) && 0 <= i < |books| && b.id == books[i].id
    ensures IdsUnique(books[i := b])
  {
  }

  // ---------------------------------------------------------------------
  // The collection and the handlers that change it

  class Shelf {
    /** The shared collection, in insertion order. */
    var books: seq<Book>

    constructor (initial: seq<Book>)
      ensures books == initial
    {
      books := initial;
    }

    /** POST /books, with `id` standing for the generated identifier and
        `now` for the current time. */
    method AddBook(input: BookInput, id: string, now: Timestamp) returns (r: Response)
      modifies this
      ensures Validate(input) == Some(MissingName) ==>
        r == Response(400, Fail, Message(ADD_MISSING_NAME)) && books == old(books)
      ensures Validate(input) == Some(ReadPageTooLarge) ==>
        r == Response(400, Fail, Message(ADD_READ_PAGE_TOO_LARGE)) && books == old(books)
      ensures Validate(input) == None ==>
        r == Response(201, Success, BookAdded(ADDED, id)) &&
        books == old(books) + [NewBook(input, id, now)]
      ensures Validate(input) == None ==>
        var b := books[|books| - 1];
        b.id == id && b.finished == (input.readPage == input.pageCount) &&
        b.insertedAt == b.updatedAt == now
      ensures AllWellFormed(old(books)) ==> AllWellFormed(books)
      ensures IdsUnique(old(books)) && !HasId(old(books), id) ==> IdsUnique(books)
    {
      if !Truthy(input.name) {
        return Response(400, Fail, Message(ADD_MISSING_NAME));
      }
      if input.readPage > input.pageCount {
        return Response(400, Fail, Message(ADD_READ_PAGE_TOO_LARGE));
      }
      var newBook := NewBook(input, id, now);
      ghost var before := books;
      books := books + [newBook];
      FilterAppend(before, [newBook], IdIs(id));
      var isSuccess := |Filter(books, IdIs(id))| > 0;
      r := if isSuccess then Response(201, Success, BookAdded(ADDED, id))
           else Response(500, Fail, Message(ADD_FAILED));
    }

    /** PUT /books/{bookId}, with `now` standing for the current time. */
    method UpdateBook(bookId: string, input: BookInput, now: Timestamp) returns (r: Response)
      modifies this
      ensures Validate(input) == Some(MissingName) ==>
        r == Response(400, Fail, Message(UPDATE_MISSING_NAME)) && books == old(books)
      ensures Validate(input) == Some(ReadPageTooLarge) ==>
        r == Response(400, Fail, Message(UPDATE_READ_PAGE_TOO_LARGE)) && books == old(books)
      ensures Validate(input) == None && !HasId(old(books), bookId) ==>
        r == Response(404, Fail, Message(UPDATE_ID_NOT_FOUND)) && books == old(books)
      ensures Validate(input) == None && HasId(old(books), bookId) ==>
        var i := FindIndex(old(books), bookId);
        r == Response(200, Success, Message(UPDATED)) &&
        books == old(books)[i := Revised(old(books)[i], input, now)]
      ensures Validate(input) == None && HasId(old(books), bookId) ==>
        var i := FindIndex(old(books), bookId);
        |books| == |old(books)| &&
        books[i].id == old(books)[i].id && books[i].insertedAt == old(books)[i].insertedAt &&
        books[i].finished == (input.pageCount == input.readPage) && books[i].updatedAt == now &&
        forall k :: 0 <= k < |books| && k != i ==> books[k] == old(books)[k]
      ensures AllWellFormed(old(books)) ==> AllWellFormed(books)
      ensures IdsUnique(old(books)) ==> IdsUnique(books)
    {
      if !Truthy(input.name) {
        return Response(400, Fail, Message(UPDATE_MISSING_NAME));
      }
      if input.readPage > input.pageCount {
        return Response(400, Fail, Message(UPDATE_READ_PAGE_TOO_LARGE));
      }
      var index := FindIndex(books, bookId);
      if index != -1 {
        var revised := Revised(books[index], input, now);
        if IdsUnique(books) {
          ReplacePreservesUnique(books, index, revised);
        }
        books := books[index := revised];
        return Response(200, Success, Message(UPDATED));
      }
      r := Response(404, Fail, Message(UPDATE_ID_NOT_FOUND));
    }

    /** DELETE /books/{bookId}. */
    method DeleteBook(bookId: string) returns (r: Response)
      modifies this
      ensures !HasId(old(books), bookId) ==>
        r == Response(404, Fail, Message(DELETE_ID_NOT_FOUND)) && books == old(books)
      ensures HasId(old(books), bookId) ==>
        var i := FindIndex(old(books), bookId);
        r == Response(200, Success, Message(DELETED)) &&
        books == old(books)[..i] + old(books)[i + 1..] && |books| == |old(books)| - 1
      ensures AllWellFormed(old(books)) ==> AllWellFormed(books)
      ensures IdsUnique(old(books)) ==> IdsUnique(books)
    {
      var index := FindIndex(books, bookId);
      if index != -1 {
        if IdsUnique(books) {
          RemovePreservesUnique(books, index);
        }
        ghost var before := books;
        books := books[..index] + books[index + 1..];
        assert forall k :: 0 <= k < |books| ==> books[k] == before[if k < index then k else k + 1];
        return Response(200, Success, Message(DELETED));
      }
      r := Response(404, Fail, Message(DELETE_ID_NOT_FOUND));
    }
  }
}
