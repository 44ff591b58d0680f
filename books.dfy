/** controllers/BookController.js: putting a book on a user's shelf or taking it off
    (setBookToUser) and the category filter of searchBooks. The shelf is the user's list
    of book ids; an empty id stands for a missing (falsy) one. */
module Books {
  import opened Wrappers
  import opened Accounts
  import opened RoomUtils

  datatype Book = Book(id: string, title: string, author: string, category: Option<string>)

  const Ok: int := 200
  const BadRequest: int := 400
  const NotFound: int := 404
  const ServerError: int := 500

  /** `books.filter(b => b !== bookId)`: every copy of the id taken out, the rest in order. */
  function Without(bs: seq<string>, bookId: string): (r: seq<string>)
    ensures bookId !in r
    ensures forall x :: x in r <==> x in bs && x != bookId
    ensures multiset(r) == multiset(bs)[bookId := 0]
  {
    if |bs| == 0 then []
    else
      assert bs == [bs[0]] + bs[1..];
      if bs[0] == bookId then Without(bs[1..], bookId) else [bs[0]] + Without(bs[1..], bookId)
  }

  /** The shelf after one call: a book already on it is removed, copies included; any
      other is appended at the end. */
  function Toggled(bs: seq<string>, bookId: string): (r: seq<string>)
    ensures bookId in r <==> bookId !in bs
    ensures bookId in bs ==> r == Without(bs, bookId)
    ensures bookId !in bs ==> r == bs + [bookId]
  {
    if bookId in bs then Without(bs, bookId) else bs + [bookId]
  }

  /** The status of the reply and the users afterwards. */
  datatype ShelfStep = ShelfStep(status: int, users: map<string, User>)

  /** A string `findById` can cast to an ObjectId: 24 hexadecimal digits. Any other
      string makes the cast throw. */
  predicate CastsToObjectId(id: string) {
    |id| == 24 && AllHex(id)
  }

  function LowerHexChar(c: char): char {
    if 'A' <= c <= 'F' then (c as int + 32) as char else c
  }

  /** The id as a cast ObjectId prints it (`_id.toString()`): hex digits in lower case.
      Users and books are stored under this form. */
  function Canonical(id: string): (c: string)
    ensures |c| == |id|
    ensures forall i :: 0 <= i < |id| ==> c[i] == LowerHexChar(id[i])
  {
    if id == [] then [] else [LowerHexChar(id[0])] + Canonical(id[1..])
  }

  /** The shelf after a request naming `bookId`: the shelf entries print in lower case and
      are compared with the id exactly as sent, while an appended book carries its stored
      id. For an id sent in lower case this is Toggled (ToggleOnCanonicalId). */
  function Shelved(bs: seq<string>, bookId: string): seq<string> {
    if bookId in bs then Without(bs, bookId) else bs + [Canonical(bookId)]
  }

  /** setBookToUser. `findById` casts each id before the lookup: a malformed one throws,
      which the handler's catch answers with 500; a well-formed one finds the document
      whatever the case of its hex digits. */
  function SetBookToUserSpec(users: map<string, User>, books: map<string, Book>, userId: string, bookId: string)
    : (s: ShelfStep)
    ensures userId == "" || bookId == "" ==> s == ShelfStep(BadRequest, users)
    ensures userId != "" && bookId != "" && !CastsToObjectId(bookId) ==> s == ShelfStep(ServerError, users)
    ensures userId != "" && CastsToObjectId(bookId) && Canonical(bookId) !in books ==> s == ShelfStep(NotFound, users)
    ensures (CastsToObjectId(bookId) && Canonical(bookId) in books && userId != "" && !CastsToObjectId(userId))
            ==> s == ShelfStep(ServerError, users)
    ensures (CastsToObjectId(bookId) && Canonical(bookId) in books && CastsToObjectId(userId)
             && Canonical(userId) !in users) ==> s == ShelfStep(NotFound, users)
    ensures s.status == Ok <==>
      CastsToObjectId(bookId) && Canonical(bookId) in books && CastsToObjectId(userId) && Canonical(userId) in users
    ensures s.status != Ok ==> s.users == users
    ensures s.status == Ok ==>
      var key := Canonical(userId);
      s.users == users[key := users[key].(books := Shelved(users[key].books, bookId))]
  {
    if userId == "" || bookId == "" then ShelfStep(BadRequest, users)
    else if !CastsToObjectId(bookId) then ShelfStep(ServerError, users)
    else if Canonical(bookId) !in books then ShelfStep(NotFound, users)
    else if !CastsToObjectId(userId) then ShelfStep(ServerError, users)
    else if Canonical(userId) !in users then ShelfStep(NotFound, users)
    else
      var key := Canonical(userId);
      var u := users[key];
      ShelfStep(Ok, users[key := u.(books := Shelved(u.books, bookId))])
  }

  /** searchBooks' post-filter: with a non-empty category only the found books whose
      category is exactly it, in the order found; with none, all of them. */
  function FilterByCategory(found: seq<Book>, category: string): (r: seq<Book>)
    ensures category == "" ==> r == found
    ensures category != "" ==> forall b :: b in r <==> b in found && b.category == Some(category)
    ensures |r| <= |found|
  {
    if category == "" then found
    else if |found| == 0 then []
    else if found[0].category == Some(category) then [found[0]] + FilterByCategory(found[1..], category)
    else FilterByCategory(found[1..], category)
  }

  // ---------------------------------------------------------------- properties

  /** Taking the copies out works piece by piece, so the remaining books keep their order. */
  lemma {:induction false} WithoutAppend(a: seq<string>, b: seq<string>, bookId: string)
    ensures Without(a + b, bookId) == Without(a, bookId) + Without(b, bookId)
  {
    if |a| == 0 {
      assert a + b == b;
    } else {
      assert (a + b)[1..] == a[1..] + b;
      WithoutAppend(a[1..], b, bookId);
    }
  }

  /** A shelf without the book is left as it is. */
  lemma {:induction false} WithoutAbsent(bs: seq<string>, bookId: string)
    requires bookId !in bs
    ensures Without(bs, bookId) == bs
  {
    if |bs| > 0 {
      WithoutAbsent(bs[1..], bookId);
      assert bs == [bs[0]] + bs[1..];
    }
  }

  /** Two calls from a shelf without the book give the shelf back. */
  lemma ToggleTwiceFromAbsent(bs: seq<string>, bookId: string)
    requires bookId !in bs
    ensures Toggled(Toggled(bs, bookId), bookId) == bs
  {
    WithoutAppend(bs, [bookId], bookId);
    WithoutAbsent(bs, bookId);
    assert Without([bookId], bookId) == [];
  }

  /** Two calls from a shelf holding the book, perhaps several times, leave one copy at
      the end: the round trip does not restore the original position or the duplicates. */
  lemma ToggleTwiceFromPresent(bs: seq<string>, bookId: string)
    requires bookId in bs
    ensures Toggled(Toggled(bs, bookId), bookId) == Without(bs, bookId) + [bookId]
  {
  }

  /** Canonical forms are fixed points. */
  lemma {:induction false} CanonicalIdempotent(id: string)
    ensures Canonical(Canonical(id)) == Canonical(id)
  {
    if id != [] {
      CanonicalIdempotent(id[1..]);
      assert Canonical(id)[1..] == Canonical(id[1..]);
    }
  }

  /** For an id sent in its stored lower-case form, a request toggles the book. */
  lemma ToggleOnCanonicalId(bs: seq<string>, bookId: string)
    requires bookId == Canonical(bookId)
    ensures Shelved(bs, bookId) == Toggled(bs, bookId)
  {
  }

  /** An id sent with upper-case hex digits finds the book, but never equals a shelf entry:
      the book is appended again, whether or not the shelf already holds it. */
  lemma UpperCaseIdAppendsAgain(bs: seq<string>, bookId: string, i: nat)
    requires i < |bookId| && 'A' <= bookId[i] <= 'F'
    requires forall x :: x in bs ==> x == Canonical(x)
    ensures Shelved(bs, bookId) == bs + [Canonical(bookId)]
  {
    assert Canonical(bookId)[i] != bookId[i];
    assert bookId !in bs;
  }

  /** The same request twice, with the book id in its stored form, from a shelf without the
      book gives the users back. */
  lemma SetBookTwiceRestores(users: map<string, User>, books: map<string, Book>, userId: string, bookId: string)
    requires bookId == Canonical(bookId)
    requires Canonical(userId) in users && bookId !in users[Canonical(userId)].books
    ensures var once := SetBookToUserSpec(users, books, userId, bookId);
            SetBookToUserSpec(once.users, books, userId, bookId).users == users
  {
    var once := SetBookToUserSpec(users, books, userId, bookId);
    if once.status == Ok {
      var key := Canonical(userId);
      ToggleTwiceFromAbsent(users[key].books, bookId);
      var twice := SetBookToUserSpec(once.users, books, userId, bookId);
      assert twice.users[key] == users[key];
    }
  }

  /** The filter keeps the order of the search results. */
  lemma {:induction false} FilterByCategoryAppend(a: seq<Book>, b: seq<Book>, category: string)
    ensures FilterByCategory(a + b, category) == FilterByCategory(a, category) + FilterByCategory(b, category)
  {
    if category != "" && |a| > 0 {
      assert (a + b)[1..] == a[1..] + b;
      FilterByCategoryAppend(a[1..], b, category);
    } else if |a| == 0 {
      assert a + b == b;
    }
  }
}
