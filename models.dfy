/** The entities of the library backend, as values. */
module Models {

  /** The kinds of media a checkable item can be. */
  datatype MediaType = BOOK | MUSIC

  /** A borrowable item, identified by its ISBN. */
  datatype Checkable = Media(isbn: string, title: string, author: string, mediaType: MediaType)

  /** A library's count of copies of one checkable item. */
  datatype CheckableAmount = CheckableAmount(checkable: Checkable, amount: int)

  /** A library member. */
  datatype Patron = Patron(name: string)

  /** One active loan; the due date is a timestamp ordered by `<`. */
  datatype Checkout = Checkout(checkable: Checkable, dueDate: int)

  /** A patron's membership at one library, with that patron's checkouts there. */
  datatype LibraryCard = LibraryCard(patron: Patron, checkouts: seq<Checkout>)

  /** A library, identified by its name (an exact, case-sensitive match). */
  datatype Library = Library(name: string, checkables: seq<CheckableAmount>, cards: seq<LibraryCard>)

  /** View: how many copies of an item one library holds. */
  datatype LibraryAvailableCheckouts = LibraryAvailableCheckouts(available: int, libraryName: string)

  /** View: an overdue checkout together with the patron of its card. */
  datatype OverdueCheckout = OverdueCheckout(patron: Patron, checkout: Checkout)

  /** The service's exceptions, each carrying the key that was missing or taken. */
  datatype Error =
    | LibraryNotFound(name: string)
    | CheckableNotFound(isbn: string)
    | ResourceExists(name: string)

  /** A value, or the exception the operation raised instead. */
  datatype Result<T> = Ok(value: T) | Err(error: Error)

  /** A value that may be absent (Java's Optional). */
  datatype Option<T> = None | Some(value: T)

  /** The outcome of an operation that returns nothing: done, or the exception it raised. */
  datatype Outcome = Pass | Fail(error: Error)
}
