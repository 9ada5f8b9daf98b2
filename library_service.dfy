/** LibraryService: lookups, availability search and overdue computation over a store of libraries. */
module LibraryServices {
  import opened Models
  import opened CheckableService

  /** Some library in the store is named exactly `name`. */
  predicate HasLibraryNamed(libs: seq<Library>, name: string)
  {
    exists i :: 0 <= i < |libs| && libs[i].name == name
  }

  /** The invariant that save keeps: library names are pairwise distinct. */
  predicate NamesDistinct(libs: seq<Library>)
  {
    forall i, j :: 0 <= i < j < |libs| ==> libs[i].name != libs[j].name
  }

  /** getLibraryByName: the library named exactly `name` (the first, should there be several),
      or LibraryNotFound. */
  function GetLibraryByName(libs: seq<Library>, name: string): (r: Result<Library>)
    ensures r.Err? <==> !HasLibraryNamed(libs, name)
    ensures r.Err? ==> r.error == LibraryNotFound(name)
    ensures r.Ok? ==> r.value in libs && r.value.name == name
  {
    if libs == [] then Err(LibraryNotFound(name))
    else if libs[0].name == name then Ok(libs[0])
    else
      assert HasLibraryNamed(libs, name) ==> HasLibraryNamed(libs[1..], name) by {
        if HasLibraryNamed(libs, name) {
          var i :| 0 <= i < |libs| && libs[i].name == name;
          assert libs[1..][i - 1] == libs[i];
        }
      }
      GetLibraryByName(libs[1..], name)
  }

  /** Some entry of an amount list is for the item with this ISBN. */
  predicate HasEntry(amounts: seq<CheckableAmount>, isbn: string)
  {
    exists k :: 0 <= k < |amounts| && amounts[k].checkable.isbn == isbn
  }

  /** Entry `k` is the first one of the list for the item with this ISBN. */
  predicate IsFirstEntry(amounts: seq<CheckableAmount>, isbn: string, k: int)
  {
    && 0 <= k < |amounts|
    && amounts[k].checkable.isbn == isbn
    && forall j :: 0 <= j < k ==> amounts[j].checkable.isbn != isbn
  }

  /** The filter/findFirst over a library's amount list. */
  function FirstEntry(amounts: seq<CheckableAmount>, isbn: string): (r: Option<CheckableAmount>)
    ensures r.Some? <==> HasEntry(amounts, isbn)
    ensures r.Some? ==> exists k :: IsFirstEntry(amounts, isbn, k) && r.value == amounts[k]
    ensures forall k :: IsFirstEntry(amounts, isbn, k) ==> r == Some(amounts[k])
  {
    if amounts == [] then None
    else if amounts[0].checkable.isbn == isbn then Some(amounts[0])
    else
      var r := FirstEntry(amounts[1..], isbn);
      assert HasEntry(amounts, isbn) ==> HasEntry(amounts[1..], isbn) by {
        if HasEntry(amounts, isbn) {
          var k :| 0 <= k < |amounts| && amounts[k].checkable.isbn == isbn;
          assert amounts[1..][k - 1] == amounts[k];
        }
      }
      assert forall k :: IsFirstEntry(amounts, isbn, k) ==> IsFirstEntry(amounts[1..], isbn, k - 1);
      assert r.Some? ==> exists k :: IsFirstEntry(amounts, isbn, k) && r.value == amounts[k] by {
        if r.Some? {
          var k :| IsFirstEntry(amounts[1..], isbn, k) && r.value == amounts[1..][k];
          assert IsFirstEntry(amounts, isbn, k + 1);
        }
      }
      r
  }

  /** getCheckableAmount: the library is resolved first, then the checkable; the result is the
      library's first entry for the ISBN, or a fresh zero-amount entry that nothing stores. */
  function GetCheckableAmount(libs: seq<Library>, store: seq<Checkable>, libraryName: string, isbn: string)
    : (r: Result<CheckableAmount>)
    ensures !HasLibraryNamed(libs, libraryName) ==> r == Err(LibraryNotFound(libraryName))
    ensures HasLibraryNamed(libs, libraryName) && !HasCheckable(store, isbn) ==> r == Err(CheckableNotFound(isbn))
    ensures r.Ok? <==> HasLibraryNamed(libs, libraryName) && HasCheckable(store, isbn)
    ensures r.Ok? ==> r.value.checkable.isbn == isbn
    ensures r.Ok? ==>
      var amounts := GetLibraryByName(libs, libraryName).value.checkables;
      && (forall k :: IsFirstEntry(amounts, isbn, k) ==> r.value == amounts[k])
      && (!HasEntry(amounts, isbn) ==> r.value == CheckableAmount(GetByIsbn(store, isbn).value, 0))
  {
    var library := GetLibraryByName(libs, libraryName);
    if library.Err? then Err(library.error)
    else
      var checkable := GetByIsbn(store, isbn);
      if checkable.Err? then Err(checkable.error)
      else
        var entry := FirstEntry(library.value.checkables, isbn);
        if entry.Some? then Ok(entry.value) else Ok(CheckableAmount(checkable.value, 0))
  }

  /** What one library contributes to the availability search: its first entry's amount, if any. */
  function AvailableAt(library: Library, isbn: string): seq<LibraryAvailableCheckouts>
  {
    match FirstEntry(library.checkables, isbn)
    case Some(entry) => [LibraryAvailableCheckouts(entry.amount, library.name)]
    case None => []
  }

  /** The availability search over a list of libraries, in list order. */
  function AvailableCheckouts(libs: seq<Library>, isbn: string): seq<LibraryAvailableCheckouts>
  {
    if libs == [] then []
    else AvailableCheckouts(libs[..|libs| - 1], isbn) + AvailableAt(libs[|libs| - 1], isbn)
  }

  /** The overdue checkouts of one card, in checkout order. */
  function OverdueOnCard(patron: Patron, checkouts: seq<Checkout>, now: int): seq<OverdueCheckout>
  {
    if checkouts == [] then []
    else
      var last := checkouts[|checkouts| - 1];
      OverdueOnCard(patron, checkouts[..|checkouts| - 1], now)
        + (if last.dueDate < now then [OverdueCheckout(patron, last)] else [])
  }

  /** The overdue checkouts of a list of cards, by card and then by checkout. */
  function OverdueCheckouts(cards: seq<LibraryCard>, now: int): seq<OverdueCheckout>
  {
    if cards == [] then []
    else
      var last := cards[|cards| - 1];
      OverdueCheckouts(cards[..|cards| - 1], now) + OverdueOnCard(last.patron, last.checkouts, now)
  }

  /** Appending a library with an unused name keeps the names distinct. */
  lemma AppendFreshNameKeepsDistinct(libs: seq<Library>, library: Library)
    requires NamesDistinct(libs)
    requires !HasLibraryNamed(libs, library.name)
    ensures NamesDistinct(libs + [library])
  {
    var s := libs + [library];
    forall i, j | 0 <= i < j < |s| ensures s[i].name != s[j].name {
      if j == |libs| {
        assert s[i] == libs[i];
      } else {
        assert s[i] == libs[i] && s[j] == libs[j];
      }
    }
  }

  /** The service over an in-memory library store and the checkable store it consults. */
  class LibraryService {
    var libraries: seq<Library>
    const checkables: seq<Checkable>

    constructor (libraries: seq<Library>, checkables: seq<Checkable>)
      ensures this.libraries == libraries && this.checkables == checkables
    {
      this.libraries := libraries;
      this.checkables := checkables;
    }

    /** getLibraries: every stored library, in store order. */
    method GetLibraries() returns (r: seq<Library>)
      ensures r == libraries
    {
      r := libraries;
    }

    /** save: refuses a library whose name is taken; otherwise stores it. */
    method Save(library: Library) returns (outcome: Outcome)
      modifies this`libraries
      ensures HasLibraryNamed(old(libraries), library.name) ==>
                outcome == Fail(ResourceExists(library.name)) && libraries == old(libraries)
      ensures !HasLibraryNamed(old(libraries), library.name) ==>
                outcome == Pass && libraries == old(libraries) + [library]
      ensures NamesDistinct(old(libraries)) ==> NamesDistinct(libraries)
    {
      if exists i :: 0 <= i < |libraries| && libraries[i].name == library.name {
        return Fail(ResourceExists(library.name));
      }
      if NamesDistinct(libraries) {
        AppendFreshNameKeepsDistinct(libraries, library);
      }
      libraries := libraries + [library];
      outcome := Pass;
    }

    /** getLibrariesWithAvailableCheckout: the item must exist; then one view per library
        that has an entry for it, in store order. */
    method GetLibrariesWithAvailableCheckout(isbn: string) returns (r: Result<seq<LibraryAvailableCheckouts>>)
      ensures r.Err? <==> !HasCheckable(checkables, isbn)
      ensures r.Err? ==> r.error == CheckableNotFound(isbn)
      ensures r.Ok? ==> r.value == AvailableCheckouts(libraries, isbn)
    {
      var checkable := GetByIsbn(checkables, isbn);
      if checkable.Err? {
        return Err(checkable.error);
      }
      var allLibraries := libraries;
      var available: seq<LibraryAvailableCheckouts> := [];
      for i := 0 to |allLibraries|
        invariant available == AvailableCheckouts(allLibraries[..i], isbn)
      {
        var library := allLibraries[i];
        var entry := FirstEntry(library.checkables, isbn);
        if entry.Some? {
          available := available + [LibraryAvailableCheckouts(entry.value.amount, library.name)];
        }
        assert allLibraries[..i + 1][..i] == allLibraries[..i];
      }
      assert allLibraries[..|allLibraries|] == allLibraries;
      r := Ok(available);
    }

    /** getOverdueCheckouts: the library must exist; then every checkout due strictly before
        `now`, paired with its card's patron, by card and then by checkout. */
    method GetOverdueCheckouts(libraryName: string, now: int) returns (r: Result<seq<OverdueCheckout>>)
      ensures r.Err? <==> !HasLibraryNamed(libraries, libraryName)
      ensures r.Err? ==> r.error == LibraryNotFound(libraryName)
      ensures r.Ok? ==> r.value == OverdueCheckouts(GetLibraryByName(libraries, libraryName).value.cards, now)
    {
      var found := GetLibraryByName(libraries, libraryName);
      if found.Err? {
        return Err(found.error);
      }
      var cards := found.value.cards;
      var overdue: seq<OverdueCheckout> := [];
      for i := 0 to |cards|
        invariant overdue == OverdueCheckouts(cards[..i], now)
      {
        var card := cards[i];
        for j := 0 to |card.checkouts|
          invariant overdue == OverdueCheckouts(cards[..i], now) + OverdueOnCard(card.patron, card.checkouts[..j], now)
        {
          var checkout := card.checkouts[j];
          if checkout.dueDate < now {
            overdue := overdue + [OverdueCheckout(card.patron, checkout)];
          }
          assert card.checkouts[..j + 1][..j] == card.checkouts[..j];
        }
        assert card.checkouts[..|card.checkouts|] == card.checkouts;
        assert cards[..i + 1][..i] == cards[..i];
      }
      assert cards[..|cards|] == cards;
      r := Ok(overdue);
    }
  }
}
