/** Properties of the library service's lookups and derived views. */
module LibraryServiceLemmas {
  import opened Models
  import opened CheckableService
  import opened LibraryServices

  // ----- getLibraryByName and save -----

  /** With distinct names, looking up a stored library's name returns that library. */
  lemma {:induction false} GetLibraryByNameUnique(libs: seq<Library>, i: nat)
    requires NamesDistinct(libs)
    requires i < |libs|
    ensures GetLibraryByName(libs, libs[i].name) == Ok(libs[i])
  {
    if i > 0 {
      assert libs[0].name != libs[i].name;
      assert libs[1..][i - 1] == libs[i];
      assert NamesDistinct(libs[1..]) by {
        forall a, b | 0 <= a < b < |libs| - 1 ensures libs[1..][a].name != libs[1..][b].name {
          assert libs[1..][a] == libs[a + 1] && libs[1..][b] == libs[b + 1];
        }
      }
      GetLibraryByNameUnique(libs[1..], i - 1);
    }
  }

  /** Once save has stored a library under a fresh name, the lookup by that name finds it. */
  lemma {:induction false} SaveThenLookup(libs: seq<Library>, library: Library)
    requires !HasLibraryNamed(libs, library.name)
    ensures GetLibraryByName(libs + [library], library.name) == Ok(library)
  {
    if libs != [] {
      assert (libs + [library])[1..] == libs[1..] + [library];
      assert libs[0].name != library.name;
      assert !HasLibraryNamed(libs[1..], library.name) by {
        forall i | 0 <= i < |libs[1..]| ensures libs[1..][i].name != library.name {
          assert libs[1..][i] == libs[i + 1];
        }
      }
      SaveThenLookup(libs[1..], library);
    }
  }

  /** Storing a library changes no lookup of any other name. */
  lemma {:induction false} SaveKeepsOtherLookups(libs: seq<Library>, library: Library, name: string)
    requires name != library.name
    ensures GetLibraryByName(libs + [library], name) == GetLibraryByName(libs, name)
  {
    if libs != [] {
      assert (libs + [library])[1..] == libs[1..] + [library];
      SaveKeepsOtherLookups(libs[1..], library, name);
    }
  }

  // ----- getLibrariesWithAvailableCheckout -----

  /** The search distributes over concatenation: results keep the order of the libraries. */
  lemma {:induction false} AvailableAppend(a: seq<Library>, b: seq<Library>, isbn: string)
    ensures AvailableCheckouts(a + b, isbn) == AvailableCheckouts(a, isbn) + AvailableCheckouts(b, isbn)
  {
    if b != [] {
      var b' := b[..|b| - 1];
      assert (a + b)[..|a + b| - 1] == a + b';
      assert (a + b)[|a + b| - 1] == b[|b| - 1];
      AvailableAppend(a, b', isbn);
    } else {
      assert a + b == a;
    }
  }

  /** A library yields at most one result, so there are never more results than libraries. */
  lemma {:induction false} AvailableLength(libs: seq<Library>, isbn: string)
    ensures |AvailableCheckouts(libs, isbn)| <= |libs|
  {
    if libs != [] {
      AvailableLength(libs[..|libs| - 1], isbn);
    }
  }

  /** A view is in the result exactly when some library has an entry for the item and the view
      carries that library's name and the amount of its first such entry. */
  lemma {:induction false} AvailableMember(libs: seq<Library>, isbn: string, v: LibraryAvailableCheckouts)
    ensures v in AvailableCheckouts(libs, isbn) <==>
      exists i, k :: 0 <= i < |libs| && IsFirstEntry(libs[i].checkables, isbn, k)
                     && v == LibraryAvailableCheckouts(libs[i].checkables[k].amount, libs[i].name)
  {
    if libs != [] {
      var n := |libs| - 1;
      var init := libs[..n];
      AvailableMember(init, isbn, v);
      var last := libs[n];
      if v in AvailableCheckouts(libs, isbn) {
        if v in AvailableCheckouts(init, isbn) {
          var i, k :| 0 <= i < |init| && IsFirstEntry(init[i].checkables, isbn, k)
                      && v == LibraryAvailableCheckouts(init[i].checkables[k].amount, init[i].name);
          assert libs[i] == init[i];
        } else {
          assert v in AvailableAt(last, isbn);
          var k :| IsFirstEntry(last.checkables, isbn, k) && FirstEntry(last.checkables, isbn).value == last.checkables[k];
          assert IsFirstEntry(libs[n].checkables, isbn, k);
        }
      }
      if exists i, k :: 0 <= i < |libs| && IsFirstEntry(libs[i].checkables, isbn, k)
                        && v == LibraryAvailableCheckouts(libs[i].checkables[k].amount, libs[i].name) {
        var i, k :| 0 <= i < |libs| && IsFirstEntry(libs[i].checkables, isbn, k)
                    && v == LibraryAvailableCheckouts(libs[i].checkables[k].amount, libs[i].name);
        if i < n {
          assert init[i] == libs[i];
        } else {
          assert AvailableAt(last, isbn) == [v];
        }
      }
    }
  }

  /** The search returns nothing exactly when no library has an entry for the item. */
  lemma {:induction false} AvailableEmpty(libs: seq<Library>, isbn: string)
    ensures AvailableCheckouts(libs, isbn) == [] <==> forall i :: 0 <= i < |libs| ==> !HasEntry(libs[i].checkables, isbn)
  {
    if libs != [] {
      var n := |libs| - 1;
      AvailableEmpty(libs[..n], isbn);
      assert forall i :: 0 <= i < n ==> libs[..n][i] == libs[i];
    }
  }

  /** With distinct names, each reported amount is the one getCheckableAmount gives for
      that library and item. */
  lemma AvailableAgreesWithCheckableAmount(libs: seq<Library>, store: seq<Checkable>, isbn: string, j: nat)
    requires NamesDistinct(libs)
    requires HasCheckable(store, isbn)
    requires j < |AvailableCheckouts(libs, isbn)|
    ensures var v := AvailableCheckouts(libs, isbn)[j];
            && GetCheckableAmount(libs, store, v.libraryName, isbn).Ok?
            && GetCheckableAmount(libs, store, v.libraryName, isbn).value.amount == v.available
  {
    var v := AvailableCheckouts(libs, isbn)[j];
    AvailableMember(libs, isbn, v);
    var i, k :| 0 <= i < |libs| && IsFirstEntry(libs[i].checkables, isbn, k)
                && v == LibraryAvailableCheckouts(libs[i].checkables[k].amount, libs[i].name);
    GetLibraryByNameUnique(libs, i);
    assert HasLibraryNamed(libs, v.libraryName);
  }

  // ----- getOverdueCheckouts -----

  /** The overdue computation distributes over concatenation of the card list. */
  lemma {:induction false} OverdueAppend(a: seq<LibraryCard>, b: seq<LibraryCard>, now: int)
    ensures OverdueCheckouts(a + b, now) == OverdueCheckouts(a, now) + OverdueCheckouts(b, now)
  {
    if b != [] {
      var b' := b[..|b| - 1];
      assert (a + b)[..|a + b| - 1] == a + b';
      assert (a + b)[|a + b| - 1] == b[|b| - 1];
      OverdueAppend(a, b', now);
    } else {
      assert a + b == a;
    }
  }

  /** Within one card, a view is reported exactly for each checkout due strictly before `now`. */
  lemma {:induction false} OverdueOnCardMember(patron: Patron, checkouts: seq<Checkout>, now: int, o: OverdueCheckout)
    ensures o in OverdueOnCard(patron, checkouts, now) <==>
      exists j :: 0 <= j < |checkouts| && checkouts[j].dueDate < now && o == OverdueCheckout(patron, checkouts[j])
  {
    if checkouts != [] {
      var n := |checkouts| - 1;
      OverdueOnCardMember(patron, checkouts[..n], now, o);
      assert forall j :: 0 <= j < n ==> checkouts[..n][j] == checkouts[j];
    }
  }

  /** Over all cards, a view is reported exactly for each checkout due strictly before `now`,
      paired with the patron of the card holding it; one due exactly at `now` is not. */
  lemma {:induction false} OverdueMember(cards: seq<LibraryCard>, now: int, o: OverdueCheckout)
    ensures o in OverdueCheckouts(cards, now) <==>
      exists i, j :: 0 <= i < |cards| && 0 <= j < |cards[i].checkouts|
                     && cards[i].checkouts[j].dueDate < now
                     && o == OverdueCheckout(cards[i].patron, cards[i].checkouts[j])
  {
    if cards != [] {
      var n := |cards| - 1;
      var init := cards[..n];
      var last := cards[n];
      OverdueMember(init, now, o);
      OverdueOnCardMember(last.patron, last.checkouts, now, o);
      if o in OverdueCheckouts(cards, now) {
        if o in OverdueCheckouts(init, now) {
          var i, j :| 0 <= i < |init| && 0 <= j < |init[i].checkouts| && init[i].checkouts[j].dueDate < now
                      && o == OverdueCheckout(init[i].patron, init[i].checkouts[j]);
          assert cards[i] == init[i];
        } else {
          var j :| 0 <= j < |last.checkouts| && last.checkouts[j].dueDate < now
                   && o == OverdueCheckout(last.patron, last.checkouts[j]);
          assert cards[n].checkouts[j] == last.checkouts[j];
        }
      }
      if exists i, j :: 0 <= i < |cards| && 0 <= j < |cards[i].checkouts|
                        && cards[i].checkouts[j].dueDate < now
                        && o == OverdueCheckout(cards[i].patron, cards[i].checkouts[j]) {
        var i, j :| 0 <= i < |cards| && 0 <= j < |cards[i].checkouts|
                    && cards[i].checkouts[j].dueDate < now
                    && o == OverdueCheckout(cards[i].patron, cards[i].checkouts[j]);
        if i < n {
          assert init[i] == cards[i];
        }
      }
    }
  }

  /** Every reported checkout is due strictly before `now`. */
  lemma OverdueAllBefore(cards: seq<LibraryCard>, now: int)
    ensures forall k :: 0 <= k < |OverdueCheckouts(cards, now)| ==> OverdueCheckouts(cards, now)[k].checkout.dueDate < now
  {
    forall k | 0 <= k < |OverdueCheckouts(cards, now)|
      ensures OverdueCheckouts(cards, now)[k].checkout.dueDate < now
    {
      OverdueMember(cards, now, OverdueCheckouts(cards, now)[k]);
    }
  }

  /** A card reports at most one view per checkout. */
  lemma {:induction false} OverdueOnCardLength(patron: Patron, checkouts: seq<Checkout>, now: int)
    ensures |OverdueOnCard(patron, checkouts, now)| <= |checkouts|
  {
    if checkouts != [] {
      OverdueOnCardLength(patron, checkouts[..|checkouts| - 1], now);
    }
  }
}
