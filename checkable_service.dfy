/** The collaborator CheckableService, reduced to the lookup the library service uses. */
module CheckableService {
  import opened Models

  /** Some checkable in the store carries this ISBN. */
  predicate HasCheckable(store: seq<Checkable>, isbn: string)
  {
    exists k :: 0 <= k < |store| && store[k].isbn == isbn
  }

  /** ISBNs identify checkables uniquely. */
  predicate IsbnsDistinct(store: seq<Checkable>)
  {
    forall i, j :: 0 <= i < j < |store| ==> store[i].isbn != store[j].isbn
  }

  /** getByIsbn: the checkable with exactly this ISBN, or CheckableNotFound. */
  function GetByIsbn(store: seq<Checkable>, isbn: string): (r: Result<Checkable>)
    ensures r.Err? <==> !HasCheckable(store, isbn)
    ensures r.Err? ==> r.error == CheckableNotFound(isbn)
    ensures r.Ok? ==> r.value in store && r.value.isbn == isbn
  {
    if store == [] then Err(CheckableNotFound(isbn))
    else if store[0].isbn == isbn then Ok(store[0])
    else
      assert HasCheckable(store, isbn) ==> HasCheckable(store[1..], isbn) by {
        if HasCheckable(store, isbn) {
          var k :| 0 <= k < |store| && store[k].isbn == isbn;
          assert store[1..][k - 1] == store[k];
        }
      }
      GetByIsbn(store[1..], isbn)
  }

  /** With unique ISBNs, the lookup returns exactly the stored item of that ISBN. */
  lemma {:induction false} GetByIsbnUnique(store: seq<Checkable>, k: nat)
    requires IsbnsDistinct(store)
    requires k < |store|
    ensures GetByIsbn(store, store[k].isbn) == Ok(store[k])
  {
    if k > 0 {
      assert store[0].isbn != store[k].isbn;
      assert store[1..][k - 1] == store[k];
      assert IsbnsDistinct(store[1..]) by {
        forall i, j | 0 <= i < j < |store| - 1
          ensures store[1..][i].isbn != store[1..][j].isbn
        {
          assert store[1..][i] == store[i + 1] && store[1..][j] == store[j + 1];
        }
      }
      GetByIsbnUnique(store[1..], k - 1);
    }
  }
}
