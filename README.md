# Library service: a verified model

This project models the service layer of a library-management backend. Libraries hold
amounts of checkable items (books, music). Patrons hold library cards, and each card
tracks checkouts with due dates. The model covers `LibraryService`:

- listing libraries;
- looking a library up by its exact name;
- saving a library under a name nobody else uses;
- asking how many copies of an item a library holds;
- finding every library that has an entry for an item;
- listing a library's overdue checkouts.

The collaborator `CheckableService` appears only through its ISBN lookup.

Files:

- `models.dfy` (module `Models`): the entities as datatypes, and the service's three
  exceptions (`LibraryNotFound`, `CheckableNotFound`, `ResourceExists`). Each exception
  carries the key that was missing or taken. `Result` and `Outcome` carry either a value
  or the exception raised instead.
- `checkable_service.dfy` (module `CheckableService`): `GetByIsbn` over an in-memory
  checkable store.
- `library_service.dfy` (module `LibraryServices`):
  - the two stream-style lookups, `GetLibraryByName` and `GetCheckableAmount`, as pure
    functions of the stores;
  - the specification functions `AvailableCheckouts` and `OverdueCheckouts`;
  - the class `LibraryService`. It holds the library store as a field `libraries` and
    the checkable store as `checkables`. `Save` updates `libraries`. The two loop
    operations are methods whose loop invariants tie the partly built list to the
    specification function.
- `library_service_lemmas.dfy` (module `LibraryServiceLemmas`): properties of these
  functions: uniqueness of lookups, save/lookup interaction, order, membership and
  bounds of the two derived views.
- `scenarios.dfy` (module `Scenarios`): a client method that builds a small store and
  shows what the contracts let a caller conclude.

Modelling decisions:

- The library repository becomes the sequence `libraries`. `findAll` returns this
  sequence, `findByName` is the first exact-name match, and `save` appends.
- The checkable repository behind `CheckableService` becomes the sequence `checkables`.
  The library service never changes it.
- `LocalDateTime.now()` becomes the parameter `now`. Timestamps are integers, and
  `isBefore` is `<`.
- Java exceptions become `Err`/`Fail` values.

## Model

| member | source | states |
|---|---|---|
| CheckableService.GetByIsbn | tst/com/bloomtech/library/services/CheckableServiceTest.java:59-78 | Returns a stored checkable with exactly that ISBN. Fails with `CheckableNotFound(isbn)` exactly when none is stored. |
| CheckableService.GetByIsbnUnique | tst/com/bloomtech/library/services/CheckableServiceTest.java:59-67 | When ISBNs are unique, looking up a stored item's ISBN returns that item. |
| LibraryServices.GetLibraryByName | src/com/bloomtech/library/services/LibraryService.java:34-37 | Returns a stored library whose name equals the argument exactly. Fails with `LibraryNotFound(name)` exactly when no stored library has that name. |
| LibraryServices.FirstEntry | src/com/bloomtech/library/services/LibraryService.java:51-53 | Finds an entry exactly when the amount list has one for the ISBN. The entry found is the first such entry. |
| LibraryServices.GetCheckableAmount | src/com/bloomtech/library/services/LibraryService.java:47-56 | A missing library gives `LibraryNotFound`, even when the ISBN is unknown too. A known library with an unknown ISBN gives `CheckableNotFound`. Otherwise it succeeds. The result is for the requested ISBN. It is the library's first entry for that item, or, when there is none, the resolved checkable with amount 0. |
| LibraryServices.AppendFreshNameKeepsDistinct | src/com/bloomtech/library/services/LibraryService.java:40-44 | Appending a library whose name is unused keeps the library names pairwise distinct. |
| LibraryServices.LibraryService.GetLibraries | src/com/bloomtech/library/services/LibraryService.java:30-32 | Returns the whole library store, unfiltered and in store order. |
| LibraryServices.LibraryService.Save | src/com/bloomtech/library/services/LibraryService.java:39-45 | If the name is taken, fails with `ResourceExists(name)` and leaves the store unchanged. Otherwise the store becomes the old store plus exactly this library. Preserves "names pairwise distinct". |
| LibraryServices.LibraryService.GetLibrariesWithAvailableCheckout | src/com/bloomtech/library/services/LibraryService.java:58-77 | Fails with `CheckableNotFound` exactly when the ISBN is unknown, before any library is scanned. Otherwise returns `AvailableCheckouts` of the store, whose meaning the lemmas below give. |
| LibraryServices.LibraryService.GetOverdueCheckouts | src/com/bloomtech/library/services/LibraryService.java:79-96 | Fails with `LibraryNotFound` exactly when no library has the name. Otherwise returns `OverdueCheckouts` of that library's cards for the one given `now`. |
| LibraryServiceLemmas.GetLibraryByNameUnique | src/com/bloomtech/library/services/LibraryService.java:34-37 | When names are distinct, looking up any stored library's name returns exactly that library. |
| LibraryServiceLemmas.SaveThenLookup | src/com/bloomtech/library/services/LibraryService.java:39-45 | After a successful save, looking up the saved name returns the saved library. |
| LibraryServiceLemmas.SaveKeepsOtherLookups | src/com/bloomtech/library/services/LibraryService.java:44 | Saving a library changes no lookup of any other name. |
| LibraryServiceLemmas.AvailableAppend | src/com/bloomtech/library/services/LibraryService.java:63-74 | The availability search distributes over concatenation of the library list, so results follow store order. |
| LibraryServiceLemmas.AvailableLength | src/com/bloomtech/library/services/LibraryService.java:63-74 | The result is never longer than the library list. |
| LibraryServiceLemmas.AvailableMember | src/com/bloomtech/library/services/LibraryService.java:63-74 | A view is in the result exactly when some library has an entry for the ISBN. The view then carries that library's name and the amount of its first matching entry. Libraries without an entry contribute nothing. |
| LibraryServiceLemmas.AvailableEmpty | src/com/bloomtech/library/services/LibraryService.java:61-76 | The result is empty, not an error, exactly when no library has an entry for the item. |
| LibraryServiceLemmas.AvailableAgreesWithCheckableAmount | src/com/bloomtech/library/services/LibraryService.java:47-74 | With distinct names and a known item, each reported amount equals what `getCheckableAmount` returns for that library and item. |
| LibraryServiceLemmas.OverdueAppend | src/com/bloomtech/library/services/LibraryService.java:84-93 | The overdue computation distributes over concatenation of the card list. Results go by card, then by checkout within each card. |
| LibraryServiceLemmas.OverdueOnCardMember | src/com/bloomtech/library/services/LibraryService.java:85-92 | Within one card, a view is reported exactly for each checkout due strictly before `now`, paired with the card's patron. |
| LibraryServiceLemmas.OverdueMember | src/com/bloomtech/library/services/LibraryService.java:84-93 | Across all cards, a view is reported exactly for each checkout due strictly before `now`, paired with its card's patron. A checkout due exactly at `now` is excluded. |
| LibraryServiceLemmas.OverdueAllBefore | src/com/bloomtech/library/services/LibraryService.java:86-90 | Every reported checkout is due strictly before `now`. |
| LibraryServiceLemmas.OverdueOnCardLength | src/com/bloomtech/library/services/LibraryService.java:85-92 | A card reports at most one view per checkout. |

## Left out

- Spring wiring (`@Service`, `@Autowired`, lines 21-28). The two collaborators become the class's two store fields, set by its constructor.
- The repository implementations (`findAll`, `findByName`, `save`) are not part of this model. They are taken to be the in-memory sequence, a first exact-name match, and an append at the end.
- The clock read `LocalDateTime.now()` (line 82). `now` is a parameter, and timestamps are integers compared with `<`.
- The text of exception messages. Each error value carries only the missing or taken key.
- How the views `LibraryAvailableCheckouts` and `OverdueCheckout` are built. Only their fields are modelled.
- `CheckableService.getAll`, `getByType` and `save`. They are not used by `LibraryService`, and their source is not part of this model. `getByType` also depends on a runtime class token.
- Checkable kinds other than `Media`, `MediaType` values other than `BOOK` and `MUSIC`, and the fields of `Patron` beyond a name. These types' sources are not part of this model.
- Concurrency. The uniqueness check in `save` is a read followed by a write, and nothing protects it against a concurrent save.
- The synthesized zero-amount entry in `getCheckableAmount` is kept as the source builds it: a `CheckableAmount` for the resolved checkable. It is not turned into a separate "absent" result variant.
