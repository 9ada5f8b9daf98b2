/** A client of the service, showing what its contracts let a caller conclude. */
module Scenarios {
  import opened Models
  import opened CheckableService
  import opened LibraryServices
  import opened LibraryServiceLemmas

  method CentralScenario()
  {
    var whale := Media("1-0", "The White Whale", "Melvin H", BOOK);
    var quest := Media("1-1", "The Sorcerer's Quest", "Ana T", BOOK);
    var ann := Patron("Ann");
    var late := Checkout(whale, 5);
    var onTime := Checkout(quest, 10);
    var central := Library("Central", [CheckableAmount(whale, 3)], [LibraryCard(ann, [late, onTime])]);
    var service := new LibraryService([central], [whale, quest]);

    // An item the library holds, and a known item it does not hold.
    assert GetCheckableAmount(service.libraries, service.checkables, "Central", "1-0") == Ok(CheckableAmount(whale, 3));
    assert "1-1"[2] != "1-0"[2];
    assert [whale, quest][1..] == [quest];
    assert GetByIsbn([whale, quest], "1-1") == Ok(quest);
    assert [CheckableAmount(whale, 3)][1..] == [];
    assert FirstEntry(central.checkables, "1-1") == None;
    assert GetCheckableAmount(service.libraries, service.checkables, "Central", "1-1") == Ok(CheckableAmount(quest, 0));
    // The library is checked before the item.
    assert GetCheckableAmount(service.libraries, service.checkables, "North", "9-9") == Err(LibraryNotFound("North"));
    assert GetCheckableAmount(service.libraries, service.checkables, "Central", "9-9") == Err(CheckableNotFound("9-9"));

    assert [central][..0] == [];
    assert AvailableCheckouts([central], "1-0") == [LibraryAvailableCheckouts(3, "Central")];
    assert AvailableCheckouts([central], "1-1") == [];
    var available := service.GetLibrariesWithAvailableCheckout("1-0");
    assert available == Ok([LibraryAvailableCheckouts(3, "Central")]);
    available := service.GetLibrariesWithAvailableCheckout("1-1");
    assert available == Ok([]);

    // Only the checkout due strictly before `now` is overdue; one due exactly at `now` is not.
    var card := central.cards[0];
    assert [card][..0] == [] && [late, onTime][..1] == [late] && [late][..0] == [];
    assert OverdueOnCard(ann, [late], 10) == [OverdueCheckout(ann, late)];
    assert OverdueOnCard(ann, [late, onTime], 10) == [OverdueCheckout(ann, late)];
    assert OverdueCheckouts([card], 10) == [OverdueCheckout(ann, late)];
    var overdue := service.GetOverdueCheckouts("Central", 10);
    assert overdue == Ok([OverdueCheckout(ann, late)]);

    // A second library named "Central" is refused and nothing is stored.
    var outcome := service.Save(Library("Central", [], []));
    assert outcome == Fail(ResourceExists("Central"));
    assert service.libraries == [central];

    var north := Library("North", [], []);
    outcome := service.Save(north);
    assert outcome == Pass && service.libraries == [central, north];
    SaveThenLookup([central], north);
    assert GetLibraryByName(service.libraries, "North") == Ok(north);
  }
}
