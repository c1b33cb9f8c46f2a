/**
 * The two-slot selection store (src/store/comparison.store.ts): the two
 * characters being compared, each possibly absent.
 */
module Store {
  import opened Wrappers
  import opened Schemas

  class ComparisonStore {
    var selectedCharA: Option<Character>
    var selectedCharB: Option<Character>

    /** The store starts with both slots empty. */
    constructor ()
      ensures selectedCharA == None && selectedCharB == None
    {
      selectedCharA := None;
      selectedCharB := None;
    }

    /** Overwrites slot A (`None` empties it); slot B is untouched. */
    method SetSelectedCharA(character: Option<Character>)
      modifies this
      ensures selectedCharA == character
      ensures selectedCharB == old(selectedCharB)
    {
      selectedCharA := character;
    }

    /** Overwrites slot B (`None` empties it); slot A is untouched. */
    method SetSelectedCharB(character: Option<Character>)
      modifies this
      ensures selectedCharB == character
      ensures selectedCharA == old(selectedCharA)
    {
      selectedCharB := character;
    }

    /** Empties both slots, whatever they held. */
    method Clear()
      modifies this
      ensures selectedCharA == None && selectedCharB == None
    {
      selectedCharA, selectedCharB := None, None;
    }
  }

  /** What a client can conclude from the contracts alone. */
  method StoreScenario(a: Character, b: Character)
  {
    var store := new ComparisonStore();
    store.SetSelectedCharA(Some(a));
    store.SetSelectedCharB(Some(b));
    assert store.selectedCharA == Some(a) && store.selectedCharB == Some(b);
    store.SetSelectedCharA(None);
    assert store.selectedCharA == None && store.selectedCharB == Some(b);
    store.Clear();
    store.Clear();
    assert store.selectedCharA == None && store.selectedCharB == None;
  }
}
