/**
 * Which prayer's details are open: `handlePrayerClick` toggles the clicked
 * prayer, a click outside the content and the close button clear it.
 */
module ExpandedItem {
  import opened Wrappers
  import opened Resolver

  /** `current === prayerKey ? null : prayerKey`. */
  function Toggle(current: Option<Key>, clicked: Option<Key>): (r: Option<Key>)
    ensures current == clicked ==> r == None
    ensures current != clicked ==> r == clicked
  {
    if current == clicked then None else clicked
  }

  /** Clicking a prayer twice in a row leaves it closed; clicking the open
      prayer twice leaves it open. */
  lemma ToggleTwice(current: Option<Key>, k: Key)
    ensures Toggle(Toggle(current, Some(k)), Some(k)) == (if current == Some(k) then current else None)
  {
  }

  /** After a click on a prayer, at most that prayer is open, and it is open
      exactly when it was not open before. */
  lemma ClickOpensOnlyClicked(current: Option<Key>, k: Key)
    ensures Toggle(current, Some(k)) == Some(k) <==> current != Some(k)
    ensures Toggle(current, Some(k)) in {None, Some(k)}
  {
  }
}
