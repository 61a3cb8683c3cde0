/**
 * The registrant list page: it reads the registrants from the (possibly
 * rehydrated) root state, falling back to an empty list, and drives the
 * delete confirmation through one piece of state, the selected id, where the
 * empty string means "nothing selected".
 */
module RegistrantList {
  import opened Wrappers
  import opened RegistrantSlice

  /** The registrants slice as the selector sees it: its `list` may be missing. */
  datatype SliceState = SliceState(list: Option<seq<Registrant>>)

  /** The root state as the selector sees it: its `registration` slice may be missing. */
  datatype RootState = RootState(registration: Option<SliceState>)

  /** The state a live store presents to the selector. */
  function RootOf(store: seq<Registrant>): RootState
  {
    RootState(Some(SliceState(Some(store))))
  }

  /** `state?.registration?.list ?? []`. */
  function SelectRegistrants(state: Option<RootState>): (r: seq<Registrant>)
    ensures forall l | state == Some(RootOf(l)) :: r == l
    ensures (state.None? || state.value.registration.None? || state.value.registration.value.list.None?)
              ==> r == []
  {
    match state
    case None => []
    case Some(root) =>
      match root.registration
      case None => []
      case Some(slice) =>
        match slice.list
        case None => []
        case Some(l) => l
  }

  /** The count in the page heading; zero is also when the empty-state panel is shown. */
  function DisplayedCount(state: Option<RootState>): (n: nat)
    ensures forall l | state == Some(RootOf(l)) :: n == |l|
    ensures (state.None? || state.value.registration.None? || state.value.registration.value.list.None?)
              ==> n == 0
  {
    |SelectRegistrants(state)|
  }

  /** The page's state: the id waiting for confirmation, or "" when none is. */
  class RegistrantListPage {
    var selectItem: string

    constructor ()
      ensures selectItem == "" && !ModalOpen()
    {
      selectItem := "";
    }

    /** `!!selectItem`: the confirmation modal is shown exactly when an id is selected. */
    predicate ModalOpen()
      reads this
    {
      selectItem != ""
    }

    /** The ✕ button on a card: selects that card's id; the store is not touched. */
    method SelectForDeletion(id: string)
      modifies this
      ensures selectItem == id
      ensures ModalOpen() <==> id != ""
    {
      selectItem := id;
    }

    /** Cancel: clears the selection; the store is not touched. */
    method Cancel()
      modifies this
      ensures selectItem == "" && !ModalOpen()
    {
      selectItem := "";
    }

    /** `handleDelete`: dispatches the delete of the selected id, then clears the selection. */
    method HandleDelete(store: RegistrantStore)
      modifies this, store
      ensures store.list == WithoutId(old(store.list), old(selectItem))
      ensures forall x | x in store.list :: x.id != old(selectItem)
      ensures selectItem == "" && !ModalOpen()
    {
      store.DeleteRegistrant(selectItem);
      selectItem := "";
    }
  }
}
