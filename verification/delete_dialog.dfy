/** The delete confirmation shared by the dashboard and the settings page:
    a pending id (`entryToDelete`, `templateToDelete`, `categoryToDelete`)
    and an open flag. The delete button only records the id and opens the
    dialog; confirming hands the pending id to the store, when it is truthy,
    then closes the dialog and forgets the id. */
module ConfirmDelete {
  import opened Optional
  import Text

  class Dialog {
    var pending: Option<string>
    var isOpen: bool

    constructor ()
      ensures pending == None && !isOpen
    {
      pending, isOpen := None, false;
    }

    /** The delete button: records the id and opens the dialog, and deletes
        nothing. */
    method Request(id: string)
      modifies this
      ensures pending == Some(id) && isOpen
    {
      pending := Some(id);
      isOpen := true;
    }

    /** `onOpenChange`: cancelling closes the dialog and keeps the id. */
    method SetOpen(open: bool)
      modifies this
      ensures isOpen == open && pending == old(pending)
    {
      isOpen := open;
    }

    /** The confirm button, up to the store call: a truthy pending id is
        taken (and the dialog closed and cleared); otherwise nothing
        changes and nothing is taken. */
    method Confirm() returns (target: Option<string>)
      modifies this
      ensures Text.Truthy(old(pending)) ==> target == old(pending) && !isOpen && pending == None
      ensures !Text.Truthy(old(pending)) ==> target == None && isOpen == old(isOpen) && pending == old(pending)
    {
      if Text.Truthy(pending) {
        target := pending;
        isOpen := false;
        pending := None;
      } else {
        target := None;
      }
    }
  }
}
