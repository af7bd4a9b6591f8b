/**
 * The state of the materials administration page and its command handlers.
 * Each handler is one atomic step: the server's answer to the request it
 * issues comes in as a parameter, and the handler returns the request it
 * issued (if any) and the notification it shows.
 */
module MaterialsScreen {
  import opened Text
  import opened MaterialList

  datatype Option<T> = None | Some(value: T)

  /** The server's answer to one request: a payload, or an error that may carry a message. */
  datatype Reply<T> = Ok(value: T) | Err(message: Option<string>)

  /** The requests the page sends to the materials service. */
  datatype ServiceCall =
    | GetAll
    | CreateCall(draft: Draft)
    | UpdateCall(id: MaterialId, material: Material)
    | DeleteCall(id: MaterialId)

  datatype Operation = Load | Create | Update | Delete

  /** Why an error notification is shown; the localized texts are left out. */
  datatype Reason = EmptyName | Generic(op: Operation) | FromServer(text: string)

  /** The toast a handler shows, if any. */
  datatype Notice = Silent | Success(op: Operation) | Failure(reason: Reason)

  /**
   * The toast for a failed mutation: the server's message when it is present
   * and non-empty (an empty string is falsy), else the operation's generic text.
   */
  function ErrorNotice(message: Option<string>, op: Operation): (r: Notice)
    ensures r.Failure?
    ensures r.reason.FromServer? <==> message.Some? && message.value != []
    ensures r.reason.FromServer? ==> r.reason.text == message.value
    ensures !r.reason.FromServer? ==> r.reason == Generic(op)
  {
    if message.Some? && message.value != [] then Failure(FromServer(message.value))
    else Failure(Generic(op))
  }

  /** All of the page's state as one value, so that contracts can say what did not change. */
  datatype PageView = PageView(
    materials: seq<Material>,
    isLoading: bool,
    searchTerm: string,
    isAddDialogOpen: bool,
    isEditDialogOpen: bool,
    isDeleteDialogOpen: bool,
    newMaterial: Draft,
    selectedMaterial: Option<Material>,
    isSubmitting: bool)

  class MaterialsPage {
    var materials: seq<Material>
    var isLoading: bool
    var searchTerm: string
    var isAddDialogOpen: bool
    var isEditDialogOpen: bool
    var isDeleteDialogOpen: bool
    var newMaterial: Draft
    var selectedMaterial: Option<Material>
    var isSubmitting: bool

    function View(): PageView
      reads this
    {
      PageView(materials, isLoading, searchTerm, isAddDialogOpen, isEditDialogOpen,
               isDeleteDialogOpen, newMaterial, selectedMaterial, isSubmitting)
    }

    /** The page as first rendered: empty list, loading, every dialog closed. */
    constructor ()
      ensures View() == PageView([], true, "", false, false, false, EmptyDraft, None, false)
    {
      materials := [];
      isLoading := true;
      searchTerm := "";
      isAddDialogOpen, isEditDialogOpen, isDeleteDialogOpen := false, false, false;
      newMaterial := EmptyDraft;
      selectedMaterial := None;
      isSubmitting := false;
    }

    /* -------------------------------------------------------------------- */
    /* Commands that talk to the service                                     */
    /* -------------------------------------------------------------------- */

    /**
     * `loadMaterials`: a successful answer replaces the list wholesale, a
     * failure keeps the previous list; the loading flag ends false either way.
     */
    method LoadMaterials(reply: Reply<seq<Material>>) returns (call: ServiceCall, notice: Notice)
      modifies this
      ensures call == GetAll
      ensures reply.Ok? ==>
        View() == old(View()).(materials := reply.value, isLoading := false) && notice == Silent
      ensures reply.Err? ==>
        View() == old(View()).(isLoading := false) && notice == Failure(Generic(Load))
    {
      isLoading := true;
      call := GetAll;
      match reply {
        case Ok(list) =>
          materials := list;
          notice := Silent;
        case Err(_) =>
          notice := Failure(Generic(Load));
      }
      isLoading := false;
    }

    /**
     * `handleCreateMaterial`: a blank name is refused before any request;
     * otherwise the draft is sent, and on success the server's record is
     * appended, the dialog closes and the draft is reset. A failure changes
     * nothing but the submitting flag, which ends false on every path that
     * set it.
     */
    method HandleCreateMaterial(reply: Reply<Material>) returns (call: Option<ServiceCall>, notice: Notice)
      modifies this
      ensures IsBlank(old(newMaterial.name)) ==>
        call == None && notice == Failure(EmptyName) && View() == old(View())
      ensures !IsBlank(old(newMaterial.name)) ==>
        call == Some(CreateCall(old(newMaterial))) && !isSubmitting
      ensures !IsBlank(old(newMaterial.name)) && reply.Ok? ==>
        && View() == old(View()).(materials := old(materials) + [reply.value],
                                  isAddDialogOpen := false,
                                  newMaterial := EmptyDraft,
                                  isSubmitting := false)
        && notice == Success(Create)
      ensures !IsBlank(old(newMaterial.name)) && reply.Err? ==>
        View() == old(View()).(isSubmitting := false) && notice == ErrorNotice(reply.message, Create)
      ensures UniqueIds(old(materials)) && (reply.Ok? ==> !HasId(old(materials), reply.value.id)) ==>
        UniqueIds(materials)
    {
      TrimSpec(newMaterial.name);
      if Trim(newMaterial.name) == [] {
        return None, Failure(EmptyName);
      }
      isSubmitting := true;
      call := Some(CreateCall(newMaterial));
      match reply {
        case Ok(created) =>
          AppendPreservesUniqueIds(materials, created);
          materials := materials + [created];
          isAddDialogOpen := false;
          newMaterial := EmptyDraft;
          notice := Success(Create);
        case Err(message) =>
          notice := ErrorNotice(message, Create);
      }
      isSubmitting := false;
    }

    /**
     * `handleUpdateMaterial`: with no selection or a blank edited name nothing
     * is sent; otherwise the edited record is sent under its id, and on
     * success every entry with that id becomes the server's record (see
     * ReplaceById), the dialog closes and the selection is cleared.
     */
    method HandleUpdateMaterial(reply: Reply<Material>) returns (call: Option<ServiceCall>, notice: Notice)
      modifies this
      ensures var sel := old(selectedMaterial);
        sel.None? || IsBlank(sel.value.name) ==>
          call == None && notice == Failure(EmptyName) && View() == old(View())
      ensures var sel := old(selectedMaterial);
        sel.Some? && !IsBlank(sel.value.name) ==>
          call == Some(UpdateCall(sel.value.id, sel.value)) && !isSubmitting
      ensures var sel := old(selectedMaterial);
        sel.Some? && !IsBlank(sel.value.name) && reply.Ok? ==>
          && View() == old(View()).(materials := ReplaceById(old(materials), sel.value.id, reply.value),
                                    isEditDialogOpen := false,
                                    selectedMaterial := None,
                                    isSubmitting := false)
          && notice == Success(Update)
      ensures var sel := old(selectedMaterial);
        sel.Some? && !IsBlank(sel.value.name) && reply.Err? ==>
          View() == old(View()).(isSubmitting := false) && notice == ErrorNotice(reply.message, Update)
      ensures var sel := old(selectedMaterial);
        UniqueIds(old(materials)) && (sel.Some? && reply.Ok? ==> reply.value.id == sel.value.id) ==>
          UniqueIds(materials)
    {
      if selectedMaterial.None? {
        return None, Failure(EmptyName);
      }
      var edited := selectedMaterial.value;
      TrimSpec(edited.name);
      if Trim(edited.name) == [] {
        return None, Failure(EmptyName);
      }
      isSubmitting := true;
      call := Some(UpdateCall(edited.id, edited));
      match reply {
        case Ok(updated) =>
          if updated.id == edited.id && UniqueIds(materials) {
            ReplacePreservesUniqueIds(materials, edited.id, updated);
          }
          materials := ReplaceById(materials, edited.id, updated);
          isEditDialogOpen := false;
          selectedMaterial := None;
          notice := Success(Update);
        case Err(message) =>
          notice := ErrorNotice(message, Update);
      }
      isSubmitting := false;
    }

    /**
     * `handleDeleteMaterial`: with no selection it does nothing; otherwise the
     * selected id is sent, and on success the entries with that id are
     * filtered out (the rest keep their order), the dialog closes and the
     * selection is cleared.
     */
    method HandleDeleteMaterial(reply: Reply<()>) returns (call: Option<ServiceCall>, notice: Notice)
      modifies this
      ensures old(selectedMaterial).None? ==>
        call == None && notice == Silent && View() == old(View())
      ensures old(selectedMaterial).Some? ==>
        call == Some(DeleteCall(old(selectedMaterial).value.id)) && !isSubmitting
      ensures old(selectedMaterial).Some? && reply.Ok? ==>
        && View() == old(View()).(materials := RemoveById(old(materials), old(selectedMaterial).value.id),
                                  isDeleteDialogOpen := false,
                                  selectedMaterial := None,
                                  isSubmitting := false)
        && notice == Success(Delete)
      ensures old(selectedMaterial).Some? && reply.Err? ==>
        View() == old(View()).(isSubmitting := false) && notice == ErrorNotice(reply.message, Delete)
      ensures IsSubsequence(materials, old(materials))
      ensures UniqueIds(old(materials)) ==> UniqueIds(materials)
    {
      if selectedMaterial.None? {
        SubsequenceReflexive(materials);
        return None, Silent;
      }
      var target := selectedMaterial.value;
      isSubmitting := true;
      call := Some(DeleteCall(target.id));
      match reply {
        case Ok(_) =>
          RemoveIsSubsequence(materials, target.id);
          if UniqueIds(materials) {
            RemovePreservesUniqueIds(materials, target.id);
          }
          materials := RemoveById(materials, target.id);
          isDeleteDialogOpen := false;
          selectedMaterial := None;
          notice := Success(Delete);
        case Err(message) =>
          SubsequenceReflexive(materials);
          notice := ErrorNotice(message, Delete);
      }
      isSubmitting := false;
    }

    /* -------------------------------------------------------------------- */
    /* Commands that only change local state                                 */
    /* -------------------------------------------------------------------- */

    /** The add button, the dialog's own close and its cancel button. The draft is kept. */
    method SetAddDialogOpen(open: bool)
      modifies this
      ensures View() == old(View()).(isAddDialogOpen := open)
    {
      isAddDialogOpen := open;
    }

    /** The edit dialog's own close and its cancel button. The selection is kept. */
    method SetEditDialogOpen(open: bool)
      modifies this
      ensures View() == old(View()).(isEditDialogOpen := open)
    {
      isEditDialogOpen := open;
    }

    /** The delete dialog's own close and its cancel button. The selection is kept. */
    method SetDeleteDialogOpen(open: bool)
      modifies this
      ensures View() == old(View()).(isDeleteDialogOpen := open)
    {
      isDeleteDialogOpen := open;
    }

    /** A row's edit button: the selection becomes a copy of the row. */
    method OpenEditDialog(row: Material)
      modifies this
      ensures View() == old(View()).(selectedMaterial := Some(row), isEditDialogOpen := true)
    {
      selectedMaterial := Some(row);
      isEditDialogOpen := true;
    }

    /** A row's delete button. */
    method OpenDeleteDialog(row: Material)
      modifies this
      ensures View() == old(View()).(selectedMaterial := Some(row), isDeleteDialogOpen := true)
    {
      selectedMaterial := Some(row);
      isDeleteDialogOpen := true;
    }

    method SetSearchTerm(term: string)
      modifies this
      ensures View() == old(View()).(searchTerm := term)
    {
      searchTerm := term;
    }

    /** Typing in the create dialog's name box. */
    method SetDraftName(name: string)
      modifies this
      ensures View() == old(View()).(newMaterial := old(newMaterial).(name := name))
    {
      newMaterial := newMaterial.(name := name);
    }

    /** The create dialog's active switch. */
    method SetDraftActive(active: bool)
      modifies this
      ensures View() == old(View()).(newMaterial := old(newMaterial).(isActive := active))
    {
      newMaterial := newMaterial.(isActive := active);
    }

    /**
     * Typing in the edit dialog's name box changes the selection only: the
     * list keeps the row as it was until an update succeeds.
     */
    method SetEditName(name: string)
      modifies this
      ensures old(selectedMaterial).Some? ==>
        View() == old(View()).(selectedMaterial := Some(old(selectedMaterial).value.(name := name)))
      ensures old(selectedMaterial).None? ==> View() == old(View())
      ensures materials == old(materials)
    {
      if selectedMaterial.Some? {
        selectedMaterial := Some(selectedMaterial.value.(name := name));
      }
    }

    /** The edit dialog's active switch; like SetEditName it leaves the list alone. */
    method SetEditActive(active: bool)
      modifies this
      ensures old(selectedMaterial).Some? ==>
        View() == old(View()).(selectedMaterial := Some(old(selectedMaterial).value.(isActive := active)))
      ensures old(selectedMaterial).None? ==> View() == old(View())
      ensures materials == old(materials)
    {
      if selectedMaterial.Some? {
        selectedMaterial := Some(selectedMaterial.value.(isActive := active));
      }
    }

    /* -------------------------------------------------------------------- */
    /* Derived view                                                          */
    /* -------------------------------------------------------------------- */

    /**
     * `filteredMaterials`: the entries whose lower-cased name contains the
     * lower-cased search term, in list order; all of them for an empty term.
     */
    function FilteredMaterials(): (r: seq<Material>)
      reads this
      ensures forall x :: x in r <==> x in materials && MatchesSearch(x, searchTerm)
      ensures IsSubsequence(r, materials)
      ensures searchTerm == [] ==> r == materials
    {
      var r := Search(materials, searchTerm);
      assert IsSubsequence(r, materials) by {
        SearchIsSubsequence(materials, searchTerm);
      }
      assert searchTerm == [] ==> r == materials by {
        if searchTerm == [] {
          SearchEmptyTerm(materials, searchTerm);
        }
      }
      r
    }

    /** The create dialog's save button is disabled while submitting or for a blank name. */
    predicate CreateSubmitDisabled()
      reads this
      ensures CreateSubmitDisabled() <==> isSubmitting || IsBlank(newMaterial.name)
    {
      TrimSpec(newMaterial.name);
      Trim(newMaterial.name) == [] || isSubmitting
    }

    /**
     * The edit dialog's update button is disabled while submitting, with no
     * selection, or for a blank edited name.
     */
    predicate UpdateSubmitDisabled()
      reads this
      ensures UpdateSubmitDisabled() <==>
        isSubmitting || selectedMaterial.None? || IsBlank(selectedMaterial.value.name)
    {
      if selectedMaterial.None? then true
      else
        TrimSpec(selectedMaterial.value.name);
        Trim(selectedMaterial.value.name) == [] || isSubmitting
    }
  }
}
