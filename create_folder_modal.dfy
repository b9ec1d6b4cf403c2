// The "new folder" dialog (frontend/src/components/CreateFolderModal.tsx): a name field
// and a selection of the store's conversations, submitted as one folder request.
module CreateFolderModal {
  import opened Wrappers
  import opened Text
  import opened Lists
  import opened ChatTypes

  datatype ModalState = ModalState(folderName: string, selected: seq<Conversation>)

  /** What the dialog hands to the store's `createFolder`. */
  datatype FolderRequest = FolderRequest(name: string, conversations: seq<Conversation>)

  const Empty := ModalState("", [])

  predicate HasId(cs: seq<Conversation>, id: string) {
    exists i :: 0 <= i < |cs| && cs[i].id == id
  }

  predicate UniqueIds(cs: seq<Conversation>) {
    forall i, j :: 0 <= i < j < |cs| ==> cs[i].id != cs[j].id
  }

  /** `toggleSelect`: a selected id is dropped from the selection; an unselected one adds
      the first store conversation with that id, or nothing when the store has none. */
  function ToggleSelect(selected: seq<Conversation>, store: seq<Conversation>, id: string): (r: seq<Conversation>)
    ensures HasId(selected, id) ==> forall c :: c in r <==> c in selected && c.id != id
    ensures !HasId(selected, id) && HasId(store, id) ==>
              exists k :: 0 <= k < |store| && store[k].id == id && r == selected + [store[k]]
    ensures !HasId(selected, id) && !HasId(store, id) ==> r == selected
  {
    if Find(selected, (c: Conversation) => c.id == id).Some? then Filter(selected, (c: Conversation) => c.id != id)
    else
      var add := Find(store, (c: Conversation) => c.id == id);
      if add.Some? then
        assert exists k :: 0 <= k < |store| && store[k] == add.value;
        selected + [add.value]
      else selected
  }

  /** The selection never holds two conversations with the same id. */
  lemma ToggleSelectKeepsIdsUnique(selected: seq<Conversation>, store: seq<Conversation>, id: string)
    requires UniqueIds(selected)
    ensures UniqueIds(ToggleSelect(selected, store, id))
  {
    var r := ToggleSelect(selected, store, id);
    if HasId(selected, id) {
      forall i, j | 0 <= i < j < |r| ensures r[i].id != r[j].id {
        FilterIsSubsequence(selected, (c: Conversation) => c.id != id, i, j);
      }
    }
  }

  /** Toggling a stored, unselected id twice gives the selection back. */
  lemma ToggleSelectTwice(selected: seq<Conversation>, store: seq<Conversation>, id: string)
    requires !HasId(selected, id) && HasId(store, id)
    ensures ToggleSelect(ToggleSelect(selected, store, id), store, id) == selected
  {
    var once := ToggleSelect(selected, store, id);
    var k :| 0 <= k < |store| && store[k].id == id && once == selected + [store[k]];
    assert once[|selected|].id == id;
    FilterSnoc(selected, store[k], (c: Conversation) => c.id != id);
    FilterKeepsAll(selected, (c: Conversation) => c.id != id);
  }

  /** `handleSubmit`: with a non-blank name and a non-empty selection, the trimmed name and
      the selection go to the store and the dialog resets; otherwise nothing happens. */
  function Submit(s: ModalState): (r: (ModalState, Option<FolderRequest>))
    ensures r.1.Some? <==> !AllSpace(Js, s.folderName) && |s.selected| > 0
    ensures r.1.Some? ==>
              r.0 == Empty && r.1.value.conversations == s.selected
              && NoOuterSpace(Js, r.1.value.name) && r.1.value.name != []
              && r.1.value.name == Trim(Js, s.folderName)
    ensures r.1.None? ==> r.0 == s
  {
    TrimSpec(Js, s.folderName);
    if Trim(Js, s.folderName) != [] && |s.selected| > 0 then
      (Empty, Some(FolderRequest(Trim(Js, s.folderName), s.selected)))
    else
      (s, None)
  }

  /** `handleCancel`. */
  function Cancel(s: ModalState): (r: ModalState)
    ensures r.folderName == [] && r.selected == []
  {
    Empty
  }

  /** A name that is already trimmed is sent as typed. */
  lemma SubmitTrimmedName(s: ModalState)
    requires NoOuterSpace(Js, s.folderName) && s.folderName != [] && |s.selected| > 0
    ensures Submit(s).1 == Some(FolderRequest(s.folderName, s.selected))
  {
    TrimUnchanged(Js, s.folderName);
  }
}
