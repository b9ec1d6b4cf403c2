// The sidebar's list handlers (frontend/src/components/Sidebar.tsx): the template list
// kept by the sidebar, and the folder filter and folder mappings over the local
// conversations. Each handler builds a new list from the old one.
module Sidebar {
  import opened Wrappers
  import opened Lists
  import opened AssistantUI

  /** A saved prompt template. */
  datatype Template = Template(id: string, name: string, content: string, updatedAt: string)

  /** A template without its id, as the template modal hands it over. */
  datatype TemplateData = TemplateData(name: string, content: string, updatedAt: string)

  /** The template list and the template being edited, if any. */
  datatype TemplateState = TemplateState(templates: seq<Template>, editing: Option<Template>)

  predicate UniqueIds(ts: seq<Template>) {
    forall i, j :: 0 <= i < j < |ts| ==> ts[i].id != ts[j].id
  }

  /** `handleCreateTemplate`: while editing, every template with the edited id takes the
      new data under that id and the edit ends; otherwise one template with the fresh id
      `newId` and time `now` is appended. */
  function SaveTemplate(s: TemplateState, data: TemplateData, newId: string, now: string): (r: TemplateState)
    ensures r.editing.None?
    ensures s.editing.Some? ==>
              |r.templates| == |s.templates|
              && forall i :: 0 <= i < |s.templates| ==>
                   r.templates[i] == (if s.templates[i].id == s.editing.value.id
                                      then Template(s.editing.value.id, data.name, data.content, data.updatedAt)
                                      else s.templates[i])
    ensures s.editing.None? ==>
              r.templates == s.templates + [Template(newId, data.name, data.content, now)]
  {
    if s.editing.Some? then
      var id := s.editing.value.id;
      TemplateState(seq(|s.templates|, i requires 0 <= i < |s.templates| =>
                      if s.templates[i].id == id then Template(id, data.name, data.content, data.updatedAt)
                      else s.templates[i]),
                    None)
    else
      TemplateState(s.templates + [Template(newId, data.name, data.content, now)], None)
  }

  /** Saving keeps template ids unique, as long as a new template's id is not taken. */
  lemma SaveKeepsIdsUnique(s: TemplateState, data: TemplateData, newId: string, now: string)
    requires UniqueIds(s.templates)
    requires s.editing.None? ==> forall i :: 0 <= i < |s.templates| ==> s.templates[i].id != newId
    ensures UniqueIds(SaveTemplate(s, data, newId, now).templates)
  {
    var r := SaveTemplate(s, data, newId, now).templates;
    if s.editing.Some? {
      assert forall i :: 0 <= i < |s.templates| ==> r[i].id == s.templates[i].id;
    } else {
      forall i, j | 0 <= i < j < |r| ensures r[i].id != r[j].id {
        assert r[i] == s.templates[i];
        if j < |s.templates| {
          assert r[j] == s.templates[j];
        }
      }
    }
  }

  /** The first template with that id. */
  function FindTemplate(ts: seq<Template>, id: string): Option<Template> {
    Find(ts, (t: Template) => t.id == id)
  }

  /** After an edit is saved, looking the edited id up gives the new data. */
  lemma SaveThenFind(s: TemplateState, data: TemplateData, newId: string, now: string)
    requires s.editing.Some?
    requires exists i :: 0 <= i < |s.templates| && s.templates[i].id == s.editing.value.id
    ensures FindTemplate(SaveTemplate(s, data, newId, now).templates, s.editing.value.id)
         == Some(Template(s.editing.value.id, data.name, data.content, data.updatedAt))
  {
    var r := SaveTemplate(s, data, newId, now).templates;
    var id := s.editing.value.id;
    var i :| 0 <= i < |s.templates| && s.templates[i].id == id;
    var found := FindTemplate(r, id);
    assert r[i].id == id;
    assert found.Some? && found.value in r;
    var k :| 0 <= k < |r| && r[k] == found.value;
    assert r[k].id == id;
  }

  /** `handleRenameTemplate`: only the name and time of the templates with that id change. */
  function RenameTemplate(ts: seq<Template>, id: string, newName: string, now: string): (r: seq<Template>)
    ensures |r| == |ts|
    ensures forall i :: 0 <= i < |ts| ==>
              r[i] == if ts[i].id == id then ts[i].(name := newName, updatedAt := now) else ts[i]
  {
    seq(|ts|, i requires 0 <= i < |ts| => if ts[i].id == id then ts[i].(name := newName, updatedAt := now) else ts[i])
  }

  /** Renaming keeps every template's id and content. */
  lemma RenameKeepsIdsAndContent(ts: seq<Template>, id: string, newName: string, now: string)
    ensures var r := RenameTemplate(ts, id, newName, now);
            forall i :: 0 <= i < |ts| ==>
              r[i].id == ts[i].id && r[i].content == ts[i].content
              && (ts[i].id == id <==> r[i].name == newName && r[i].updatedAt == now && r[i].id == id)
  {
  }

  /** `handleDeleteTemplate`. */
  function DeleteTemplate(ts: seq<Template>, id: string): (r: seq<Template>)
    ensures forall t :: t in r <==> t in ts && t.id != id
    ensures |r| <= |ts|
  {
    Filter(ts, (t: Template) => t.id != id)
  }

  /** Deleting an id no template has keeps the list; deleting twice is deleting once. */
  lemma DeleteTemplateAbsent(ts: seq<Template>, id: string)
    requires forall i :: 0 <= i < |ts| ==> ts[i].id != id
    ensures DeleteTemplate(ts, id) == ts
  {
    FilterKeepsAll(ts, (t: Template) => t.id != id);
  }

  lemma DeleteTemplateIdempotent(ts: seq<Template>, id: string)
    ensures DeleteTemplate(DeleteTemplate(ts, id), id) == DeleteTemplate(ts, id)
  {
    var r := DeleteTemplate(ts, id);
    assert forall i :: 0 <= i < |r| ==> r[i] in r;
    DeleteTemplateAbsent(r, id);
  }

  /** Deleting keeps the remaining templates in their order. */
  lemma DeleteTemplateKeepsOrder(ts: seq<Template>, id: string, i: int, j: int)
    requires 0 <= i < j < |DeleteTemplate(ts, id)|
    ensures exists a, b :: 0 <= a < b < |ts| && ts[a] == DeleteTemplate(ts, id)[i] && ts[b] == DeleteTemplate(ts, id)[j]
  {
    FilterIsSubsequence(ts, (t: Template) => t.id != id, i, j);
  }

  // ----------------------------------------------------------------- folders

  predicate InFolder(c: LocalConversation, name: string) {
    c.folder == Some(name)
  }

  /** `getConversationsByFolder`. */
  function ByFolder(cs: seq<LocalConversation>, name: string): (r: seq<LocalConversation>)
    ensures forall c :: c in r <==> c in cs && InFolder(c, name)
  {
    Filter(cs, (c: LocalConversation) => InFolder(c, name))
  }

  /** The folder list keeps list order and repeats: it is built conversation by conversation. */
  lemma ByFolderSnoc(cs: seq<LocalConversation>, c: LocalConversation, name: string)
    ensures ByFolder([], name) == []
    ensures ByFolder(cs + [c], name) == ByFolder(cs, name) + (if InFolder(c, name) then [c] else [])
  {
    FilterSnoc(cs, c, (x: LocalConversation) => InFolder(x, name));
  }

  /** The folder list has as many conversations as `folderCounts` gives the folder, unless
      the folder is called "null", which also counts the conversations in no folder. */
  lemma {:induction false} ByFolderMatchesCount(cs: seq<LocalConversation>, name: string)
    requires name != "null"
    ensures |ByFolder(cs, name)| == CountIn(cs, name)
  {
    if cs != [] {
      var init := cs[..|cs| - 1];
      var last := cs[|cs| - 1];
      ByFolderMatchesCount(init, name);
      assert cs == init + [last];
      FilterSnoc(init, last, (c: LocalConversation) => InFolder(c, name));
    }
  }

  /** The conversations with `from` moved to folder `to`; the mapping behind both
      `handleDeleteFolder` (to `null`) and `handleRenameFolder`. */
  function MoveFolder(cs: seq<LocalConversation>, from: string, to: Option<string>): (r: seq<LocalConversation>)
    ensures |r| == |cs|
    ensures forall i :: 0 <= i < |cs| ==>
              r[i] == if InFolder(cs[i], from) then cs[i].(folder := to) else cs[i]
  {
    seq(|cs|, i requires 0 <= i < |cs| => if InFolder(cs[i], from) then cs[i].(folder := to) else cs[i])
  }

  /** `handleDeleteFolder`'s list: the folder's conversations go to no folder. */
  function DeleteFolderMapping(cs: seq<LocalConversation>, name: string): seq<LocalConversation> {
    MoveFolder(cs, name, None)
  }

  /** `handleRenameFolder`'s list. */
  function RenameFolderMapping(cs: seq<LocalConversation>, oldName: string, newName: string): seq<LocalConversation> {
    MoveFolder(cs, oldName, Some(newName))
  }

  lemma {:induction false} MoveFolderPrefix(cs: seq<LocalConversation>, from: string, to: Option<string>)
    requires cs != []
    ensures MoveFolder(cs, from, to)[..|cs| - 1] == MoveFolder(cs[..|cs| - 1], from, to)
  {
  }

  /** After a delete, the folder is empty; after a rename to another name, the old folder
      is empty and the new one holds both folders' conversations (as `folderCounts` counts
      them; a folder called "null" also counts the conversations in no folder). */
  lemma {:induction false} MoveFolderCounts(cs: seq<LocalConversation>, from: string, to: string)
    requires from != to && from != "null"
    ensures CountIn(MoveFolder(cs, from, Some(to)), from) == 0
    ensures CountIn(MoveFolder(cs, from, Some(to)), to) == CountIn(cs, from) + CountIn(cs, to)
    ensures |ByFolder(DeleteFolderMapping(cs, from), from)| == 0
  {
    var r := MoveFolder(cs, from, Some(to));
    if cs != [] {
      MoveFolderCounts(cs[..|cs| - 1], from, to);
      MoveFolderPrefix(cs, from, Some(to));
      MoveFolderPrefix(cs, from, None);
      var d := DeleteFolderMapping(cs, from);
      assert d == d[..|cs| - 1] + [d[|cs| - 1]];
      FilterSnoc(d[..|cs| - 1], d[|cs| - 1], (c: LocalConversation) => InFolder(c, from));
    }
  }
}
