// The chat provider's state (frontend/src/components/contexts/ChatContext.tsx):
// the conversation list, the folders with their own copies of conversations,
// the selected conversation and the "thinking" flags, with the operations that
// update them. Each React state update is one atomic step; the network calls
// are parameters (what the server answered, or `None` when the call failed).
module ChatStore {
  import opened Wrappers
  import opened Text
  import opened ChatTypes
  import opened StreamProtocol
  import opened Sorting

  // ------------------------------------------------------------ list updaters

  /** `conversations.find((c) => c.id === id)`. */
  function FindById(cs: seq<Conversation>, id: string): (r: Option<Conversation>)
    ensures r.Some? <==> exists i :: 0 <= i < |cs| && cs[i].id == id
    ensures r.Some? ==> r.value in cs && r.value.id == id
    ensures r.Some? && cs[0].id == id ==> r.value == cs[0]
  {
    if cs == [] then None
    else if cs[0].id == id then Some(cs[0])
    else
      var r := FindById(cs[1..], id);
      assert forall i :: 0 < i < |cs| ==> cs[i] == cs[1..][i - 1];
      r
  }

  function FlipIf(c: Conversation, id: string): Conversation {
    if c.id == id then c.(pinned := !c.pinned) else c
  }

  /** `prev.map((c) => (c.id === id ? { ...c, pinned: !c.pinned } : c))`. */
  function FlipPinned(cs: seq<Conversation>, id: string): seq<Conversation> {
    seq(|cs|, i requires 0 <= i < |cs| => FlipIf(cs[i], id))
  }

  /** The same flip inside every folder's copies. */
  function FlipPinnedInFolders(fs: seq<Folder>, id: string): seq<Folder> {
    seq(|fs|, i requires 0 <= i < |fs| => fs[i].(conversations := FlipPinned(fs[i].conversations, id)))
  }

  /** The flip touches only `pinned`, and only on the conversations with that id. */
  lemma FlipPinnedChangesOnlyPin(cs: seq<Conversation>, id: string)
    ensures var r := FlipPinned(cs, id);
            |r| == |cs|
            && (forall i :: 0 <= i < |cs| ==> r[i].(pinned := cs[i].pinned) == cs[i])
            && (forall i :: 0 <= i < |cs| ==> (r[i].pinned != cs[i].pinned <==> cs[i].id == id))
  {
  }

  /** Flipping twice restores the list: this is what the rollback relies on. */
  lemma FlipPinnedTwice(cs: seq<Conversation>, id: string)
    ensures FlipPinned(FlipPinned(cs, id), id) == cs
  {
    var r := FlipPinned(FlipPinned(cs, id), id);
    assert forall i :: 0 <= i < |cs| ==> r[i] == FlipIf(FlipIf(cs[i], id), id) == cs[i];
  }

  /** `prev.filter((c) => c.id !== id)`. */
  function RemoveById(cs: seq<Conversation>, id: string): (r: seq<Conversation>)
    ensures forall c :: c in r <==> c in cs && c.id != id
    ensures |r| <= |cs|
  {
    if cs == [] then []
    else
      var rest := RemoveById(cs[1..], id);
      assert forall c :: c in cs <==> c == cs[0] || c in cs[1..];
      if cs[0].id == id then rest else [cs[0]] + rest
  }

  /** Removing an id that is not there leaves the list as it was. */
  lemma {:induction false} RemoveAbsent(cs: seq<Conversation>, id: string)
    requires forall i :: 0 <= i < |cs| ==> cs[i].id != id
    ensures RemoveById(cs, id) == cs
  {
    if cs != [] {
      RemoveAbsent(cs[1..], id);
      assert cs == [cs[0]] + cs[1..];
    }
  }

  function RemoveFromFolders(fs: seq<Folder>, id: string): seq<Folder> {
    seq(|fs|, i requires 0 <= i < |fs| => fs[i].(conversations := RemoveById(fs[i].conversations, id)))
  }

  /** `prev.map((c) => (c.id === doc.id ? doc : c))`. */
  function ReplaceById(cs: seq<Conversation>, doc: Conversation): seq<Conversation> {
    seq(|cs|, i requires 0 <= i < |cs| => if cs[i].id == doc.id then doc else cs[i])
  }

  function ReplaceInFolders(fs: seq<Folder>, doc: Conversation): seq<Folder> {
    seq(|fs|, i requires 0 <= i < |fs| => fs[i].(conversations := ReplaceById(fs[i].conversations, doc)))
  }

  /** Every entry with the document's id is replaced by it, every other entry is kept,
      and a document whose id is not in the list is not added. */
  lemma ReplaceByIdSpec(cs: seq<Conversation>, doc: Conversation)
    ensures var r := ReplaceById(cs, doc);
            |r| == |cs|
            && (forall i :: 0 <= i < |cs| ==> (cs[i].id == doc.id ==> r[i] == doc) && (cs[i].id != doc.id ==> r[i] == cs[i]))
            && (doc in r <==> exists i :: 0 <= i < |cs| && cs[i].id == doc.id)
  {
    var r := ReplaceById(cs, doc);
    if doc in r {
      var i :| 0 <= i < |r| && r[i] == doc;
      assert cs[i].id == doc.id;
    }
  }

  /** Saving the same document twice changes nothing the second time. */
  lemma ReplaceByIdIdempotent(cs: seq<Conversation>, doc: Conversation)
    ensures ReplaceById(ReplaceById(cs, doc), doc) == ReplaceById(cs, doc)
  {
  }

  /** `prev.map((f) => (f.id === id ? { ...f, name: newName } : f))`. */
  function RenameFolderIn(fs: seq<Folder>, id: string, newName: string): seq<Folder> {
    seq(|fs|, i requires 0 <= i < |fs| => if fs[i].id == id then fs[i].(name := newName) else fs[i])
  }

  /** `prev.filter((f) => f.id !== id)`. */
  function RemoveFolder(fs: seq<Folder>, id: string): (r: seq<Folder>)
    ensures forall f :: f in r <==> f in fs && f.id != id
  {
    if fs == [] then []
    else
      var rest := RemoveFolder(fs[1..], id);
      assert forall f :: f in fs <==> f == fs[0] || f in fs[1..];
      if fs[0].id == id then rest else [fs[0]] + rest
  }

  /** `conversations.filter((c) => c.pinned)`, in list order. */
  function PinnedOf(cs: seq<Conversation>): (r: seq<Conversation>)
    ensures forall c :: c in r <==> c in cs && c.pinned
  {
    if cs == [] then []
    else
      var rest := PinnedOf(cs[1..]);
      assert forall c :: c in cs <==> c == cs[0] || c in cs[1..];
      if cs[0].pinned then [cs[0]] + rest else rest
  }

  /** The pinned list keeps list order and repeats: one more conversation at the end is
      appended exactly when it is pinned. */
  lemma {:induction false} PinnedOfSnoc(cs: seq<Conversation>, c: Conversation)
    ensures PinnedOf([]) == []
    ensures PinnedOf(cs + [c]) == PinnedOf(cs) + (if c.pinned then [c] else [])
  {
    if cs != [] {
      PinnedOfSnoc(cs[1..], c);
      assert (cs + [c])[1..] == cs[1..] + [c];
    }
  }

  /** The comparator of `recent`: newer `updatedAt` first, by the parsed time. */
  function NewerFirst(timeOf: string -> int): (Conversation, Conversation) -> bool {
    (a: Conversation, b: Conversation) => timeOf(a.updatedAt) >= timeOf(b.updatedAt)
  }

  lemma NewerFirstTotalPreorder(timeOf: string -> int)
    ensures Total(NewerFirst(timeOf)) && Transitive(NewerFirst(timeOf))
  {
  }

  // ------------------------------------------------------- streaming placeholder

  /** `"streaming-" + Date.now()`. */
  function PlaceholderId(now: nat): (r: string)
    ensures StartsWith(r, "streaming-") && |r| > |"streaming-"|
  {
    "streaming-" + NatToString(now)
  }

  function Placeholder(tempId: string): Message {
    Message(tempId, Assistant, [], None, None)
  }

  function WithPlaceholder(c: Conversation, convId: string, tempId: string): Conversation {
    if c.id == convId then c.(messages := c.messages + [Placeholder(tempId)]) else c
  }

  /** The empty assistant message appended to the target conversation. */
  function AppendPlaceholder(cs: seq<Conversation>, convId: string, tempId: string): seq<Conversation> {
    seq(|cs|, i requires 0 <= i < |cs| => WithPlaceholder(cs[i], convId, tempId))
  }

  /** The same for the selection, which gets it only when it is the target conversation. */
  function AppendPlaceholderTo(sel: Option<Conversation>, convId: string, tempId: string): Option<Conversation> {
    if sel.Some? then Some(WithPlaceholder(sel.value, convId, tempId)) else None
  }

  /** Exactly the conversations with the target id gain one message, the empty assistant
      placeholder, at the end; nothing else changes. */
  lemma AppendPlaceholderSpec(cs: seq<Conversation>, convId: string, tempId: string)
    ensures var r := AppendPlaceholder(cs, convId, tempId);
            |r| == |cs|
            && (forall i :: 0 <= i < |cs| && cs[i].id != convId ==> r[i] == cs[i])
            && (forall i :: 0 <= i < |cs| && cs[i].id == convId ==>
                  r[i].(messages := cs[i].messages) == cs[i]
                  && |r[i].messages| == |cs[i].messages| + 1
                  && r[i].messages[..|cs[i].messages|] == cs[i].messages
                  && r[i].messages[|cs[i].messages|] == Message(tempId, Assistant, "", None, None))
  {
    var r := AppendPlaceholder(cs, convId, tempId);
    forall i | 0 <= i < |cs| && cs[i].id == convId
      ensures r[i].messages[..|cs[i].messages|] == cs[i].messages
    {
      assert r[i].messages == cs[i].messages + [Placeholder(tempId)];
    }
  }

  function SetMessageContent(ms: seq<Message>, tempId: string, content: string): seq<Message> {
    seq(|ms|, k requires 0 <= k < |ms| => if ms[k].messageId == tempId then ms[k].(content := content) else ms[k])
  }

  /** The typewriter refresh of the store: rewrite the placeholder inside the target conversation. */
  function SetContent(cs: seq<Conversation>, convId: string, tempId: string, content: string): seq<Conversation> {
    seq(|cs|, i requires 0 <= i < |cs| =>
      if cs[i].id == convId then cs[i].(messages := SetMessageContent(cs[i].messages, tempId, content)) else cs[i])
  }

  /** The typewriter refresh of the selection, when it is the target conversation. */
  function SetSelectedContent(sel: Option<Conversation>, convId: string, tempId: string, content: string): Option<Conversation> {
    if sel.Some? && sel.value.id == convId
    then Some(sel.value.(messages := SetMessageContent(sel.value.messages, tempId, content)))
    else sel
  }

  /** A refresh rewrites the content of the placeholder messages of the target conversation
      and nothing else: every other conversation and every other message is kept. */
  lemma SetContentSpec(cs: seq<Conversation>, convId: string, tempId: string, content: string)
    ensures var r := SetContent(cs, convId, tempId, content);
            |r| == |cs|
            && (forall i :: 0 <= i < |cs| && cs[i].id != convId ==> r[i] == cs[i])
            && (forall i :: 0 <= i < |cs| && cs[i].id == convId ==>
                  r[i].(messages := cs[i].messages) == cs[i]
                  && |r[i].messages| == |cs[i].messages|
                  && forall k :: 0 <= k < |cs[i].messages| ==>
                       (cs[i].messages[k].messageId != tempId ==> r[i].messages[k] == cs[i].messages[k])
                       && (cs[i].messages[k].messageId == tempId ==>
                             r[i].messages[k] == cs[i].messages[k].(content := content)))
  {
  }

  /** A refresh overwrites the previous one: only the last refresh shows. */
  lemma SetContentOverwrites(cs: seq<Conversation>, convId: string, tempId: string, a: string, b: string)
    ensures SetContent(SetContent(cs, convId, tempId, a), convId, tempId, b) == SetContent(cs, convId, tempId, b)
  {
    var l := SetContent(SetContent(cs, convId, tempId, a), convId, tempId, b);
    var r := SetContent(cs, convId, tempId, b);
    forall i | 0 <= i < |cs| ensures l[i] == r[i] {
      if cs[i].id == convId {
        SetMessageContentOverwrites(cs[i].messages, tempId, a, b);
      }
    }
  }

  lemma SetMessageContentOverwrites(ms: seq<Message>, tempId: string, a: string, b: string)
    ensures SetMessageContent(SetMessageContent(ms, tempId, a), tempId, b) == SetMessageContent(ms, tempId, b)
  {
    var l := SetMessageContent(SetMessageContent(ms, tempId, a), tempId, b);
    var r := SetMessageContent(ms, tempId, b);
    assert forall k :: 0 <= k < |ms| ==> l[k] == r[k];
  }

  lemma SetSelectedContentOverwrites(sel: Option<Conversation>, convId: string, tempId: string, a: string, b: string)
    ensures SetSelectedContent(SetSelectedContent(sel, convId, tempId, a), convId, tempId, b)
         == SetSelectedContent(sel, convId, tempId, b)
  {
    if sel.Some? && sel.value.id == convId {
      SetMessageContentOverwrites(sel.value.messages, tempId, a, b);
    }
  }

  /** The store as the reader leaves it: formatted text of the last refresh in the
      placeholder, or the empty placeholder when no refresh happened. */
  function Displayed(cs: seq<Conversation>, convId: string, tempId: string, shown: Option<string>,
                     render: string -> string): seq<Conversation>
  {
    if shown.Some? then SetContent(cs, convId, tempId, Format(render, shown.value)) else cs
  }

  /** The selection as the reader leaves it: the raw, unformatted text of the last refresh. */
  function DisplayedSelection(sel: Option<Conversation>, convId: string, tempId: string,
                              shown: Option<string>): Option<Conversation>
  {
    if shown.Some? then SetSelectedContent(sel, convId, tempId, shown.value) else sel
  }

  // ------------------------------------------------------------------ the store

  /** The three parts of the store that messages and streams change. */
  datatype Snapshot = Snapshot(conversations: seq<Conversation>, folders: seq<Folder>, selected: Option<Conversation>)

  /** The store after a save answered by `doc` (`None` if the request failed): the returned
      document, under its `_id`, replaces its entry in the list and its folder copies and
      becomes the selection. */
  function Saved(s: Snapshot, doc: Option<ServerConversation>): Snapshot {
    if doc.None? then s
    else
      var c := FromServer(doc.value);
      Snapshot(ReplaceById(s.conversations, c), ReplaceInFolders(s.folders, c), Some(c))
  }

  /** The store after a connected stream: the placeholder appended and showing the fold's
      last refresh, then, if the stream reached `[DONE]`, the saved reply applied. */
  function Streamed(s: Snapshot, convId: string, now: nat, chunks: seq<string>,
                    parse: string -> Parsed, render: string -> string,
                    saved: Option<ServerConversation>): Snapshot
  {
    var run := Feed(Start, StreamPayloads(chunks), parse);
    var tempId := PlaceholderId(now);
    var shown := Snapshot(
      Displayed(AppendPlaceholder(s.conversations, convId, tempId), convId, tempId, run.acc.shown, render),
      s.folders,
      DisplayedSelection(AppendPlaceholderTo(s.selected, convId, tempId), convId, tempId, run.acc.shown));
    if run.done then Saved(shown, saved) else shown
  }

  /** What a connected stream posts: the formatted, trimmed reply, once `[DONE]` arrived. */
  function PostedReply(chunks: seq<string>, parse: string -> Parsed, render: string -> string): Option<string> {
    var run := Feed(Start, StreamPayloads(chunks), parse);
    if run.done then Some(Format(render, Trim(Js, run.acc.buffer))) else None
  }

  class ChatContext {
    var conversations: seq<Conversation>
    var folders: seq<Folder>
    var selected: Option<Conversation>
    var isThinking: bool
    var thinkingConvId: Option<string>

    /** Not a representation invariant over the lists: only the pairing of the two
        thinking fields, that a reply is awaited exactly when the waiting conversation is known. */
    predicate Valid()
      reads this
    {
      isThinking <==> thinkingConvId.Some?
    }

    function State(): Snapshot
      reads this
    {
      Snapshot(conversations, folders, selected)
    }

    constructor ()
      ensures Valid()
      ensures conversations == [] && folders == [] && selected == None
      ensures !isThinking && thinkingConvId == None
    {
      conversations := [];
      folders := [];
      selected := None;
      isThinking := false;
      thinkingConvId := None;
    }

    /** `pinned`: the pinned conversations, in list order. */
    function Pinned(): (r: seq<Conversation>)
      reads this
      ensures forall c :: c in r <==> c in conversations && c.pinned
      ensures |conversations| > 0 ==>
                var last := conversations[|conversations| - 1];
                r == PinnedOf(conversations[..|conversations| - 1]) + (if last.pinned then [last] else [])
    {
      if |conversations| > 0 then
        assert conversations == conversations[..|conversations| - 1] + [conversations[|conversations| - 1]];
        PinnedOfSnoc(conversations[..|conversations| - 1], conversations[|conversations| - 1]);
        PinnedOf(conversations)
      else PinnedOf(conversations)
    }

    /** `recent`: sorts the state list itself, newest first, and returns it. Pinned
        conversations are not filtered out. */
    method Recent(timeOf: string -> int) returns (r: seq<Conversation>)
      modifies this
      ensures r == conversations == Sort(old(conversations), NewerFirst(timeOf))
      ensures multiset(r) == multiset(old(conversations))
      ensures Sorted(r, NewerFirst(timeOf))
      ensures folders == old(folders) && selected == old(selected)
      ensures isThinking == old(isThinking) && thinkingConvId == old(thinkingConvId)
    {
      NewerFirstTotalPreorder(timeOf);
      SortSorted(conversations, NewerFirst(timeOf));
      conversations := Sort(conversations, NewerFirst(timeOf));
      r := conversations;
    }

    /** `createConversation`: asks for a conversation titled "New chat <n + 1>", and on
        success appends the returned document and selects it. */
    method CreateConversation(response: Option<ServerConversation>) returns (title: string)
      requires Valid()
      modifies this
      ensures Valid()
      ensures title == "New chat " + NatToString(|old(conversations)| + 1)
      ensures response.None? ==> conversations == old(conversations) && selected == old(selected)
      ensures response.Some? ==> conversations == old(conversations) + [FromServer(response.value)]
                                 && selected == Some(FromServer(response.value))
      ensures folders == old(folders) && isThinking == old(isThinking) && thinkingConvId == old(thinkingConvId)
    {
      title := "New chat " + NatToString(|conversations| + 1);
      if response.Some? {
        var c := FromServer(response.value);
        conversations := conversations + [c];
        selected := Some(c);
      }
    }

    /** `togglePin`: flips the conversation and every folder copy at once, then sends
        the negation of the pin state it read before the flip (`true` when the id was
        not found). If the request fails, only the conversation list is flipped back.
        The selection is never touched. */
    method TogglePin(id: string, requestOk: bool) returns (sent: bool)
      requires Valid()
      modifies this
      ensures Valid()
      ensures sent == !(FindById(old(conversations), id).Some? && FindById(old(conversations), id).value.pinned)
      ensures requestOk ==> conversations == FlipPinned(old(conversations), id)
      ensures !requestOk ==> conversations == old(conversations)
      ensures folders == FlipPinnedInFolders(old(folders), id)
      ensures selected == old(selected)
      ensures isThinking == old(isThinking) && thinkingConvId == old(thinkingConvId)
    {
      var before := FindById(conversations, id);
      conversations := FlipPinned(conversations, id);
      folders := FlipPinnedInFolders(folders, id);
      sent := !(before.Some? && before.value.pinned);
      if !requestOk {
        FlipPinnedTwice(old(conversations), id);
        conversations := FlipPinned(conversations, id);
      }
    }

    /** `deleteConversation`: removes the id from the list and from every folder, and
        clears the selection only when it is that conversation. */
    method DeleteConversation(id: string)
      requires Valid()
      modifies this
      ensures Valid()
      ensures conversations == RemoveById(old(conversations), id)
      ensures folders == RemoveFromFolders(old(folders), id)
      ensures selected == (if old(selected).Some? && old(selected).value.id == id then None else old(selected))
      ensures isThinking == old(isThinking) && thinkingConvId == old(thinkingConvId)
    {
      conversations := RemoveById(conversations, id);
      if selected.Some? && selected.value.id == id {
        selected := None;
      }
      folders := RemoveFromFolders(folders, id);
    }

    /** What follows a successful post of a message: the returned document, under its
        `_id`, replaces its entry in the list and its copies in the folders and
        becomes the selection. */
    method ApplySaved(doc: ServerConversation)
      requires Valid()
      modifies this
      ensures Valid()
      ensures conversations == ReplaceById(old(conversations), FromServer(doc))
      ensures folders == ReplaceInFolders(old(folders), FromServer(doc))
      ensures selected == Some(FromServer(doc))
      ensures isThinking == old(isThinking) && thinkingConvId == old(thinkingConvId)
    {
      var updated := FromServer(doc);
      conversations := ReplaceById(conversations, updated);
      selected := Some(updated);
      folders := ReplaceInFolders(folders, updated);
    }

    /** `createFolder`: on success appends the returned folder, keys remapped. */
    method CreateFolder(response: Option<ServerFolder>)
      requires Valid()
      modifies this
      ensures Valid()
      ensures response.None? ==> folders == old(folders)
      ensures response.Some? ==> folders == old(folders) + [FolderFromServer(response.value)]
      ensures conversations == old(conversations) && selected == old(selected)
      ensures isThinking == old(isThinking) && thinkingConvId == old(thinkingConvId)
    {
      if response.Some? {
        folders := folders + [FolderFromServer(response.value)];
      }
    }

    /** `renameFolder`: renames every folder with that id, optimistically. */
    method RenameFolder(id: string, newName: string)
      requires Valid()
      modifies this
      ensures Valid()
      ensures folders == RenameFolderIn(old(folders), id, newName)
      ensures conversations == old(conversations) && selected == old(selected)
      ensures isThinking == old(isThinking) && thinkingConvId == old(thinkingConvId)
    {
      folders := RenameFolderIn(folders, id, newName);
    }

    /** `deleteFolder`: drops every folder with that id, optimistically; the folder's
        conversations stay in the list. */
    method DeleteFolder(id: string)
      requires Valid()
      modifies this
      ensures Valid()
      ensures folders == RemoveFolder(old(folders), id)
      ensures conversations == old(conversations) && selected == old(selected)
      ensures isThinking == old(isThinking) && thinkingConvId == old(thinkingConvId)
    {
      folders := RemoveFolder(folders, id);
    }

    /** `streamAIResponse`. `connected` is whether the response was ok and had a body,
        `now` the clock, `chunks` the decoded reads until the reader reports done,
        `parse` JSON.parse, `render` the markdown renderer and sanitiser, and `saved`
        the server's answer to posting the finished reply (`None` if it failed).
        Returns the content posted, if the stream reached `[DONE]`. */
    method StreamAIResponse(convId: string, connected: bool, now: nat, chunks: seq<string>,
                            parse: string -> Parsed, render: string -> string,
                            saved: Option<ServerConversation>)
      returns (posted: Option<string>)
      requires Valid()
      modifies this
      ensures Valid()
      ensures !connected ==>
                posted == None
                && conversations == old(conversations) && folders == old(folders) && selected == old(selected)
                && isThinking == old(isThinking) && thinkingConvId == old(thinkingConvId)
      ensures connected ==> !isThinking && thinkingConvId == None
      ensures connected ==> posted == PostedReply(chunks, parse, render)
      ensures connected ==> State() == Streamed(old(State()), convId, now, chunks, parse, render, saved)
    {
      if !connected {
        return None;
      }
      var tempId := PlaceholderId(now);
      var aiMessage: string := [];
      var tokenCount: nat := 0;
      conversations := AppendPlaceholder(conversations, convId, tempId);
      selected := AppendPlaceholderTo(selected, convId, tempId);
      isThinking := false;
      thinkingConvId := None;

      ghost var base, baseSel := conversations, selected;
      ghost var acc := Start;
      var i := 0;
      while i < |chunks|
        invariant 0 <= i <= |chunks|
        invariant acc.buffer == aiMessage && acc.count == tokenCount
        invariant Feed(Start, StreamPayloads(chunks), parse) == Feed(acc, StreamPayloads(chunks[i..]), parse)
        invariant conversations == Displayed(base, convId, tempId, acc.shown, render)
        invariant selected == DisplayedSelection(baseSel, convId, tempId, acc.shown)
        invariant folders == old(folders) && !isThinking && thinkingConvId == None
      {
        StreamPayloadsFront(chunks, i);
        FeedChunk(acc, chunks[i], StreamPayloads(chunks[i + 1..]), parse);
        var done;
        aiMessage, tokenCount, done, acc := ReadLines(convId, tempId, Lines(chunks[i]), parse, render,
                                                      aiMessage, tokenCount, base, baseSel, acc);
        if done {
          posted := Some(Format(render, Trim(Js, aiMessage)));
          if saved.Some? {
            ApplySaved(saved.value);
          }
          return;
        }
        i := i + 1;
      }
      assert chunks[i..] == [];
      posted := None;
    }

    /** The `for (const line of lines)` loop over one chunk: feeds the payloads until a
        `[DONE]`, refreshing the placeholder when the throttle says so. */
    method ReadLines(convId: string, tempId: string, lines: seq<string>,
                     parse: string -> Parsed, render: string -> string,
                     aiMessage0: string, tokenCount0: nat,
                     ghost base: seq<Conversation>, ghost baseSel: Option<Conversation>, ghost acc0: Acc)
      returns (aiMessage: string, tokenCount: nat, done: bool, ghost acc: Acc)
      requires acc0.buffer == aiMessage0 && acc0.count == tokenCount0
      requires conversations == Displayed(base, convId, tempId, acc0.shown, render)
      requires selected == DisplayedSelection(baseSel, convId, tempId, acc0.shown)
      modifies this
      ensures Feed(acc0, DataPayloads(lines), parse) == Run(acc, done)
      ensures acc.buffer == aiMessage && acc.count == tokenCount
      ensures conversations == Displayed(base, convId, tempId, acc.shown, render)
      ensures selected == DisplayedSelection(baseSel, convId, tempId, acc.shown)
      ensures folders == old(folders) && isThinking == old(isThinking) && thinkingConvId == old(thinkingConvId)
    {
      aiMessage, tokenCount, done, acc := aiMessage0, tokenCount0, false, acc0;
      var j := 0;
      while j < |lines|
        invariant 0 <= j <= |lines|
        invariant acc.buffer == aiMessage && acc.count == tokenCount
        invariant Feed(acc0, DataPayloads(lines), parse) == Feed(acc, DataPayloads(lines[j..]), parse)
        invariant conversations == Displayed(base, convId, tempId, acc.shown, render)
        invariant selected == DisplayedSelection(baseSel, convId, tempId, acc.shown)
        invariant folders == old(folders) && isThinking == old(isThinking) && thinkingConvId == old(thinkingConvId)
      {
        DataPayloadsFront(lines, j);
        aiMessage, tokenCount, done, acc := ReadLine(convId, tempId, lines[j], DataPayloads(lines[j + 1..]), parse, render,
                                                     aiMessage, tokenCount, base, baseSel, acc);
        if done {
          return;
        }
        j := j + 1;
      }
      assert lines[j..] == [];
    }

    /** One line of a chunk: a `data: ` line is `[DONE]`, or a payload to parse and append. */
    method ReadLine(convId: string, tempId: string, line: string, ghost rest: seq<string>,
                    parse: string -> Parsed, render: string -> string,
                    aiMessage0: string, tokenCount0: nat,
                    ghost base: seq<Conversation>, ghost baseSel: Option<Conversation>, ghost acc0: Acc)
      returns (aiMessage: string, tokenCount: nat, done: bool, ghost acc: Acc)
      requires acc0.buffer == aiMessage0 && acc0.count == tokenCount0
      requires conversations == Displayed(base, convId, tempId, acc0.shown, render)
      requires selected == DisplayedSelection(baseSel, convId, tempId, acc0.shown)
      modifies this
      ensures Feed(acc0, PayloadList(line) + rest, parse) == if done then Run(acc, true) else Feed(acc, rest, parse)
      ensures acc.buffer == aiMessage && acc.count == tokenCount
      ensures conversations == Displayed(base, convId, tempId, acc.shown, render)
      ensures selected == DisplayedSelection(baseSel, convId, tempId, acc.shown)
      ensures folders == old(folders) && isThinking == old(isThinking) && thinkingConvId == old(thinkingConvId)
    {
      FeedLine(acc0, line, rest, parse);
      aiMessage, tokenCount, done, acc := aiMessage0, tokenCount0, false, acc0;
      var payload := Payload(line);
      if payload.Some? {
        var data := payload.value;
        if data == DoneMarker {
          return aiMessage, tokenCount, true, acc;
        }
        aiMessage, tokenCount, acc := ApplyParsed(convId, tempId, parse(data), render,
                                                  aiMessage, tokenCount, base, baseSel, acc);
      }
    }

    /** A parsed payload: a value appends its delta, counts one token and refreshes on
        the throttle; a malformed or null payload changes nothing. */
    method ApplyParsed(convId: string, tempId: string, parsed: Parsed, render: string -> string,
                       aiMessage0: string, tokenCount0: nat,
                       ghost base: seq<Conversation>, ghost baseSel: Option<Conversation>, ghost acc0: Acc)
      returns (aiMessage: string, tokenCount: nat, ghost acc: Acc)
      requires acc0.buffer == aiMessage0 && acc0.count == tokenCount0
      requires conversations == Displayed(base, convId, tempId, acc0.shown, render)
      requires selected == DisplayedSelection(baseSel, convId, tempId, acc0.shown)
      modifies this
      ensures acc == Step(acc0, parsed)
      ensures acc.buffer == aiMessage && acc.count == tokenCount
      ensures conversations == Displayed(base, convId, tempId, acc.shown, render)
      ensures selected == DisplayedSelection(baseSel, convId, tempId, acc.shown)
      ensures folders == old(folders) && isThinking == old(isThinking) && thinkingConvId == old(thinkingConvId)
    {
      aiMessage, tokenCount, acc := aiMessage0, tokenCount0, acc0;
      if parsed.Value? {
        aiMessage := aiMessage + Appended(parsed.delta);
        tokenCount := tokenCount + 1;
        if Refreshes(tokenCount, parsed.delta) {
          Refresh(convId, tempId, aiMessage, render, base, baseSel, acc.shown);
        }
      }
      acc := Step(acc, parsed);
    }

    /** The typewriter update: formatted text into the store's placeholder, raw text
        into the selection's. */
    method Refresh(convId: string, tempId: string, text: string, render: string -> string,
                   ghost base: seq<Conversation>, ghost baseSel: Option<Conversation>, ghost shown: Option<string>)
      requires conversations == Displayed(base, convId, tempId, shown, render)
      requires selected == DisplayedSelection(baseSel, convId, tempId, shown)
      modifies this
      ensures conversations == SetContent(old(conversations), convId, tempId, Format(render, text))
      ensures selected == SetSelectedContent(old(selected), convId, tempId, text)
      ensures conversations == Displayed(base, convId, tempId, Some(text), render)
      ensures selected == DisplayedSelection(baseSel, convId, tempId, Some(text))
      ensures folders == old(folders) && isThinking == old(isThinking) && thinkingConvId == old(thinkingConvId)
    {
      if shown.Some? {
        SetContentOverwrites(base, convId, tempId, Format(render, shown.value), Format(render, text));
        SetSelectedContentOverwrites(baseSel, convId, tempId, shown.value, text);
      }
      conversations := SetContent(conversations, convId, tempId, Format(render, text));
      selected := SetSelectedContent(selected, convId, tempId, text);
    }

    /** `sendMessage`: with no selection, nothing. Otherwise posts the user's message,
        applies the saved document if the post succeeded, marks the selected
        conversation as thinking, and streams the reply into it. */
    method SendMessage(content: string, userSaved: Option<ServerConversation>,
                       connected: bool, now: nat, chunks: seq<string>,
                       parse: string -> Parsed, render: string -> string,
                       aiSaved: Option<ServerConversation>)
      returns (posted: Option<string>)
      requires Valid()
      modifies this
      ensures Valid()
      ensures old(selected).None? ==>
                posted == None
                && conversations == old(conversations) && folders == old(folders) && selected == old(selected)
                && isThinking == old(isThinking) && thinkingConvId == old(thinkingConvId)
      ensures old(selected).Some? && !connected ==>
                posted == None && isThinking && thinkingConvId == Some(old(selected).value.id)
                && State() == Saved(old(State()), userSaved)
      ensures old(selected).Some? && connected ==>
                !isThinking && thinkingConvId == None
                && posted == PostedReply(chunks, parse, render)
                && State() == Streamed(Saved(old(State()), userSaved), old(selected).value.id,
                                       now, chunks, parse, render, aiSaved)
    {
      if selected.None? {
        return None;
      }
      var id := selected.value.id;
      if userSaved.Some? {
        ApplySaved(userSaved.value);
      }
      isThinking := true;
      thinkingConvId := Some(id);
      posted := StreamAIResponse(id, connected, now, chunks, parse, render, aiSaved);
    }
  }
}
