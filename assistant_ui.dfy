// The local-only variant of the chat store (frontend/src/components/AIAssistantUI.tsx):
// conversations carry a folder name and messages carry their own id and edit time.
// Every action is a React updater from one state value to the next; ids, clock
// readings and the prompt's answer are parameters.
module AssistantUI {
  import opened Wrappers
  import opened Text
  import opened Lists
  import opened Sorting
  import ChatTypes

  datatype LocalMessage = LocalMessage(
    id: string,
    role: ChatTypes.Role,
    content: string,
    createdAt: string,
    editedAt: Option<string>)

  /** `folder` is `None` for a conversation in no folder (`null`). */
  datatype LocalConversation = LocalConversation(
    id: string,
    title: string,
    updatedAt: string,
    messageCount: int,
    preview: string,
    pinned: bool,
    folder: Option<string>,
    messages: seq<LocalMessage>)

  datatype LocalFolder = LocalFolder(id: string, name: string)

  datatype UiState = UiState(
    conversations: seq<LocalConversation>,
    folders: seq<LocalFolder>,
    selectedId: Option<string>,
    isThinking: bool,
    thinkingConvId: Option<string>)

  const PreviewLength: nat := 80
  const RecentLimit: nat := 10
  const NewChatTitle: string := "New Chat"
  const NewChatPreview: string := "Say hello to start..."
  const DefaultFolder: string := "Work Projects"
  const CannedReply: string := "Got it \U{2014} I'll help with that."

  // ------------------------------------------------------------------ search

  /** Title or preview contains the lower-cased query, ignoring case. The query itself
      is lower-cased but not trimmed. */
  predicate Matches(c: LocalConversation, query: string) {
    var q := Lower(query);
    Contains(Lower(c.title), q) || Contains(Lower(c.preview), q)
  }

  /** `filtered`: everything for a blank query, otherwise the matching conversations. */
  function Filtered(cs: seq<LocalConversation>, query: string): seq<LocalConversation> {
    if Trim(Js, query) == [] then cs else Filter(cs, (c: LocalConversation) => Matches(c, query))
  }

  lemma FilteredSpec(cs: seq<LocalConversation>, query: string)
    ensures AllSpace(Js, query) ==> Filtered(cs, query) == cs
    ensures !AllSpace(Js, query) ==>
              forall c :: c in Filtered(cs, query) <==> c in cs && Matches(c, query)
  {
    TrimSpec(Js, query);
  }

  /** The search keeps list order and multiplicity: it is built element by element. */
  lemma FilteredSnoc(cs: seq<LocalConversation>, c: LocalConversation, query: string)
    requires !AllSpace(Js, query)
    ensures Filtered([], query) == []
    ensures Filtered(cs + [c], query) == Filtered(cs, query) + (if Matches(c, query) then [c] else [])
  {
    TrimSpec(Js, query);
    FilterSnoc(cs, c, (x: LocalConversation) => Matches(x, query));
  }

  lemma LowerKeepsSpace(s: string)
    ensures AllSpace(Js, Lower(s)) <==> AllSpace(Js, s)
  {
    assert forall k :: 0 <= k < |s| ==> (IsSpace(Js, Lower(s)[k]) <==> IsSpace(Js, s[k]));
  }

  /** The search ignores the case of the query. */
  lemma FilteredIgnoresQueryCase(cs: seq<LocalConversation>, query: string)
    ensures Filtered(cs, Lower(query)) == Filtered(cs, query)
  {
    TrimSpec(Js, query);
    TrimSpec(Js, Lower(query));
    LowerKeepsSpace(query);
    LowerIdempotent(query);
    forall c ensures Matches(c, Lower(query)) == Matches(c, query) {
      LowerIdempotent(c.title);
    }
    FilterSameTest(cs, (c: LocalConversation) => Matches(c, Lower(query)), (c: LocalConversation) => Matches(c, query));
  }

  // ------------------------------------------------------------------- views

  /** The comparator `a.updatedAt < b.updatedAt ? 1 : -1`: later timestamps first. */
  function NewestFirst(): (LocalConversation, LocalConversation) -> bool {
    (a: LocalConversation, b: LocalConversation) => NotBefore(a.updatedAt, b.updatedAt)
  }

  lemma NewestFirstTotalPreorder()
    ensures Total(NewestFirst()) && Transitive(NewestFirst())
  {
    NotBeforeTotalPreorder();
  }

  function PinnedView(cs: seq<LocalConversation>, query: string): seq<LocalConversation> {
    Sort(Filter(Filtered(cs, query), (c: LocalConversation) => c.pinned), NewestFirst())
  }

  function RecentCandidates(cs: seq<LocalConversation>, query: string): seq<LocalConversation> {
    Sort(Filter(Filtered(cs, query), (c: LocalConversation) => !c.pinned), NewestFirst())
  }

  function RecentView(cs: seq<LocalConversation>, query: string): seq<LocalConversation> {
    TakeList(RecentCandidates(cs, query), RecentLimit)
  }

  /** Sorting keeps the elements. */
  lemma SortSameElements(s: seq<LocalConversation>)
    ensures forall c :: c in Sort(s, NewestFirst()) <==> c in s
  {
    var r := Sort(s, NewestFirst());
    forall c ensures c in r <==> c in s {
      assert c in r <==> c in multiset(r);
      assert c in s <==> c in multiset(s);
    }
  }

  /** `pinned` holds exactly the pinned search results, newest first. */
  lemma PinnedViewSpec(cs: seq<LocalConversation>, query: string)
    ensures forall c :: c in PinnedView(cs, query) <==> c in Filtered(cs, query) && c.pinned
    ensures Sorted(PinnedView(cs, query), NewestFirst())
  {
    var pin := Filter(Filtered(cs, query), (c: LocalConversation) => c.pinned);
    SortSameElements(pin);
    NewestFirstTotalPreorder();
    SortSorted(pin, NewestFirst());
  }

  /** `recent` is the first ten of the unpinned search results sorted newest first: it
      holds at most ten of them, newest first, and none of the unpinned results it leaves
      out is newer than one it shows. */
  lemma RecentViewSpec(cs: seq<LocalConversation>, query: string)
    ensures var all := RecentCandidates(cs, query);
            RecentView(cs, query) == all[..if |all| < RecentLimit then |all| else RecentLimit]
    ensures forall c :: c in RecentView(cs, query) ==> c in Filtered(cs, query) && !c.pinned
    ensures |RecentView(cs, query)| <= RecentLimit
    ensures Sorted(RecentView(cs, query), NewestFirst())
    ensures var all := RecentCandidates(cs, query);
            forall c :: c in all <==> c in Filtered(cs, query) && !c.pinned
    ensures var all := RecentCandidates(cs, query);
            var recent := RecentView(cs, query);
            |all| > RecentLimit ==> |recent| == RecentLimit
    ensures var all := RecentCandidates(cs, query);
            var recent := RecentView(cs, query);
            forall i, j :: 0 <= i < |recent| && |recent| <= j < |all| ==>
              NotBefore(recent[i].updatedAt, all[j].updatedAt)
  {
    var unpin := Filter(Filtered(cs, query), (c: LocalConversation) => !c.pinned);
    var all := RecentCandidates(cs, query);
    var recent := RecentView(cs, query);
    SortSameElements(unpin);
    NewestFirstTotalPreorder();
    SortSorted(unpin, NewestFirst());
    assert recent == all[..|recent|];
    forall i, j | 0 <= i < |recent| && |recent| <= j < |all|
      ensures NotBefore(recent[i].updatedAt, all[j].updatedAt)
    {
      assert recent[i] == all[i];
      assert NewestFirst()(all[i], all[j]);
    }
    forall c | c in recent ensures c in all {
      var k :| 0 <= k < |recent| && recent[k] == c;
      assert all[k] == c;
    }
  }

  /** No conversation is listed both under `pinned` and under `recent`. */
  lemma ViewsDisjoint(cs: seq<LocalConversation>, query: string)
    ensures forall c :: c in RecentView(cs, query) ==> c !in PinnedView(cs, query)
  {
    PinnedViewSpec(cs, query);
    RecentViewSpec(cs, query);
  }

  // ------------------------------------------------------------ folder counts

  /** The property key `map[c.folder]` looks up. */
  function FolderKey(folder: Option<string>): string {
    if folder.Some? then folder.value else "null"
  }

  function FolderNames(folders: seq<LocalFolder>): set<string> {
    set f | f in folders :: f.name
  }

  /** How many of the conversations file under `name`. */
  function CountIn(cs: seq<LocalConversation>, name: string): nat {
    if cs == [] then 0
    else CountIn(cs[..|cs| - 1], name) + (if FolderKey(cs[|cs| - 1].folder) == name then 1 else 0)
  }

  /** `folderCounts`: one entry per folder name, starting at 0, incremented for every
      conversation whose folder is that name; conversations of unknown folders are skipped. */
  method FolderCounts(folders: seq<LocalFolder>, conversations: seq<LocalConversation>)
    returns (counts: map<string, nat>)
    ensures counts.Keys == FolderNames(folders)
    ensures forall n :: n in counts ==> counts[n] == CountIn(conversations, n)
  {
    counts := map n | n in FolderNames(folders) :: 0;
    for i := 0 to |conversations|
      invariant counts.Keys == FolderNames(folders)
      invariant forall n :: n in counts ==> counts[n] == CountIn(conversations[..i], n)
    {
      assert conversations[..i + 1][..i] == conversations[..i];
      var key := FolderKey(conversations[i].folder);
      if key in counts {
        counts := counts[key := counts[key] + 1];
      }
    }
    assert conversations[..|conversations|] == conversations;
  }

  /** The counts add up: a conversation is counted under at most one name. */
  lemma {:induction false} CountsAtMostTotal(cs: seq<LocalConversation>, a: string, b: string)
    requires a != b
    ensures CountIn(cs, a) + CountIn(cs, b) <= |cs|
  {
    if cs != [] {
      CountsAtMostTotal(cs[..|cs| - 1], a, b);
    }
  }

  // ----------------------------------------------------------------- actions

  /** The first conversation with that id. */
  function FindConversation(cs: seq<LocalConversation>, id: string): Option<LocalConversation> {
    Find(cs, (c: LocalConversation) => c.id == id)
  }

  /** `togglePin`. */
  function TogglePin(s: UiState, id: string): UiState {
    s.(conversations := seq(|s.conversations|, i requires 0 <= i < |s.conversations| =>
      var c := s.conversations[i];
      if c.id == id then c.(pinned := !c.pinned) else c))
  }

  lemma TogglePinTwice(s: UiState, id: string)
    ensures TogglePin(TogglePin(s, id), id) == s
  {
    var r := TogglePin(TogglePin(s, id), id);
    assert r.conversations == s.conversations;
  }

  /** `createNewChat`: a fresh, empty conversation at the front, selected. */
  function CreateNewChat(s: UiState, id: string, now: string): UiState {
    var item := LocalConversation(id, NewChatTitle, now, 0, NewChatPreview, false, Some(DefaultFolder), []);
    s.(conversations := [item] + s.conversations, selectedId := Some(id))
  }

  /** The new chat is first, so looking its id up finds it even if the id was taken;
      the earlier conversations follow unchanged. */
  lemma CreateNewChatSpec(s: UiState, id: string, now: string)
    ensures var r := CreateNewChat(s, id, now);
            var c := r.conversations[0];
            FindConversation(r.conversations, id) == Some(c)
            && c.messages == [] && c.messageCount == 0 && !c.pinned
            && r.conversations[1..] == s.conversations
            && r.selectedId == Some(id)
            && r.folders == s.folders
  {
    var r := CreateNewChat(s, id, now);
    FindFirst(r.conversations, (c: LocalConversation) => c.id == id, 0);
    assert r.conversations[1..] == s.conversations;
  }

  datatype FolderRejection = NoName | AlreadyExists

  predicate SameNameIgnoringCase(a: string, b: string) {
    Lower(a) == Lower(b)
  }

  /** No two folder names are equal ignoring case. */
  predicate DistinctNames(folders: seq<LocalFolder>) {
    forall i, j :: 0 <= i < j < |folders| ==> !SameNameIgnoringCase(folders[i].name, folders[j].name)
  }

  /** `createFolder`: `name` is what the prompt returned (`None` if cancelled). */
  function CreateFolder(folders: seq<LocalFolder>, name: Option<string>, id: string)
    : (r: Result<seq<LocalFolder>, FolderRejection>)
    ensures r.Failure? <==>
              name.None? || name.value == []
              || exists i :: 0 <= i < |folders| && SameNameIgnoringCase(folders[i].name, name.value)
    ensures r.Success? ==> r.value == folders + [LocalFolder(id, name.value)]
  {
    if name.None? || name.value == [] then Failure(NoName)
    else if exists i :: 0 <= i < |folders| && SameNameIgnoringCase(folders[i].name, name.value) then Failure(AlreadyExists)
    else Success(folders + [LocalFolder(id, name.value)])
  }

  /** Folder creation keeps folder names distinct ignoring case. */
  lemma CreateFolderKeepsNamesDistinct(folders: seq<LocalFolder>, name: Option<string>, id: string)
    requires DistinctNames(folders)
    ensures CreateFolder(folders, name, id).Success? ==> DistinctNames(CreateFolder(folders, name, id).value)
  {
    var r := CreateFolder(folders, name, id);
    if r.Success? {
      var fs := r.value;
      forall i, j | 0 <= i < j < |fs| ensures !SameNameIgnoringCase(fs[i].name, fs[j].name) {
        if j == |folders| {
          assert fs[i] == folders[i];
          assert fs[j].name == name.value;
        } else {
          assert fs[i] == folders[i] && fs[j] == folders[j];
        }
      }
    }
  }

  /** The messages list after one appended message, with count, preview and time kept in step. */
  function WithMessage(c: LocalConversation, m: LocalMessage, now: string): LocalConversation {
    var msgs := c.messages + [m];
    c.(messages := msgs, updatedAt := now, messageCount := |msgs|, preview := Take(m.content, PreviewLength))
  }

  /** Every conversation's `messageCount` is the length of its message list. */
  predicate CountsConsistent(cs: seq<LocalConversation>) {
    forall i :: 0 <= i < |cs| ==> cs[i].messageCount == |cs[i].messages|
  }

  /** Appending changes only the target conversation: one message more at the end, the
      count following the list, the preview the first 80 characters of the new message. */
  function AppendMessage(cs: seq<LocalConversation>, convId: string, m: LocalMessage, now: string)
    : (r: seq<LocalConversation>)
    ensures |r| == |cs|
    ensures forall i :: 0 <= i < |cs| && cs[i].id != convId ==> r[i] == cs[i]
    ensures forall i :: 0 <= i < |cs| && cs[i].id == convId ==>
              r[i].messages == cs[i].messages + [m]
              && r[i].messageCount == |cs[i].messages| + 1
              && r[i].preview == Take(m.content, PreviewLength)
              && r[i].updatedAt == now
              && r[i].(messages := cs[i].messages, messageCount := cs[i].messageCount,
                       preview := cs[i].preview, updatedAt := cs[i].updatedAt) == cs[i]
    ensures CountsConsistent(cs) ==> CountsConsistent(r)
  {
    seq(|cs|, i requires 0 <= i < |cs| => if cs[i].id == convId then WithMessage(cs[i], m, now) else cs[i])
  }

  /** `sendMessage`: a blank message does nothing; otherwise the user's message is appended
      and the conversation is marked as thinking. */
  function SendMessage(s: UiState, convId: string, content: string, msgId: string, now: string): UiState {
    if Trim(Js, content) == [] then s
    else s.(conversations := AppendMessage(s.conversations, convId,
                                           LocalMessage(msgId, ChatTypes.User, content, now, None), now),
            isThinking := true, thinkingConvId := Some(convId))
  }

  lemma SendMessageSpec(s: UiState, convId: string, content: string, msgId: string, now: string)
    ensures AllSpace(Js, content) ==> SendMessage(s, convId, content, msgId, now) == s
    ensures !AllSpace(Js, content) ==>
              var r := SendMessage(s, convId, content, msgId, now);
              r.isThinking && r.thinkingConvId == Some(convId)
              && r.folders == s.folders && r.selectedId == s.selectedId
              && r.conversations == AppendMessage(s.conversations, convId, LocalMessage(msgId, ChatTypes.User, content, now, None), now)
  {
    TrimSpec(Js, content);
  }

  /** The timer's reply: thinking ends and the canned assistant reply is appended. The source
      reads the clock twice, for the message's timestamp and for `updatedAt`; both reads are
      taken to give the same `now`. */
  function ReceiveReply(s: UiState, convId: string, msgId: string, now: string): UiState {
    s.(isThinking := false, thinkingConvId := None,
       conversations := AppendMessage(s.conversations, convId,
                                      LocalMessage(msgId, ChatTypes.Assistant, CannedReply, now, None), now))
  }

  /** After the reply, the conversation's preview is the canned reply. */
  lemma ReceiveReplyPreview(s: UiState, convId: string, msgId: string, now: string, i: int)
    requires 0 <= i < |s.conversations| && s.conversations[i].id == convId
    ensures var r := ReceiveReply(s, convId, msgId, now);
            r.conversations[i].preview == CannedReply
            && r.conversations[i].messages[|r.conversations[i].messages| - 1].content == CannedReply
            && !r.isThinking && r.thinkingConvId == None
  {
    assert |CannedReply| <= PreviewLength;
  }

  /** The preview after an edit: the first 80 characters of the last message, or the old
      preview when that is empty. */
  function EditedPreview(msgs: seq<LocalMessage>, oldPreview: string): string {
    if |msgs| > 0 && Take(msgs[|msgs| - 1].content, PreviewLength) != [] then Take(msgs[|msgs| - 1].content, PreviewLength)
    else oldPreview
  }

  function EditMessages(msgs: seq<LocalMessage>, messageId: string, newContent: string, now: string): seq<LocalMessage> {
    seq(|msgs|, k requires 0 <= k < |msgs| =>
      if msgs[k].id == messageId then msgs[k].(content := newContent, editedAt := Some(now)) else msgs[k])
  }

  /** `editMessage`: keeps the number, ids, roles and creation times of the messages,
      rewrites only the matching messages' content and edit time, recomputes the preview
      from the last message, and keeps every other field and every other conversation. */
  function EditMessage(cs: seq<LocalConversation>, convId: string, messageId: string, newContent: string, now: string)
    : (r: seq<LocalConversation>)
    ensures |r| == |cs|
    ensures forall i :: 0 <= i < |cs| && cs[i].id != convId ==> r[i] == cs[i]
    ensures forall i :: 0 <= i < |cs| && cs[i].id == convId ==>
              r[i].(messages := cs[i].messages, preview := cs[i].preview) == cs[i]
              && r[i].preview == EditedPreview(r[i].messages, cs[i].preview)
              && |r[i].messages| == |cs[i].messages|
              && (forall k :: 0 <= k < |cs[i].messages| ==>
                    (cs[i].messages[k].id == messageId ==>
                       r[i].messages[k] == cs[i].messages[k].(content := newContent, editedAt := Some(now)))
                    && (cs[i].messages[k].id != messageId ==> r[i].messages[k] == cs[i].messages[k]))
    ensures CountsConsistent(cs) ==> CountsConsistent(r)
  {
    seq(|cs|, i requires 0 <= i < |cs| =>
      if cs[i].id != convId then cs[i]
      else
        var msgs := EditMessages(cs[i].messages, messageId, newContent, now);
        cs[i].(messages := msgs, preview := EditedPreview(msgs, cs[i].preview)))
  }

  /** Editing the last message to non-empty text makes its start the preview; editing it
      to empty text keeps the old preview. */
  lemma EditLastMessagePreview(cs: seq<LocalConversation>, convId: string, newContent: string, now: string, i: int)
    requires 0 <= i < |cs| && cs[i].id == convId && |cs[i].messages| > 0
    ensures var last := cs[i].messages[|cs[i].messages| - 1];
            var r := EditMessage(cs, convId, last.id, newContent, now);
            r[i].preview == if newContent == [] then cs[i].preview else Take(newContent, PreviewLength)
  {
  }

  /** `resendMessage`: sends again the content of the first message with that id in the
      first conversation with that id; nothing if there is none. */
  function ResendMessage(s: UiState, convId: string, messageId: string, msgId: string, now: string): UiState {
    var conv := FindConversation(s.conversations, convId);
    if conv.None? then s
    else
      var msg := Find(conv.value.messages, (m: LocalMessage) => m.id == messageId);
      if msg.None? then s else SendMessage(s, convId, msg.value.content, msgId, now)
  }

  /** Resending a message is sending its content again. */
  lemma ResendIsSend(s: UiState, convId: string, messageId: string, msgId: string, now: string, i: int, k: int)
    requires 0 <= i < |s.conversations| && s.conversations[i].id == convId
    requires forall j :: 0 <= j < i ==> s.conversations[j].id != convId
    requires 0 <= k < |s.conversations[i].messages| && s.conversations[i].messages[k].id == messageId
    requires forall j :: 0 <= j < k ==> s.conversations[i].messages[j].id != messageId
    ensures ResendMessage(s, convId, messageId, msgId, now)
         == SendMessage(s, convId, s.conversations[i].messages[k].content, msgId, now)
  {
    FindFirst(s.conversations, (c: LocalConversation) => c.id == convId, i);
    FindFirst(s.conversations[i].messages, (m: LocalMessage) => m.id == messageId, k);
  }

  /** `pauseThinking`. */
  function PauseThinking(s: UiState): (r: UiState)
    ensures !r.isThinking && r.thinkingConvId == None
    ensures r.conversations == s.conversations && r.folders == s.folders && r.selectedId == s.selectedId
  {
    s.(isThinking := false, thinkingConvId := None)
  }
}
