# Athena conversational copilot: chat store, stream assembly and ingestion text processing

This project models the logic at the core of the Athena conversational copilot in Dafny, and proves properties about it. The model covers two halves.

**The chat client (TypeScript).**
- `ChatStore.ChatContext` is a class. It holds the conversations, the folders, the selected conversation and the thinking flags of the React chat context.
  - Its methods are the context's actions: create, pin toggling with rollback, cascading delete, folder create/rename/delete, and applying a saved server document.
  - Its methods also include the stream reader. The reader adds a `streaming-<ts>` placeholder, reads `data: ` lines chunk by chunk, and accumulates `{delta}` payloads. It refreshes the placeholder every fifth token or on a newline, and posts the trimmed, formatted reply at `[DONE]`.
  - `StreamProtocol` is the value-level specification of that reader. It covers line framing, payload extraction, and a fold (`Feed`) over payloads. The reader's loops are proved against `Feed`.
- `AssistantUI` is the local-only store of the stand-alone assistant screen. It covers search, pinned/recent views, folder counts, message append and edit, and the duplicate-folder check.
- `Sidebar` covers the template list and the folder mappings. `CreateFolderModal` covers the selection toggle and the submit guard. `Util` covers `cls`, `timeAgo`'s bucketing and `makeId`.

**The ingestion scripts (Python).**
- `Chunking`: the overlapping character chunker, three identical copies, and the word chunker.
- `Arxiv`: feed entries to records, keyword filtering, tag post-processing and expansion, and the Mongo upload skip rules.
- `Pubmed`: PubMed record building.
- `Rag`: `clean_chunk`, context assembly, the ingestion tag cap and input routing.
- `VectorUpsert`: vector ids, metadata, batching, and the order of upserts and marking.

`Text`, `Lists` and `Sorting` hold the string, list and sorting functions the model is written in. `Wrappers` holds `Option`/`Result`.

Network, database, embedding and language-model calls are not modelled. Their results are parameters: a server response as an `Option`, a download as a function from article to file id, a parser as a function from payload to a parse result.

Where the behaviour described for the system and the code differ, the model follows the code:
- When the stream connection fails, `streamAIResponse` returns without clearing `isThinking`. `sendMessage` has just set it, so the conversation stays marked as thinking (frontend/src/components/contexts/ChatContext.tsx:218-221, 386-388).
- The context's `recent` list does not exclude pinned conversations; the filter is commented out (ChatContext.tsx:73-78). It also sorts the state array in place. `ChatContext.Recent` therefore reorders `conversations`.
- The refresh writes formatted HTML into the conversation list but raw text into the selected copy (ChatContext.tsx:322 and 336).
- A JSON payload without `delta` appends the string `"undefined"` (ChatContext.tsx:307).
- `is_contextual` and the `pinecone_indexed` field exist only in backend/mongodb.py's `upload_to_mongo`. The copy in ingestion_preprocess_upsert.py has neither.

## Model

| member | source | states |
|---|---|---|
| ChatTypes.FromServer | frontend/src/components/contexts/ChatContext.tsx:143 | the client conversation takes the server's `_id` as its `id`, and keeps its messages and pin state |
| ChatTypes.FolderFromServer | frontend/src/components/contexts/ChatContext.tsx:424-431 | a folder takes its `_id` as `id`, keeps its name, and remaps every contained conversation one for one |
| ChatStore.FindById | frontend/src/components/contexts/ChatContext.tsx:170 | a conversation is found exactly when one has the id; it has that id and is the first in the list |
| ChatStore.FlipPinnedChangesOnlyPin | frontend/src/components/contexts/ChatContext.tsx:157-159 | the optimistic flip keeps the length, changes nothing but `pinned`, and changes `pinned` exactly on the conversations with that id |
| ChatStore.FlipPinnedTwice | frontend/src/components/contexts/ChatContext.tsx:175-177 | the rollback after a failed PATCH restores the conversation list exactly |
| ChatStore.RemoveById | frontend/src/components/contexts/ChatContext.tsx:399 | a conversation survives deletion exactly when it was present and has another id |
| ChatStore.RemoveAbsent | frontend/src/components/contexts/ChatContext.tsx:399 | deleting an id that is not present leaves the list unchanged |
| ChatStore.ReplaceByIdSpec | frontend/src/components/contexts/ChatContext.tsx:279-287 | the saved document replaces every same-id entry, every other entry is kept, and it is never added when its id is absent |
| ChatStore.ReplaceByIdIdempotent | frontend/src/components/contexts/ChatContext.tsx:363-371 | applying the same saved document twice equals applying it once |
| ChatStore.RemoveFolder | frontend/src/components/contexts/ChatContext.tsx:451 | a folder survives exactly when it was present and has another id |
| ChatStore.PinnedOf | frontend/src/components/contexts/ChatContext.tsx:72 | the pinned list holds exactly the pinned conversations |
| ChatStore.PinnedOfSnoc | frontend/src/components/contexts/ChatContext.tsx:72 | the pinned list is built in list order: an empty list gives nothing, and one more conversation at the end is appended exactly when it is pinned, so order and repeats are kept |
| ChatStore.NewerFirstTotalPreorder | frontend/src/components/contexts/ChatContext.tsx:75-78 | the newest-first comparator is total and transitive, so the sort it drives is well defined |
| ChatStore.PlaceholderId | frontend/src/components/contexts/ChatContext.tsx:227 | the placeholder id is `streaming-` followed by a non-empty timestamp |
| ChatStore.AppendPlaceholderSpec | frontend/src/components/contexts/ChatContext.tsx:230-242 | exactly the target conversations gain one message, an empty assistant message with the placeholder id, at the end; nothing else changes |
| ChatStore.SetContentSpec | frontend/src/components/contexts/ChatContext.tsx:315-328 | a refresh rewrites only the content of the placeholder messages in the target conversation; every other message and conversation is kept |
| ChatStore.SetContentOverwrites | frontend/src/components/contexts/ChatContext.tsx:315-328 | a later refresh fully overwrites an earlier one in the conversation list |
| ChatStore.SetMessageContentOverwrites | frontend/src/components/contexts/ChatContext.tsx:320-324 | the same overwrite law holds for one conversation's messages |
| ChatStore.SetSelectedContentOverwrites | frontend/src/components/contexts/ChatContext.tsx:331-339 | the same overwrite law holds for the selected copy |
| ChatStore.ChatContext.constructor | frontend/src/components/contexts/ChatContext.tsx:60-69 | the store starts with no conversations, no folders, no selection and nothing thinking |
| ChatStore.ChatContext.Pinned | frontend/src/components/contexts/ChatContext.tsx:72 | the derived pinned list holds exactly the pinned conversations of the state, in list order: it is the pinned list of all but the last conversation, followed by the last one when that is pinned |
| ChatStore.ChatContext.Recent | frontend/src/components/contexts/ChatContext.tsx:73-78 | the in-place sort leaves `conversations` a newest-first permutation of itself and returns it; nothing else changes |
| ChatStore.ChatContext.CreateConversation | frontend/src/components/contexts/ChatContext.tsx:136-152 | the title is `New chat <n+1>`; on success the remapped document is appended and selected; on failure nothing changes |
| ChatStore.ChatContext.TogglePin | frontend/src/components/contexts/ChatContext.tsx:155-179 | the request asks for the negation of the current pin state (true when the id is unknown); folder copies are flipped; the list stays flipped on success and is restored on failure, while folder copies are not rolled back |
| ChatStore.ChatContext.DeleteConversation | frontend/src/components/contexts/ChatContext.tsx:398-408 | the id leaves the list and every folder; the selection is cleared only if it had that id |
| ChatStore.ChatContext.ApplySaved | frontend/src/components/contexts/ChatContext.tsx:360-380 | the remapped document replaces same-id entries in the list and in every folder, and becomes the selection |
| ChatStore.ChatContext.CreateFolder | frontend/src/components/contexts/ChatContext.tsx:410-439 | on success exactly the remapped folder is appended; on failure nothing changes |
| ChatStore.ChatContext.RenameFolder | frontend/src/components/contexts/ChatContext.tsx:441-447 | only the name of the folders with that id changes |
| ChatStore.ChatContext.DeleteFolder | frontend/src/components/contexts/ChatContext.tsx:449-453 | the folders with that id are removed, and nothing else changes |
| ChatStore.ChatContext.StreamAIResponse | frontend/src/components/contexts/ChatContext.tsx:209-349 | on connection failure nothing changes; otherwise thinking is cleared, a reply is posted exactly when the payload fold reaches `[DONE]`, and the posted reply is the formatted trimmed buffer; the final list and selection are the placeholder state, refreshed by the fold, and when `[DONE]` arrived and the reply was saved, the saved document replaces its entry in the list and the folders and becomes the selection |
| ChatStore.ChatContext.ReadLines | frontend/src/components/contexts/ChatContext.tsx:261-347 | reading one chunk's lines advances the accumulator exactly as the fold over its `data: ` payloads does, and the state shows the fold's last refresh |
| ChatStore.ChatContext.ReadLine | frontend/src/components/contexts/ChatContext.tsx:264-346 | one line is one fold step, stopping at `[DONE]` |
| ChatStore.ChatContext.ApplyParsed | frontend/src/components/contexts/ChatContext.tsx:305-344 | a parsed payload advances the reader exactly as one fold step does (append the delta, count a token, refresh on the throttle; nothing for a malformed or null payload), and the store shows that step's last refresh |
| ChatStore.ChatContext.Refresh | frontend/src/components/contexts/ChatContext.tsx:311-341 | the list gets the formatted text and the selected copy gets the raw text, both in the placeholder message only |
| ChatStore.ChatContext.SendMessage | frontend/src/components/contexts/ChatContext.tsx:352-389 | with no selection nothing happens; otherwise the saved user document (if the post succeeded) is applied to the list, the folders and the selection, and the selected conversation is marked thinking; a failed connection leaves that state, still thinking; a connected stream then clears thinking, leaves the store as the stream over that state does, and posts the formatted trimmed reply exactly when `[DONE]` arrives |
| StreamProtocol.NonEmpty | frontend/src/components/contexts/ChatContext.tsx:261 | `filter(Boolean)` keeps only non-empty pieces, each taken from the input |
| StreamProtocol.Lines | frontend/src/components/contexts/ChatContext.tsx:261 | the lines of a chunk are non-empty and contain no line break |
| StreamProtocol.PayloadOfDataLine | frontend/src/components/contexts/ChatContext.tsx:264-265 | a `data: ` line yields the rest of the line as its payload when that has no outer white space |
| StreamProtocol.DataPayloadsOfDataLines | frontend/src/components/contexts/ChatContext.tsx:263-265 | a run of `data: ` lines yields its payloads in order |
| StreamProtocol.LinesOfFrame | frontend/src/components/contexts/ChatContext.tsx:260-261 | splitting framed output on line breaks gives back its `data: ` lines |
| StreamProtocol.FrameRoundTrip | frontend/src/components/contexts/ChatContext.tsx:260-265 | payloads framed as `data: <p>` lines and delivered in one chunk are read back exactly |
| StreamProtocol.ChunkOfOneLine | frontend/src/components/contexts/ChatContext.tsx:261-265 | a chunk holding one line yields that line's payload, if any |
| StreamProtocol.StreamOfOneChunk | frontend/src/components/contexts/ChatContext.tsx:256-263 | a stream of one chunk yields that chunk's payloads |
| StreamProtocol.TwoChunks | frontend/src/components/contexts/ChatContext.tsx:256-263 | two reads yield the first chunk's payloads, then the second's |
| StreamProtocol.NoDataLine | frontend/src/components/contexts/ChatContext.tsx:264 | a line not starting with `data: ` yields nothing |
| StreamProtocol.SplitLineIsLost | frontend/src/components/contexts/ChatContext.tsx:256-265 | no buffer survives a read: a `data: ` line cut inside its prefix across two reads yields nothing, while delivered whole it yields its payload |
| StreamProtocol.CutHeadIsLost | frontend/src/components/contexts/ChatContext.tsx:264 | the first part of such a cut line yields nothing |
| StreamProtocol.CutTailIsLost | frontend/src/components/contexts/ChatContext.tsx:264 | the second part of such a cut line yields nothing |
| StreamProtocol.FeedAppend | frontend/src/components/contexts/ChatContext.tsx:256-348 | before `[DONE]`, reading payloads in two parts equals reading them at once |
| StreamProtocol.FeedStopsAtDone | frontend/src/components/contexts/ChatContext.tsx:267-303 | once `[DONE]` is read, nothing after it has any effect |
| StreamProtocol.FeedLine | frontend/src/components/contexts/ChatContext.tsx:263-346 | a line's payload is one fold step |
| StreamProtocol.FeedChunk | frontend/src/components/contexts/ChatContext.tsx:260-347 | a chunk's payloads are folded in order |
| StreamProtocol.MalformedIsSkipped | frontend/src/components/contexts/ChatContext.tsx:305-345 | a payload whose parse throws leaves buffer, counter and display unchanged, as if it were absent |
| StreamProtocol.FeedDeltas | frontend/src/components/contexts/ChatContext.tsx:305-308 | for parsable deltas, the buffer grows by their concatenation and the counter by their number, and the stream is not done |
| StreamProtocol.FeedKeepsFresh | frontend/src/components/contexts/ChatContext.tsx:310-314 | the displayed text is never more than four tokens behind: every fifth token triggers a refresh |
| StreamProtocol.Format | frontend/src/components/contexts/ChatContext.tsx:191-192 | empty content formats to the empty string |
| StreamProtocol.HiThere | frontend/src/components/contexts/ChatContext.tsx:256-303 | the deltas `Hi` and ` there` followed by `[DONE]` end the stream with the buffer `Hi there` and a count of 2 |
| AssistantUI.FilteredSpec | frontend/src/components/AIAssistantUI.tsx:148-155 | a blank query returns every conversation; otherwise exactly those whose lower-cased title or preview contains the lower-cased query |
| AssistantUI.FilteredSnoc | frontend/src/components/AIAssistantUI.tsx:151-154 | for a non-blank query the result is built in list order: an empty list gives nothing, and one more conversation at the end is appended exactly when it matches, so order and repeats are kept |
| AssistantUI.FilteredIgnoresQueryCase | frontend/src/components/AIAssistantUI.tsx:148-155 | the search result does not depend on the query's case |
| AssistantUI.NewestFirstTotalPreorder | frontend/src/components/AIAssistantUI.tsx:159 | the `updatedAt` comparator, read as "not older", is total and transitive |
| AssistantUI.PinnedViewSpec | frontend/src/components/AIAssistantUI.tsx:157-159 | the pinned view is exactly the filtered pinned conversations, newest first |
| AssistantUI.RecentViewSpec | frontend/src/components/AIAssistantUI.tsx:161-164 | the recent view is the newest ten filtered unpinned conversations: at most ten, newest first, a prefix of all candidates sorted |
| AssistantUI.ViewsDisjoint | frontend/src/components/AIAssistantUI.tsx:157-164 | no conversation appears in both views |
| AssistantUI.FolderCounts | frontend/src/components/AIAssistantUI.tsx:166-173 | the loop yields a count for exactly the folder names, each equal to the number of conversations in that folder |
| AssistantUI.CountsAtMostTotal | frontend/src/components/AIAssistantUI.tsx:166-173 | two different folders' counts together never exceed the number of conversations |
| AssistantUI.TogglePinTwice | frontend/src/components/AIAssistantUI.tsx:176-180 | toggling a pin twice restores the state |
| AssistantUI.CreateNewChatSpec | frontend/src/components/AIAssistantUI.tsx:182-197 | a new empty, unpinned chat with messageCount 0 is put at the front and selected, and the rest follow unchanged |
| AssistantUI.CreateFolder | frontend/src/components/AIAssistantUI.tsx:199-208 | it is rejected exactly for an empty or missing name, or one equal ignoring case to an existing name; otherwise exactly one folder is appended |
| AssistantUI.CreateFolderKeepsNamesDistinct | frontend/src/components/AIAssistantUI.tsx:199-208 | folder names that are distinct ignoring case stay so |
| AssistantUI.AppendMessage | frontend/src/components/AIAssistantUI.tsx:220-232 | only the target conversation changes: one message at the end, messageCount equals the new length, preview is the first 80 characters, updatedAt is set; consistent counts stay consistent |
| AssistantUI.SendMessageSpec | frontend/src/components/AIAssistantUI.tsx:210-236 | blank content changes nothing; otherwise the user message is appended and the conversation is marked thinking |
| AssistantUI.ReceiveReplyPreview | frontend/src/components/AIAssistantUI.tsx:237-259 | the timed reply clears thinking and appends the canned assistant message, whose first 80 characters become the preview |
| AssistantUI.EditMessage | frontend/src/components/AIAssistantUI.tsx:262-281 | other conversations are kept; in the target, each matching message gets the new content and edit time and keeps its id, role and creation time, other messages are kept, the preview becomes the first 80 characters of the last message (the old preview when that is empty or there is none), and no other field changes; consistent counts stay consistent |
| AssistantUI.EditLastMessagePreview | frontend/src/components/AIAssistantUI.tsx:277 | editing the last message makes the preview the first 80 characters of the new content, or keeps the old preview when that is empty |
| AssistantUI.ResendIsSend | frontend/src/components/AIAssistantUI.tsx:283-288 | resending a found message is sending its content again |
| AssistantUI.PauseThinking | frontend/src/components/AIAssistantUI.tsx:290-293 | thinking is cleared and nothing else changes |
| Sidebar.SaveTemplate | frontend/src/components/Sidebar.tsx:86-104 | while editing, the edited id's template is replaced by the new data under the same id and the length is kept; otherwise one template with the fresh id is appended after the unchanged list; the edit state is cleared |
| Sidebar.SaveKeepsIdsUnique | frontend/src/components/Sidebar.tsx:86-104 | template ids stay unique when the fresh id is new |
| Sidebar.SaveThenFind | frontend/src/components/Sidebar.tsx:87-94 | after saving an edit, looking up the edited id finds the new data |
| Sidebar.RenameTemplate | frontend/src/components/Sidebar.tsx:111-118 | only the name and updatedAt of the templates with that id change |
| Sidebar.RenameKeepsIdsAndContent | frontend/src/components/Sidebar.tsx:111-118 | renaming keeps every id and every content |
| Sidebar.DeleteTemplate | frontend/src/components/Sidebar.tsx:120-123 | a template survives exactly when it was present and has another id |
| Sidebar.DeleteTemplateAbsent | frontend/src/components/Sidebar.tsx:120-123 | deleting an absent id changes nothing |
| Sidebar.DeleteTemplateIdempotent | frontend/src/components/Sidebar.tsx:120-123 | deleting twice equals deleting once |
| Sidebar.DeleteTemplateKeepsOrder | frontend/src/components/Sidebar.tsx:120-123 | the survivors keep their relative order |
| Sidebar.ByFolder | frontend/src/components/Sidebar.tsx:64-65 | exactly the conversations whose folder equals the name |
| Sidebar.ByFolderSnoc | frontend/src/components/Sidebar.tsx:64-65 | the folder listing is built in list order: an empty list gives nothing, and one more conversation at the end is appended exactly when it is in the folder, so order and repeats are kept |
| Sidebar.ByFolderMatchesCount | frontend/src/components/Sidebar.tsx:64-65 | for a name other than `"null"`, the folder listing has as many entries as the folder count |
| Sidebar.MoveFolder | frontend/src/components/Sidebar.tsx:71-83 | a same-length list in which exactly the conversations of the named folder change folder (to none or the new name) |
| Sidebar.MoveFolderCounts | frontend/src/components/Sidebar.tsx:71-83 | renaming empties the old folder and moves its count onto the new one; deleting empties it |
| CreateFolderModal.ToggleSelect | frontend/src/components/CreateFolderModal.tsx:38-50 | a selected id is removed; an unselected stored id adds the stored conversation; an unknown id changes nothing |
| CreateFolderModal.ToggleSelectKeepsIdsUnique | frontend/src/components/CreateFolderModal.tsx:38-50 | the selection never holds two conversations with the same id |
| CreateFolderModal.ToggleSelectTwice | frontend/src/components/CreateFolderModal.tsx:38-50 | toggling an unselected stored id twice restores the selection |
| CreateFolderModal.Submit | frontend/src/components/CreateFolderModal.tsx:18-30 | a folder is requested exactly when the trimmed name is non-empty and something is selected, with the trimmed name and the selection, and then the form resets; otherwise nothing changes |
| CreateFolderModal.SubmitTrimmedName | frontend/src/components/CreateFolderModal.tsx:20-25 | an already trimmed name is passed through unchanged |
| CreateFolderModal.Cancel | frontend/src/components/CreateFolderModal.tsx:32-36 | the name and the selection are reset |
| Util.Kept | frontend/src/utils/util.ts:5-7 | the filter keeps at most as many strings as there are arguments, none of them empty |
| Util.KeptMembers | frontend/src/utils/util.ts:5-7 | exactly the non-empty string arguments are kept; `undefined`, `null`, `false` and `""` are dropped |
| Util.KeptAppend | frontend/src/utils/util.ts:5-7 | filtering keeps argument order |
| Util.ClsSplit | frontend/src/utils/util.ts:5-7 | splitting the result on spaces gives back the kept class names |
| Util.ClsConcat | frontend/src/utils/util.ts:5-7 | the result for two argument lists is the two results joined by one space, or the non-empty one |
| Util.ElapsedSeconds | frontend/src/utils/util.ts:13 | elapsed seconds are at least 1, and are the floored quotient once two seconds have passed |
| Util.Divisor | frontend/src/utils/util.ts:32-43 | every unit's divisor is positive |
| Util.UnitForBounds | frontend/src/utils/util.ts:17-45 | the chosen unit's divisor is at most the seconds, so the value is at most -1, and below a year the seconds are under the unit's limit |
| Util.RangeChoice | frontend/src/utils/util.ts:29-31 | the unit is that of the first range whose limit exceeds the seconds |
| Util.TimeAgo | frontend/src/utils/util.ts:10-50 | the loop picks the unit of the bucket function and the value minus the floored quotient, which is at most -1 |
| Util.Slice | frontend/src/utils/util.ts:54 | JavaScript `slice` clamps its bounds and equals the plain slice when they are in range |
| Util.MakeId | frontend/src/utils/util.ts:53-54 | the id starts with the prefix and has at most eight more characters |
| Chunking.SplitIntoChunks | preprocess_pipeline.py:18-30 | empty text gives no chunks; otherwise chunk k is `text[k*step : min(k*step+chunk_size, len)]` with `step = chunk_size - overlap`, and there are ceil(len/step) chunks; the copies at ingestion_preprocess_upsert.py:25-34 and preprocess_pipeline2.py:19-28 are verbatim |
| Chunking.ChunkBounds | preprocess_pipeline2.py:23-27 | every chunk is non-empty, at most chunk_size long, and starts before the end |
| Chunking.FirstChunk | preprocess_pipeline2.py:21-27 | there are no chunks exactly for empty text, and the first chunk is `text[:chunk_size]` |
| Chunking.ChunksCover | preprocess_pipeline.py:25-29 | with 0 <= overlap < chunk_size every character lies in some chunk |
| Chunking.RejoinChunks | preprocess_pipeline2.py:23-28 | the first chunk followed by each later chunk without its first `overlap` characters gives back the text |
| Chunking.RejoinPrefix | preprocess_pipeline2.py:23-28 | the first j chunks rejoined give the text up to the end of chunk j-1 |
| Chunking.Words | pdf_tester.py:83 | `split()` gives non-empty words free of white space |
| Chunking.WordsOfSpace | pdf_tester.py:83 | white-space-only text has no words |
| Chunking.WordsOfJoin | pdf_tester.py:83-85 | splitting words joined by single spaces gives them back |
| Chunking.BatchWords | pdf_tester.py:84-85 | each chunk splits back into its batch of words |
| Chunking.CreateSemanticChunks | pdf_tester.py:81-87 | a zero chunk size fails as `range` does, a negative one gives no chunks, and a positive one gives the joined word batches |
| Chunking.WordChunksStep | pdf_tester.py:84-86 | the loop's remaining chunks are the chunks of the remaining words |
| Chunking.WordChunksSpec | pdf_tester.py:84-86 | the chunks joined by spaces equal the words joined by spaces; there are ceil(words/size) chunks; all but the last hold exactly chunk_size words and the last at most that; blank text gives none |
| Arxiv.ArxivId | backend/mongodb.py:74-75 | the id holds no `/` and no `v` |
| Arxiv.ArxivIdOfVersioned | backend/mongodb.py:74-75 | `.../2409.12345v2` gives `2409.12345`; the copies at ingestpdf.py:35-36 and ingestion_preprocess_upsert.py:57-58 map the same way |
| Arxiv.ArxivIdOfUnversioned | ingestpdf.py:35-36 | an id without a version is the last path segment |
| Arxiv.Abstract | backend/mongodb.py:71 | the abstract has no line break and no outer white space |
| Arxiv.PdfUrlSpec | backend/mongodb.py:77-83 | there is a PDF URL exactly when some link qualifies, and then it is the first such link's href; alternate links are skipped where the source skips them |
| Arxiv.FindPdfUrl | ingestpdf.py:38-44 | the `continue`/`break` link loop computes that URL; the copy at ingestion_preprocess_upsert.py:60-64 is the same loop without the alternate check, also modelled |
| Arxiv.ArticlesOfAppend | ingestpdf.py:46-52 | records keep feed order: two runs of entries give the first run's records, then the second's |
| Arxiv.ArticlesOfBound | ingestion_preprocess_upsert.py:66-72 | each entry gives at most one record, and every record comes from one of the entries |
| Arxiv.FetchArxiv | backend/mongodb.py:69-93 | the entry loop returns exactly the records of the entries with a PDF URL, in feed order; the copy at ingestion_preprocess_upsert.py:51-73, which does not skip alternate links, is also modelled |
| Arxiv.CombinedLower | backend/mongodb.py:25 | lower-casing `title + " " + abstract` lower-cases each part |
| Arxiv.KeywordMarksOffTopic | backend/mongodb.py:20-26 | a paper whose title or abstract contains one of the six keywords, ignoring case, is not contextual |
| Arxiv.IsContextualIgnoresCase | backend/mongodb.py:25 | the filter does not depend on case |
| Arxiv.Tags | backend/mongodb.py:36-37 | every tag is non-empty, stripped and free of commas |
| Arxiv.TagsOfJoin | backend/mongodb.py:36-37 | tags joined by commas are recovered in order |
| Arxiv.Variants | backend/mongodb.py:42-47 | a tag gives itself and its five suffixed forms, in order |
| Arxiv.ExpandedAt | backend/mongodb.py:39-48 | expansion gives six queries per tag, in input order, item `6i+j` being tag i with suffix j |
| Arxiv.ExpandTags | backend/mongodb.py:39-48 | the append loop computes that expansion |
| Arxiv.UploadToMongo | backend/mongodb.py:95-141 | only papers whose id is not yet stored, that pass the filter and whose download succeeds are inserted, with distinct ids and `pinecone_indexed` false; every such paper ends up stored; the copy at ingestion_preprocess_upsert.py:75-108, without the contextual filter and the `pinecone_indexed` field, is also modelled |
| Pubmed.PresentTexts | ingest.py:31 | exactly the non-empty AbstractText texts are joined |
| Pubmed.PresentTextsSnoc | ingest.py:31 | the texts are taken in document order: no elements give nothing, and one more element at the end adds its text exactly when the text is truthy |
| Pubmed.AbstractEmpty | ingest.py:31 | the abstract is empty exactly when no AbstractText has text |
| Pubmed.AuthorsOfSpec | ingest.py:33-38 | authors are exactly `ForeName LastName` for entries with both names, at most one per entry |
| Pubmed.AuthorsOfAppend | ingest.py:33-38 | the names keep document order: two runs of authors give the first run's names, then the second's |
| Pubmed.AuthorsOfOne | ingest.py:35-38 | one author gives `ForeName LastName` when both names are present and non-empty, and nothing otherwise |
| Pubmed.CollectAuthors | ingest.py:33-38 | the author loop computes that list |
| Pubmed.PmcIdFails | ingest.py:45-47 | the record fails (Python raises on `None.replace`) exactly when some pmc ArticleId has no text |
| Pubmed.PmcIdNone | ingest.py:43-47 | without a failure, pmcid is none exactly when no id has IdType "pmc" |
| Pubmed.PmcIdLastWins | ingest.py:43-47 | without a failure, pmcid is the text of the last "pmc" id with "PMC" removed |
| Pubmed.PmcPrefixRemoved | ingest.py:47 | `PMC1234` gives `1234` |
| Pubmed.FindPmcId | ingest.py:43-47 | the overwriting loop computes that id |
| Pubmed.PmcIdStaysFailed | ingest.py:45-47 | once a prefix fails, the whole list fails |
| Pubmed.SafeTitle | ingest.py:55 | spaces and `/` become `_` and at most 50 characters are kept |
| Pubmed.SafeTitleSafe | ingest.py:55 | the file stem has no space or `/` and is at most 50 long |
| Pubmed.SafeTitleIdempotent | ingest.py:55 | making a stem safe twice equals once |
| Pubmed.PathJoin | ingest.py:56 | the path starts with the folder and ends with the file name |
| Pubmed.PdfPathOf | ingest.py:49-61 | a path is set exactly for status 200 with Content-Type `application/pdf`, inside the folder, named after the safe title |
| Pubmed.PaperOfSpec | ingest.py:29-69 | a PDF path is set exactly when the pmc id is non-empty and its download answers 200 with a PDF; a missing title becomes `No title`; pmcid is the last pmc id |
| Pubmed.BuildPaper | ingest.py:29-69 | the per-article loop body computes that record |
| Pubmed.PapersOfSpec | ingest.py:17-71 | every article yields one record, in order, unless one fails |
| Pubmed.FetchPubmedDetails | ingest.py:17-71 | the article loop computes those records |
| Pubmed.PapersStayFailed | ingest.py:29-69 | one failing article fails the whole call |
| Rag.UrlMatch | backend/rag_pipeline.py:47 | a URL match exists exactly at `http://` or `https://` and runs to the next white space |
| Rag.RemoveUrls | backend/rag_pipeline.py:47 | removal never lengthens the text |
| Rag.RemoveUrlsKeepsHead | backend/rag_pipeline.py:47 | text before the first white space is kept up to any URL |
| Rag.RemoveUrlsComplete | backend/rag_pipeline.py:47 | no URL starts anywhere in the result |
| Rag.RemoveUrlsAbsent | backend/rag_pipeline.py:47 | text without URLs is unchanged |
| Rag.CitationEnd | backend/rag_pipeline.py:48 | a citation's closing bracket lies within the text |
| Rag.CitationMatch | backend/rag_pipeline.py:48 | a citation match starts with `[` |
| Rag.CitationOne | backend/rag_pipeline.py:48 | `[12]` is one citation |
| Rag.CitationPair | backend/rag_pipeline.py:48 | `[1, 2]` is one citation |
| Rag.RemoveCitations | backend/rag_pipeline.py:48 | removal never lengthens the text |
| Rag.CitationRemoved | backend/rag_pipeline.py:48 | a numeric citation is removed and the text around it kept |
| Rag.CitationPairRemoved | backend/rag_pipeline.py:48 | a two-number citation is removed and the text around it kept |
| Rag.RemoveCitationsAbsent | backend/rag_pipeline.py:48 | text without `[` is unchanged |
| Rag.Collapse | backend/rag_pipeline.py:49 | every white-space run becomes one space: no two adjacent blanks, only spaces as blanks, empty exactly for empty input |
| Rag.CollapseUnchanged | backend/rag_pipeline.py:49 | already collapsed text is unchanged |
| Rag.CollapseIdempotent | backend/rag_pipeline.py:49 | collapsing twice equals once |
| Rag.TrailingWordRun | backend/rag_pipeline.py:50 | the maximal run of word characters at the end |
| Rag.DropShortTail | backend/rag_pipeline.py:50 | exactly a final word of 1 to 3 word characters is removed, and nothing else |
| Rag.CleanChunk | backend/rag_pipeline.py:46-51 | the cleaned chunk is no longer than the input, stripped, and has single spaces as its only blanks |
| Rag.CleanChunkOneLine | backend/rag_pipeline.py:46-51 | the cleaned chunk holds no line break |
| Rag.CleanChunkUnchanged | backend/rag_pipeline.py:46-51 | clean text without URLs, citations or a short final word is unchanged |
| Rag.Snippets | backend/rag_pipeline.py:88 | exactly the snippets of matches that have one |
| Rag.SnippetsSnoc | backend/rag_pipeline.py:88 | the snippets are taken in match order: no matches give nothing, and one more match at the end adds its snippet exactly when it has one |
| Rag.CleanAll | backend/rag_pipeline.py:88 | each snippet is cleaned, in order |
| Rag.ContextPartsSound | backend/rag_pipeline.py:88-89 | every context part is a non-empty cleaned snippet of some match |
| Rag.ContextPartsComplete | backend/rag_pipeline.py:88-89 | every match whose snippet cleans to non-empty text contributes a part |
| Rag.ContextPartsSnoc | backend/rag_pipeline.py:88-89 | the context parts follow match order: no matches give no parts, and one more match at the end adds its cleaned snippet exactly when it has a snippet that does not clean to blank text |
| Rag.ContextEmpty | backend/rag_pipeline.py:89 | the context is empty exactly when no snippet cleans to non-empty text |
| Rag.IngestionQueriesSpec | backend/rag_pipeline.py:54-58 | at most the first 10 expanded tags are uploaded, in order |
| Rag.Route | backend/rag_pipeline.py:119-132 | `exit`/`quit`/`q` in any case stop; an image suffix in any case takes the caption path; anything else is the query |
| Rag.RouteIgnoresCase | backend/rag_pipeline.py:119-123 | routing does not depend on case |
| VectorUpsert.VectorId | upsert_to_pinecone.py:59 | the id starts with `<arxiv_id>_chunk` |
| VectorUpsert.VectorIdsDiffer | upsert_to_pinecone.py:55-59 | ids with different indices differ, whatever the arXiv ids |
| VectorUpsert.BuildEntries | upsert_to_pinecone.py:54-69 | one entry per chunk, in order, numbered from 1; the copy at ingestion_preprocess_upsert.py:178-193 is the same loop |
| VectorUpsert.EntriesSpec | upsert_to_pinecone.py:55-68 | entry ids are pairwise distinct, chunk_index is the 1-based position, and the snippet is a prefix of the text of at most 300 characters |
| VectorUpsert.EntryVectors | upsert_to_pinecone.py:76-82 | one vector per entry, carrying its id and metadata |
| VectorUpsert.ChunkVectors | backend/pinecone_ingestion.py:48-60 | one vector per chunk, in order |
| VectorUpsert.FlattenEntryVectors | upsert_to_pinecone.py:72-84 | the vectors of all batches, concatenated, are the vectors of all entries |
| VectorUpsert.FlattenChunkVectors | backend/pinecone_ingestion.py:44-61 | the same for chunks |
| VectorUpsert.UpsertEntries | upsert_to_pinecone.py:72-84 | one upsert per batch of at most 64 entries, in order, holding that batch's vectors; the copy at ingestion_preprocess_upsert.py:196-207 is the same loop |
| VectorUpsert.UpsertedOnce | upsert_to_pinecone.py:72-84 | across all upserts every entry's vector is sent exactly once, in order |
| VectorUpsert.UpsertScript | upsert_to_pinecone.py:17-84 | a missing or empty key stops first; an empty chunk list stops next where the script guards it; otherwise every batch is upserted; the copy at ingestion_preprocess_upsert.py:155-209 has the same steps without the empty-list guard |
| VectorUpsert.IngestChunks | backend/pinecone_ingestion.py:21-72 | no chunks means no effect; otherwise one upsert per batch of 64, then one marking of the paper ids |
| VectorUpsert.UpsertChunkBatches | backend/pinecone_ingestion.py:44-61 | the batch loop makes one upsert per batch, in order, carrying that batch's chunk vectors |
| VectorUpsert.IngestOrder | backend/pinecone_ingestion.py:44-70 | marking comes only after every upsert; the upserted vectors are all the chunk vectors in order, with ids `<arxiv_id>_chunk<chunk_index>` |
| Lists.Batches | ingestion_preprocess_upsert.py:171-173 | batches are non-empty, at most n long, all but the last exactly n, ceil(len/n) of them, and concatenate to the input; the copies at backend/pinecone_ingestion.py:38-40 and upsert_to_pinecone.py:47-49 are the same generator |
| Sorting.SortSorted | frontend/src/components/contexts/ChatContext.tsx:75-78 | sorting by a total preorder gives a sorted permutation |
| Sorting.SortStable | frontend/src/components/contexts/ChatContext.tsx:75-78 | stability: any elements that all compare as ordered among themselves come out in their input order |
| Sorting.SortKeepsTies | frontend/src/components/contexts/ChatContext.tsx:75-78 | under a transitive comparator, the elements tied with any given one (ordered both ways) keep their input order |
| Text.SplitJoin | frontend/src/components/contexts/ChatContext.tsx:261 | splitting on a separator and joining with it gives back the text |
| Text.TrimSpec | frontend/src/components/CreateFolderModal.tsx:20 | the trimmed name has no white space at either end, and it is empty exactly when the input is all white space |

## Left out

- Network, database, file system, embeddings and language-model calls (axios/fetch, requests, MongoDB/GridFS, Pinecone, SentenceTransformer, OpenRouter, BLIP) are left out. Their results are parameters of the model.
- The float relevance scores and the low-relevance re-query in backend/rag_pipeline.py:63-85 are left out. Only the context assembly and the tag cap are modelled.
- The markdown renderer and sanitiser (`marked`, DOMPurify) are left out. `formatMessageFromAI` is an abstract function, and only its empty-input case is stated.
- `JSON.parse` is left out. It is an abstract function whose result is a thrown error, `null`, or a value whose `delta` is missing (appends `"undefined"`), a string, or another value carried as the text `+=` appends for it.
- Asynchronous interleaving is left out. `requestAnimationFrame`, the two-second reply timer and React's batching of updates are each modelled as one atomic step taken when scheduled.
- `Date.now`, `new Date()`, `Math.random` and `Intl.RelativeTimeFormat` are parameters. Timestamps are integers, so invalid dates (NaN) are not modelled.
- AssistantUI.PinnedViewSpec, AssistantUI.RecentViewSpec: the views sort with `a.updatedAt < b.updatedAt ? 1 : -1`, which answers -1 for equal keys in both orders. That comparator is inconsistent, so ECMAScript leaves the order of conversations with equal `updatedAt` implementation-defined. The model's stable insertion sort fixes one such order. The store's `recent` compares consistently, and there the stable order is the one ECMAScript 2019 and later require.
- Strings are sequences of characters. UTF-16 code units, `TextDecoder` boundaries inside a multi-byte character, and Unicode case folding are not modelled. Lower-casing (JavaScript's `toLowerCase`, Python's `str.lower`) and Python's `\w` and `\d` are modelled as ASCII; Python's own are Unicode on `str`. Python's `\s`, `str.split()` and `str.strip()` use the full `str.isspace` set.
- Chunking.SplitIntoChunks: for non-empty text the model requires `0 < chunk_size` and `overlap < chunk_size`. Python never terminates when the step is not positive, and slices from the end with a negative size.
- `refreshConversations` (ChatContext.tsx:90-133), the initial load that sorts and selects the newest chat, is left out. Only its `_id`-to-`id` remapping is modelled, through `ChatTypes`.
- Sidebar's `handleEditTemplate` only records the template being edited; it appears as the `editing` field of the sidebar state. The `Template` type is taken from its use (`id`, `name`, `content`, `updatedAt`).
- StreamProtocol.Refreshes: for an array delta with an element equal to `"\n"`, the source's `includes("\n")` is true and it refreshes. The model refreshes a non-string delta only on every fifth token, as for numbers, booleans and objects, where `includes` throws.
- AssistantUI.FolderCounts: the source builds its map with `Object.fromEntries`, so it inherits `Object.prototype`. A conversation filed under a name that is not a folder but is an inherited property (`constructor`, `toString`, …) passes the `!= null` test, and `+= 1` adds a key holding a string. The model skips it like any other unknown folder.
- Sidebar.ByFolderMatchesCount, Sidebar.MoveFolderCounts: a folder literally named `"null"` is not covered. JavaScript object keys make folderless conversations count toward it, so both lemmas require another name.
- ChatStore.ChatContext.SendMessage: the request bodies (`{content, role: "user"}` for the save, the content passed to `streamAIResponse`) are not modelled. The server's saved documents and the streamed chunks are parameters, so `content` only names the argument the source receives.
- `createNewChat` closing the sidebar, and the other UI-only flags (modals, editing state), are left out.
- Pubmed.PdfPathOf: the path is set once the response qualifies. A failing file write after that point is not modelled, and the `Content-Type` lookup is an exact comparison of the header's value.
- Only the routing of each input in rag_pipeline's console loop is modelled. The loop itself and the captioning are left out.
- Rag.RemoveCitations: removing a citation can bring characters together into a new citation. Python's single pass does not remove it, and neither does the model. Removal is proved for a citation preceded by text without `[`, not for every position.
- Arxiv.UploadToMongo: an exception on download or insert is a `None` from the `store` parameter. The database's unique index on `arxiv_id` is modelled as the `known` set.
