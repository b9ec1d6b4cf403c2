// The records of the chat front end: a message, a conversation and a folder
// (frontend/src/interfaces/interface.ts), and the conversation document the
// CRUD API returns, whose primary key `_id` the client copies into `id`.
module ChatTypes {
  import opened Wrappers

  datatype Role = User | Assistant

  /** A message; `messageId` is the document's `_id`, or `streaming-<ts>` for the
      placeholder of a reply that is still streaming. */
  datatype Message = Message(
    messageId: string,
    role: Role,
    content: string,
    createdAt: Option<string>,
    updatedAt: Option<string>)

  datatype Conversation = Conversation(
    id: string,
    title: string,
    updatedAt: string,
    messageCount: int,
    preview: string,
    pinned: bool,
    messages: seq<Message>)

  /** A folder holds its own copies ("mirrors") of conversations. */
  datatype Folder = Folder(id: string, name: string, conversations: seq<Conversation>)

  /** A conversation as the CRUD API returns it, keyed by the server's `_id`. */
  datatype ServerConversation = ServerConversation(
    serverId: string,
    title: string,
    updatedAt: string,
    messageCount: int,
    preview: string,
    pinned: bool,
    messages: seq<Message>)

  /** A folder as the CRUD API returns it: its own `_id` and those of its conversations. */
  datatype ServerFolder = ServerFolder(serverId: string, name: string, conversations: seq<ServerConversation>)

  /** `{ ...doc, id: doc._id }`: the server document under the client's key. */
  function FromServer(doc: ServerConversation): (c: Conversation)
    ensures c.id == doc.serverId && c.messages == doc.messages && c.pinned == doc.pinned
  {
    Conversation(doc.serverId, doc.title, doc.updatedAt, doc.messageCount, doc.preview, doc.pinned, doc.messages)
  }

  /** A folder document with its own key and every conversation's key remapped. */
  function FolderFromServer(doc: ServerFolder): (f: Folder)
    ensures f.id == doc.serverId && f.name == doc.name
    ensures |f.conversations| == |doc.conversations|
    ensures forall i :: 0 <= i < |f.conversations| ==> f.conversations[i] == FromServer(doc.conversations[i])
  {
    Folder(doc.serverId, doc.name, seq(|doc.conversations|, i requires 0 <= i < |doc.conversations| => FromServer(doc.conversations[i])))
  }
}
