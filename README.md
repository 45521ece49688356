# Chat store and response relay of the Perfect AI Assistant

The application is a single-page chat front end. It keeps conversations in a
SQLite database of two tables, `chats` and `messages`. It sends each
conversation, headed by a system prompt, to a streaming chat-completion
provider and stores the reply it folds from the stream. This project models
the logic below the page layout:

- `sequences.dfy` (module `Sequences`): generic filtering (a SQL `WHERE`),
  reversal (`ORDER BY ... DESC`), joining of text fragments and strict ordering
  by a key, with their lemmas.
- `chat_store.dfy` (module `ChatStore`): the class `Store`, the two tables held
  in memory. It has the `sqlite_sequence` counters that AUTOINCREMENT draws ids
  from, and a logical clock for `CURRENT_TIMESTAMP`. Its methods are
  `create_new_chat`, `get_all_chats`, `delete_chat`, `save_message` and
  `load_messages`, each as one atomic step.
- `relay.dfy` (module `Relay`): `stream_chat_response` as pure functions. They
  cover the request with the system message in front, the fragments yielded
  from the provider's chunks, and the single `""` yielded when the provider
  raises. The chunks the provider delivers are an input value.
- `session.dfy` (module `ChatSession`): the class `Session`, the session
  state (`current_chat_id`, `messages`, `system_prompt`). It covers which chat
  is current at startup, after "New Chat", after picking a chat and after a
  delete. It also covers one turn: save the prompt, build the request, join the
  fragments, and save a non-empty reply.

Two points where the model follows the code rather than the design prose:

- When the provider fails part-way through a stream, the generator yields
  `""` after the fragments it already yielded. The turn's accumulated text is
  then non-empty, so the partial reply is saved as an assistant message
  (app.py:159-167, 364, 371-373). Only a failure before any text leaves no
  assistant message.
- `save_message` does not check that the chat exists. SQLite leaves foreign
  keys off unless a connection turns them on, so `Store.SaveMessage` inserts
  the row whatever the chat id. The invariant that every message belongs to an
  existing chat (`Store.Consistent`) holds because of how the session uses the
  store, and `Session.Valid` carries it.

## Model

| member | source | states |
|---|---|---|
| ChatStore.Store.constructor | app.py:24-42 | a new database has empty tables, counters at zero, and meets every table invariant |
| ChatStore.Store.CreateNewChat | app.py:47-59 | the returned id is one above the last id ever issued, so it was never used, deleted chats included; the chat is appended with the current clock; messages and every existing chat are unchanged; integrity and order invariants are kept |
| ChatStore.NewestFirst | app.py:66 | the listing holds exactly the chats, one entry per row, and for a table kept in ascending `created_at` order its `created_at` strictly decreases |
| ChatStore.Store.GetAllChats | app.py:61-70 | the listing holds exactly the existing chats, with strictly decreasing `created_at`; its first entry is no older than any chat |
| ChatStore.NewestFirstIsTheOrdering | app.py:66 | any sequence holding exactly the chats in strictly decreasing `created_at` order is the listing: `ORDER BY created_at DESC` has one answer |
| ChatStore.Store.DeleteChat | app.py:72-81 | the messages of chat `c` and chat `c` are removed, every other row stays in order, counters and clock are unchanged, and integrity is kept |
| ChatStore.DeleteIdempotent | app.py:77-78 | deleting twice equals deleting once, and deleting an id no row has changes neither table |
| ChatStore.ReferencesAfterDelete | app.py:77-78 | the cascade leaves every remaining message pointing at a remaining chat |
| ChatStore.LoadAfterDelete | app.py:77-78 | after deleting chat `d`, `d` loads nothing and every other chat loads what it did before |
| ChatStore.Store.SaveMessage | app.py:83-94 | the row is appended with a fresh id and the current clock; the chats table is unchanged; integrity is kept when the chat exists |
| ChatStore.LoadAfterInsert | app.py:88-108 | after inserting a row, its chat's load is the old load followed by `{role, content}`, and every other chat's load is unchanged |
| ChatStore.LoadAfterInserts | app.py:88-108 | inserting several rows of chat `c` extends its load by exactly their `{role, content}`, in order |
| ChatStore.Store.SelectMessages | app.py:101-104 | the selected rows are exactly the messages with that chat id, in strictly increasing timestamp order |
| ChatStore.Store.LoadMessages | app.py:96-108 | `load_messages(c)`: the `{role, content}` of chat `c`'s rows in table order; what that means is stated by `LoadIsOrderedSelection`, `LoadAfterInsert`, `LoadAfterDelete` and `LoadUnknownChat` |
| ChatStore.Store.LoadIsOrderedSelection | app.py:101-108 | the load is the `{role, content}` projection of the one timestamp-ordered sequence of the chat's rows |
| ChatStore.Project | app.py:108 | one `{role, content}` per row, position by position |
| ChatStore.ProjectAppend | app.py:108 | the projection distributes over concatenation |
| ChatStore.Store.LoadUnknownChat | app.py:96-108 | in a consistent store an id with no chat loads nothing |
| Relay.BuildRequest | app.py:149 | the request is one longer than the history, element 0 is the system message with the prompt, and the rest is the history unchanged |
| Relay.ChunkText | app.py:160-162 | a chunk gives text exactly when it has a choice whose delta content is present and non-empty, and that text is the first choice's content |
| Relay.Fragments | app.py:159-163 | at most one fragment per chunk, and every fragment yielded is non-empty |
| Relay.StreamChatResponse | app.py:159-167 | the only empty element yielded is one final `""`, present exactly when the provider raised, after the fragments already yielded |
| Relay.FragmentsAppend | app.py:159-163 | the fragments of a longer stream extend those of its prefix |
| Relay.JoinFragments | app.py:159-163 | skipping chunks without text loses none: the joined fragments are the text of all chunks |
| Relay.ReplyText | app.py:159-167 | the joined output, failure marker included, is the text of the chunks received |
| Relay.TranscriptEmpty | app.py:159-163 | the text of the chunks is empty exactly when no chunk carries text |
| Relay.ReplyEmpty | app.py:159-167 | the joined output is empty exactly when no fragment was yielded |
| Relay.SingleChunkTranscript | app.py:159-163 | a single chunk carrying a text gives exactly that text |
| Relay.HelloTranscript | app.py:159-163 | chunks "Hi", " there", a chunk without choices and "!" give "Hi there!" from three fragments |
| ChatSession.Accumulate | app.py:354-364 | the `full_response += chunk` loop ends with the join of all fragments |
| ChatSession.NothingLoadsForNewId | app.py:212-215 | an id above every chat id loads nothing from a consistent table, so a new chat's empty transcript is its load |
| ChatSession.NoChatsNoMessages | app.py:248-254 | in a consistent store with no chat left, no message is left |
| ChatSession.LoadedRoles | app.py:342 | a table holding only user and assistant rows loads no system message |
| ChatSession.SystemMessageOnlyFirst | app.py:149 | when the history has no system message, the request's only system message is at index 0 |
| ChatSession.Session.Start | app.py:194-205 | the newest chat becomes current with its messages loaded and the store unchanged, or, on an empty database, a chat with the next id is created (issued ids grow by exactly that id, the clock ticks once) and the transcript is empty; message counters are untouched; the prompt is the default |
| ChatSession.Session.OpenNewest | app.py:195-199 | startup and delete pick the chat the same way: the newest chat with tables, counters, clock and issued ids unchanged, or a chat created with the next id, which alone joins the issued ids |
| ChatSession.Session.NewChat | app.py:212-216 | a chat with the next, never-used id is appended and becomes current; the issued chat ids grow by exactly that id and the clock ticks once; the transcript is empty; messages and message counters are unchanged |
| ChatSession.Session.SelectChat | app.py:238-239 | the picked chat becomes current and the transcript is its load; the store is not modified |
| ChatSession.Session.DeleteChat | app.py:245-254 | the chat and its messages are gone and message counters stay; the newest remaining chat is current with its load and chat counter, clock and issued chat ids unchanged, or, when none remains, a new chat with the next id, the only id added to the issued ones, and no messages |
| ChatSession.Session.Record | app.py:341-342 | the message is appended to the transcript and saved to the current chat with the next id, which alone joins the issued message ids; the clock ticks once and chats are unchanged |
| ChatSession.Session.SubmitPrompt | app.py:341-342 | the user message is appended to the transcript and saved to the current chat with the next id, before anything else happens; nothing else in the store changes |
| ChatSession.Session.FinishReply | app.py:371-375 | a non-empty reply is appended and saved as an assistant message with the next id; an empty one changes neither the transcript nor the store |
| ChatSession.Session.Turn | app.py:340-375 | the request is the system message, then the transcript with the new user message; the reply is the text of the chunks received; the store gains the user row and, exactly when the reply is non-empty, the assistant row, with the message counter, clock and issued message ids advanced by that many; chats and chat ids are unchanged; the transcript stays equal to the current chat's load |
| ChatSession.NoIdReuseAfterDelete | app.py:26 | through the session, a chat created after deleting another never gets the deleted chat's id back |
| ChatSession.StreamedTurnExample | app.py:194-199 | a first chat gets id 1, and a streamed "Hi there!" is stored after "hello" |
| ChatSession.PartialReplyExample | app.py:159-167 | a reply cut short by a failure keeps and saves the text received before it |
| ChatSession.FailedTurnExample | app.py:165-167 | a failure before any text stores only the user message |
| ChatSession.DeleteOnlyChatExample | app.py:245-254 | deleting the only chat leaves nothing under its id and opens chat 2 with an empty transcript |

## Left out

- The page itself: page configuration, CSS, sidebar layout, buttons, reruns, placeholders and the typing cursor, and `st.error`, `st.warning`, `st.info` and `st.stop` messages (app.py:170-188, 207-328, 344-379). Each session method is the state change of one button press or one submitted prompt.
- The SQLite connection, commit and close, and `CREATE TABLE IF NOT EXISTS` (app.py:18-45). The tables are in-memory sequences, and each store function is one atomic step.
- Storage faults: a failing connection or statement is not modelled.
- The provider client, the environment-variable checks and the network call (app.py:110-143, 151-157, 333-338). These are I/O. The provider's reply is an input: the chunks it delivered and whether it raised afterwards. A configuration error ends the script after the user message is saved (app.py:349); that case is not modelled.
- `temperature` and `max_tokens` (app.py:155-156): they are only passed on to the provider.
- The wall clock and the formatted chat name (app.py:28, 39, 52). The name is a parameter, and a logical clock ticks once per INSERT. Because of that, timestamps and creation times are distinct and follow insertion order. SQLite can give two rows the same one-second timestamp and then leave their order unspecified. Resolving ties by insertion order is a modelling assumption.
- The template selectbox and the commented-out template code (app.py:268-315): they have no effect, and the system prompt is always the default.
- The outer `except` around the turn (app.py:377-379). `stream_chat_response` already catches provider failures, so what reaches this handler is a storage fault in `save_message` (app.py:373). That save happens after the in-memory append (app.py:372), which would leave the transcript one message ahead of the store. Storage faults are not modelled (see above).
- Ids grow without bound. SQLite's 64-bit rowid limit is not modelled.
- ChatSession.Session.Start: it requires a database this application wrote. That means ordered tables, every message belonging to an existing chat, and no system-role rows. A database edited from outside may break these.
- ChatStore.Store.LoadMessages: it carries no contract of its own, because a contract on it is re-proved at every session step that reads the transcript. Its meaning is stated by `LoadIsOrderedSelection`, `LoadAfterInsert`, `LoadAfterDelete` and `LoadUnknownChat`.
