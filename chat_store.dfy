/** The two SQLite tables of the chat application, `chats` and `messages`,
    held in memory. Each public method of `Store` is one of the application's
    store functions and is one atomic step. Rows are kept in insertion order;
    a logical clock stands for CURRENT_TIMESTAMP and ticks once per INSERT, so
    insertion order and timestamp order agree. */
module ChatStore {
  import opened Sequences

  /** The text in a message's `role` column. The store accepts any role; the
      application writes only `User` and `Assistant`, and `System` exists only
      in the requests sent to the provider. */
  datatype Role = System | User | Assistant

  /** A `{"role": ..., "content": ...}` dictionary. */
  datatype Message = Message(role: Role, content: string)

  /** A row of `chats(id, name, created_at)`. */
  datatype ChatRow = ChatRow(id: int, name: string, createdAt: nat)

  /** A row of `messages(id, chat_id, role, content, timestamp)`. */
  datatype MessageRow = MessageRow(id: int, chatId: int, role: Role, content: string, timestamp: nat)

  function ChatIdOf(row: ChatRow): int { row.id }
  function CreatedAtOf(row: ChatRow): int { row.createdAt }
  function MessageIdOf(row: MessageRow): int { row.id }
  function TimestampOf(row: MessageRow): int { row.timestamp }

  /** `WHERE chat_id = c` */
  function InChat(c: int): MessageRow -> bool { (m: MessageRow) => m.chatId == c }

  /** `DELETE FROM messages WHERE chat_id = c` keeps the rows this accepts. */
  function NotInChat(c: int): MessageRow -> bool { (m: MessageRow) => m.chatId != c }

  /** `DELETE FROM chats WHERE id = c` keeps the rows this accepts. */
  function NotChat(c: int): ChatRow -> bool { (row: ChatRow) => row.id != c }

  /** The message rows of chat `c`, in table order. */
  function RowsOf(rows: seq<MessageRow>, c: int): seq<MessageRow>
  {
    Filter(rows, InChat(c))
  }

  /** The `{role, content}` of each row, in the same order. */
  function Project(rows: seq<MessageRow>): (r: seq<Message>)
    ensures |r| == |rows|
    ensures forall i :: 0 <= i < |rows| ==> r[i].role == rows[i].role && r[i].content == rows[i].content
  {
    if rows == [] then [] else [Message(rows[0].role, rows[0].content)] + Project(rows[1..])
  }

  /** Projection distributes over concatenation. */
  lemma {:induction false} ProjectAppend(a: seq<MessageRow>, b: seq<MessageRow>)
    ensures Project(a + b) == Project(a) + Project(b)
  {
    if a == [] {
      assert a + b == b;
    } else {
      assert (a + b)[0] == a[0];
      assert (a + b)[1..] == a[1..] + b;
      ProjectAppend(a[1..], b);
    }
  }

  /** What `load_messages(c)` returns on a messages table holding `rows`. */
  function LoadFrom(rows: seq<MessageRow>, c: int): seq<Message>
  {
    Project(RowsOf(rows, c))
  }

  /** Inserting one row adds its `{role, content}` to the end of its own chat's
      load and leaves every other chat's load as it was. */
  lemma LoadAfterInsert(rows: seq<MessageRow>, row: MessageRow, c: int)
    ensures LoadFrom(rows + [row], c) ==
            LoadFrom(rows, c) + (if row.chatId == c then [Message(row.role, row.content)] else [])
  {
    FilterAppend(rows, [row], InChat(c));
    ProjectAppend(RowsOf(rows, c), RowsOf([row], c));
    assert [row][1..] == [];
  }

  /** Inserting any number of rows for chat `c` and loading it back gives the
      old load followed by exactly those messages, in order. */
  lemma {:induction false} LoadAfterInserts(rows: seq<MessageRow>, added: seq<MessageRow>, c: int)
    requires forall m :: m in added ==> m.chatId == c
    ensures LoadFrom(rows + added, c) == LoadFrom(rows, c) + Project(added)
  {
    FilterAppend(rows, added, InChat(c));
    FilterKeepsAll(added, InChat(c));
    ProjectAppend(RowsOf(rows, c), added);
  }

  /** After the cascade delete of chat `d`, chat `d` loads nothing and every
      other chat loads what it loaded before. */
  lemma LoadAfterDelete(rows: seq<MessageRow>, d: int, c: int)
    ensures LoadFrom(Filter(rows, NotInChat(d)), c) == if c == d then [] else LoadFrom(rows, c)
  {
    if c == d {
      FilterKeepsNone(Filter(rows, NotInChat(d)), InChat(c));
    } else {
      FilterThenStronger(rows, NotInChat(d), InChat(c));
    }
  }

  /** Deleting rows twice has the same effect as deleting them once, and
      deleting an id no row has changes nothing. */
  lemma DeleteIdempotent(chats: seq<ChatRow>, rows: seq<MessageRow>, c: int)
    ensures Filter(Filter(chats, NotChat(c)), NotChat(c)) == Filter(chats, NotChat(c))
    ensures Filter(Filter(rows, NotInChat(c)), NotInChat(c)) == Filter(rows, NotInChat(c))
    ensures (forall row :: row in chats ==> row.id != c) ==> Filter(chats, NotChat(c)) == chats
    ensures (forall m :: m in rows ==> m.chatId != c) ==> Filter(rows, NotInChat(c)) == rows
  {
    FilterThenStronger(chats, NotChat(c), NotChat(c));
    FilterThenStronger(rows, NotInChat(c), NotInChat(c));
    if forall row :: row in chats ==> row.id != c {
      FilterKeepsAll(chats, NotChat(c));
    }
    if forall m :: m in rows ==> m.chatId != c {
      FilterKeepsAll(rows, NotInChat(c));
    }
  }

  /** Whether some row of `chats` has id `id`. */
  ghost predicate ChatExists(chats: seq<ChatRow>, id: int)
  {
    exists row :: row in chats && row.id == id
  }

  /** Every message row refers to an existing chat row. */
  ghost predicate References(chats: seq<ChatRow>, rows: seq<MessageRow>)
  {
    forall m :: m in rows ==> ChatExists(chats, m.chatId)
  }

  /** The cascade delete keeps every remaining message pointing at a remaining chat. */
  lemma ReferencesAfterDelete(chats: seq<ChatRow>, rows: seq<MessageRow>, c: int)
    requires References(chats, rows)
    ensures References(Filter(chats, NotChat(c)), Filter(rows, NotInChat(c)))
  {
    FilterMembers(chats, NotChat(c));
    FilterMembers(rows, NotInChat(c));
    forall m | m in Filter(rows, NotInChat(c)) ensures ChatExists(Filter(chats, NotChat(c)), m.chatId) {
      var row :| row in chats && row.id == m.chatId;
      assert row in Filter(chats, NotChat(c));
    }
  }

  /** `SELECT ... FROM chats ORDER BY created_at DESC`, for a table whose rows
      are in ascending `created_at` order. */
  function NewestFirst(chats: seq<ChatRow>): (r: seq<ChatRow>)
    ensures |r| == |chats|
    ensures forall row :: row in r <==> row in chats
    ensures IncreasingBy(chats, CreatedAtOf) ==>
              forall i, j :: 0 <= i < j < |r| ==> r[i].createdAt > r[j].createdAt
  {
    var r := Reversed(chats);
    assert forall row :: row in chats ==> row in r by {
      forall row | row in chats ensures row in r {
        var i :| 0 <= i < |chats| && chats[i] == row;
        assert r[|chats| - 1 - i] == row;
      }
    }
    r
  }

  /** The newest-first listing holds exactly the chats, with strictly
      decreasing `created_at`; it is the only sequence with both properties. */
  lemma {:induction false} NewestFirstIsTheOrdering(chats: seq<ChatRow>, listing: seq<ChatRow>)
    requires IncreasingBy(chats, CreatedAtOf)
    requires forall row :: row in listing <==> row in chats
    requires forall i, j :: 0 <= i < j < |listing| ==> listing[i].createdAt > listing[j].createdAt
    ensures listing == NewestFirst(chats)
  {
    var r := NewestFirst(chats);
    IncreasingUnique(listing, r, (row: ChatRow) => -(row.createdAt as int));
  }

  class Store {
    /** The `chats` table, in insertion order. */
    var chats: seq<ChatRow>
    /** The `messages` table, in insertion order. */
    var messages: seq<MessageRow>
    /** The `sqlite_sequence` entries: the largest id each table has ever issued. */
    var lastChatId: nat
    var lastMessageId: nat
    /** The logical clock standing for `CURRENT_TIMESTAMP`. */
    var clock: nat
    /** Every id either table has ever issued, deleted rows included. */
    ghost var issuedChatIds: set<int>
    ghost var issuedMessageIds: set<int>

    ghost predicate Valid()
      reads this
    {
      && IncreasingBy(chats, ChatIdOf)
      && IncreasingBy(chats, CreatedAtOf)
      && (forall row :: row in chats ==> row.id in issuedChatIds && row.createdAt < clock)
      && (forall id :: id in issuedChatIds ==> 1 <= id <= lastChatId)
      && IncreasingBy(messages, MessageIdOf)
      && IncreasingBy(messages, TimestampOf)
      && (forall m :: m in messages ==> m.id in issuedMessageIds && m.timestamp < clock)
      && (forall id :: id in issuedMessageIds ==> 1 <= id <= lastMessageId)
    }

    /** Whether the `chats` table has a row with this id. */
    ghost predicate HasChat(id: int)
      reads this
    {
      ChatExists(chats, id)
    }

    /** Every message belongs to a chat that still exists: the referential
        integrity the cascade delete is there to keep. SQLite does not enforce
        it on insert here (foreign keys are off by default), so it is a
        property of how the application uses the store. */
    ghost predicate Consistent()
      reads this
    {
      References(chats, messages)
    }

    /** Only user and assistant turns are persisted. */
    ghost predicate StoresOnlyTurns()
      reads this
    {
      forall m :: m in messages ==> m.role != System
    }

    /** A freshly created, empty database. */
    constructor ()
      ensures Valid() && Consistent() && StoresOnlyTurns()
      ensures chats == [] && messages == [] && lastChatId == 0 && lastMessageId == 0 && clock == 0
      ensures issuedChatIds == {} && issuedMessageIds == {}
    {
      chats, messages := [], [];
      lastChatId, lastMessageId, clock := 0, 0, 0;
      issuedChatIds, issuedMessageIds := {}, {};
    }

    /** `create_new_chat`: insert a chat named `name` and return its id. */
    method CreateNewChat(name: string) returns (id: int)
      requires Valid()
      modifies this
      ensures Valid()
      ensures id == old(lastChatId) + 1 && lastChatId == id
      ensures id !in old(issuedChatIds) && issuedChatIds == old(issuedChatIds) + {id}
      ensures clock == old(clock) + 1 && lastMessageId == old(lastMessageId)
      ensures forall row :: row in old(chats) ==> row.id < id
      ensures chats == old(chats) + [ChatRow(id, name, old(clock))]
      ensures messages == old(messages) && issuedMessageIds == old(issuedMessageIds)
      ensures HasChat(id)
      ensures old(Consistent()) ==> Consistent()
      ensures old(StoresOnlyTurns()) ==> StoresOnlyTurns()
    {
      id := lastChatId + 1;
      var row := ChatRow(id, name, clock);
      IncreasingAppend(chats, row, ChatIdOf);
      IncreasingAppend(chats, row, CreatedAtOf);
      chats := chats + [row];
      lastChatId := id;
      clock := clock + 1;
      issuedChatIds := issuedChatIds + {id};
      assert row in chats;
    }

    /** `get_all_chats`: every chat, newest first. */
    function GetAllChats(): (r: seq<ChatRow>)
      reads this
      requires Valid()
      ensures |r| == |chats|
      ensures forall row :: row in r <==> row in chats
      ensures forall i, j :: 0 <= i < j < |r| ==> r[i].createdAt > r[j].createdAt
      ensures r != [] ==> forall row :: row in chats ==> row.createdAt <= r[0].createdAt
    {
      var r := NewestFirst(chats);
      assert r != [] ==> r[0] in r;
      r
    }

    /** `delete_chat(c)`: remove the messages of chat `c`, then chat `c`.
        What this does to each chat's `load_messages` is `LoadAfterDelete`. */
    method DeleteChat(c: int)
      requires Valid()
      modifies this
      ensures Valid()
      ensures messages == Filter(old(messages), NotInChat(c))
      ensures chats == Filter(old(chats), NotChat(c))
      ensures forall m :: m in messages <==> m in old(messages) && m.chatId != c
      ensures forall row :: row in chats <==> row in old(chats) && row.id != c
      ensures lastChatId == old(lastChatId) && lastMessageId == old(lastMessageId) && clock == old(clock)
      ensures issuedChatIds == old(issuedChatIds) && issuedMessageIds == old(issuedMessageIds)
      ensures old(Consistent()) ==> Consistent()
      ensures old(StoresOnlyTurns()) ==> StoresOnlyTurns()
    {
      if Consistent() {
        ReferencesAfterDelete(chats, messages, c);
      }
      FilterMembers(messages, NotInChat(c));
      FilterMembers(chats, NotChat(c));
      FilterIncreasing(messages, NotInChat(c), MessageIdOf);
      FilterIncreasing(messages, NotInChat(c), TimestampOf);
      messages := Filter(messages, NotInChat(c));
      FilterIncreasing(chats, NotChat(c), ChatIdOf);
      FilterIncreasing(chats, NotChat(c), CreatedAtOf);
      chats := Filter(chats, NotChat(c));
    }

    /** `save_message(chatId, role, content)`: insert one message row. The
        chat id is not checked against `chats`. What this does to each chat's
        `load_messages` is `LoadAfterInsert`. */
    method SaveMessage(chatId: int, role: Role, content: string)
      requires Valid()
      modifies this
      ensures Valid()
      ensures messages == old(messages) + [MessageRow(old(lastMessageId) + 1, chatId, role, content, old(clock))]
      ensures old(lastMessageId) + 1 !in old(issuedMessageIds)
      ensures issuedMessageIds == old(issuedMessageIds) + {old(lastMessageId) + 1}
      ensures lastMessageId == old(lastMessageId) + 1 && clock == old(clock) + 1
      ensures chats == old(chats) && lastChatId == old(lastChatId) && issuedChatIds == old(issuedChatIds)
      ensures old(Consistent()) && HasChat(chatId) ==> Consistent()
      ensures old(StoresOnlyTurns()) && role != System ==> StoresOnlyTurns()
    {
      var row := MessageRow(lastMessageId + 1, chatId, role, content, clock);
      IncreasingAppend(messages, row, MessageIdOf);
      IncreasingAppend(messages, row, TimestampOf);
      messages := messages + [row];
      lastMessageId := lastMessageId + 1;
      clock := clock + 1;
      issuedMessageIds := issuedMessageIds + {row.id};
    }

    /** The rows `SELECT ... FROM messages WHERE chat_id = c ORDER BY timestamp`
        returns: exactly the rows of chat `c`, in increasing timestamp order. */
    function SelectMessages(c: int): (rows: seq<MessageRow>)
      reads this
      requires Valid()
      ensures forall m :: m in rows <==> m in messages && m.chatId == c
      ensures IncreasingBy(rows, TimestampOf)
    {
      FilterMembers(messages, InChat(c));
      FilterIncreasing(messages, InChat(c), TimestampOf);
      RowsOf(messages, c)
    }

    /** `load_messages(c)`: the `{role, content}` of each selected row, in order. */
    function LoadMessages(c: int): (r: seq<Message>)
      reads this
      requires Valid()
    {
      LoadFrom(messages, c)
    }

    /** `load_messages(c)` is the projection of the one sequence that holds
        exactly chat `c`'s rows in strictly increasing timestamp order. */
    lemma LoadIsOrderedSelection(c: int, selected: seq<MessageRow>)
      requires Valid()
      requires forall m :: m in selected <==> m in messages && m.chatId == c
      requires IncreasingBy(selected, TimestampOf)
      ensures LoadMessages(c) == Project(selected)
    {
      var rows := SelectMessages(c);
      IncreasingUnique(selected, rows, TimestampOf);
    }

    /** A chat id with no row in a consistent store loads no messages. */
    lemma LoadUnknownChat(c: int)
      requires Valid() && Consistent() && !HasChat(c)
      ensures LoadMessages(c) == []
    {
      FilterKeepsNone(messages, InChat(c));
    }
  }
}
