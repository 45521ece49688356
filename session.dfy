/** The application's session state and the logic that drives the store and
    the relay: which chat is current at startup, after "New Chat", after a
    chat is picked and after a delete, and one conversational turn. The page
    layout, buttons and reruns around this logic are not modelled; each
    method is the state change one button press or one submitted prompt
    makes. */
module ChatSession {
  import opened Sequences
  import opened ChatStore
  import opened Relay

  /** The system prompt every session starts with and, since nothing in the
      application changes it, keeps. */
  const DefaultSystemPrompt: string :=
    "You are a helpful, friendly, and knowledgeable AI assistant. You provide accurate,\n"
    + "thoughtful, and well-structured responses to user questions across various topics. You are patient, professional,\n"
    + "and always aim to give clear explanations. When you don't know something, you honestly admit it rather than\n"
    + "making up information."

  /** The chat with id `id` exists and no chat was created after it. */
  ghost predicate IsNewest(chats: seq<ChatRow>, id: int)
  {
    exists row :: row in chats && row.id == id && forall other :: other in chats ==> other.createdAt <= row.createdAt
  }

  /** An id above every existing chat id loads nothing from a table whose
      messages all belong to existing chats. */
  lemma NothingLoadsForNewId(chats: seq<ChatRow>, rows: seq<MessageRow>, id: int)
    requires References(chats, rows)
    requires forall row :: row in chats ==> row.id < id
    ensures LoadFrom(rows, id) == []
  {
  }

  /** With no chat left, no message can belong to one. */
  lemma NoChatsNoMessages(rows: seq<MessageRow>)
    requires References([], rows)
    ensures rows == []
  {
    // Filtering with a condition every row meets keeps all of `rows`; no row
    // exists to keep, so that is nothing.
    var every := (m: MessageRow) => true;
    FilterKeepsNone(rows, every);
    FilterKeepsAll(rows, every);
  }

  /** A table holding no system rows loads no system messages. */
  lemma LoadedRoles(rows: seq<MessageRow>, c: int)
    requires forall m :: m in rows ==> m.role != System
    ensures forall i :: 0 <= i < |LoadFrom(rows, c)| ==> LoadFrom(rows, c)[i].role != System
  {
  }

  /** The request holds exactly one system message, the first, when the
      history holds none. */
  lemma SystemMessageOnlyFirst(history: seq<Message>, systemPrompt: string)
    requires forall i :: 0 <= i < |history| ==> history[i].role != System
    ensures forall i :: 0 <= i < |history| + 1 ==>
              (BuildRequest(history, systemPrompt)[i].role == System <==> i == 0)
  {
  }

  /** The turn's `full_response += chunk` loop over every yielded fragment. */
  method Accumulate(fragments: seq<string>) returns (full: string)
    ensures full == Join(fragments)
  {
    full := "";
    var i := 0;
    while i < |fragments|
      invariant 0 <= i <= |fragments|
      invariant full == Join(fragments[..i])
    {
      assert fragments[..i + 1] == fragments[..i] + [fragments[i]];
      JoinAppend(fragments[..i], [fragments[i]]);
      assert Join([fragments[i]]) == fragments[i] + Join([]);
      full := full + fragments[i];
      i := i + 1;
    }
    assert fragments[..i] == fragments;
  }

  class Session {
    /** The database this session works on. */
    const store: Store
    /** `st.session_state.current_chat_id` */
    var currentChatId: int
    /** `st.session_state.messages`: the transcript on display. */
    var messages: seq<Message>
    /** `st.session_state.system_prompt` */
    var systemPrompt: string

    /** The database keeps its table invariants and referential integrity
        and holds no system message. */
    ghost predicate StoreReady()
      reads this, store
    {
      store.Valid() && store.Consistent() && store.StoresOnlyTurns()
    }

    /** The current chat exists, the database keeps its referential integrity
        and holds no system message, and the transcript on display is what
        the current chat loads. */
    ghost predicate Valid()
      reads this, store
    {
      && StoreReady()
      && store.HasChat(currentChatId)
      && messages == store.LoadMessages(currentChatId)
    }

    /** Startup: the newest chat becomes current, or a new chat named
        `newChatName` is created when there is none; its messages are loaded;
        the system prompt is the default one. The database must be one this
        application wrote. */
    constructor Start(s: Store, newChatName: string)
      requires s.Valid() && s.Consistent() && s.StoresOnlyTurns()
      modifies s
      ensures Valid() && store == s && systemPrompt == DefaultSystemPrompt
      ensures s.lastMessageId == old(s.lastMessageId) && s.issuedMessageIds == old(s.issuedMessageIds)
      ensures old(s.chats) != [] ==>
                && s.chats == old(s.chats) && s.messages == old(s.messages)
                && s.lastChatId == old(s.lastChatId) && s.clock == old(s.clock)
                && s.issuedChatIds == old(s.issuedChatIds)
                && currentChatId == NewestFirst(s.chats)[0].id
                && IsNewest(s.chats, currentChatId)
      ensures old(s.chats) == [] ==>
                && s.chats == [ChatRow(currentChatId, newChatName, old(s.clock))]
                && currentChatId == s.lastChatId == old(s.lastChatId) + 1
                && currentChatId !in old(s.issuedChatIds)
                && s.issuedChatIds == old(s.issuedChatIds) + {currentChatId}
                && s.clock == old(s.clock) + 1
                && s.messages == old(s.messages)
                && messages == []
    {
      store := s;
      systemPrompt := DefaultSystemPrompt;
      new;
      OpenNewest(newChatName);
    }

    /** The chat selection shared by startup and by the delete button: the
        newest chat becomes current and its messages are loaded, or, when no
        chat exists, a chat named `newChatName` is created and made current. */
    method OpenNewest(newChatName: string)
      requires StoreReady()
      modifies this, store
      ensures Valid() && systemPrompt == old(systemPrompt)
      ensures store.lastMessageId == old(store.lastMessageId) && store.issuedMessageIds == old(store.issuedMessageIds)
      ensures old(store.chats) != [] ==>
                && store.chats == old(store.chats) && store.messages == old(store.messages)
                && store.lastChatId == old(store.lastChatId) && store.clock == old(store.clock)
                && store.issuedChatIds == old(store.issuedChatIds)
                && currentChatId == NewestFirst(store.chats)[0].id
                && IsNewest(store.chats, currentChatId)
      ensures old(store.chats) == [] ==>
                && store.chats == [ChatRow(currentChatId, newChatName, old(store.clock))]
                && currentChatId == store.lastChatId == old(store.lastChatId) + 1
                && currentChatId !in old(store.issuedChatIds)
                && store.issuedChatIds == old(store.issuedChatIds) + {currentChatId}
                && store.clock == old(store.clock) + 1
                && store.messages == old(store.messages)
                && messages == []
    {
      var chats := store.GetAllChats();
      if chats != [] {
        assert chats[0] in store.chats;
        assert IsNewest(store.chats, chats[0].id);
        SelectChat(chats[0].id);
      } else {
        NewChat(newChatName);
      }
    }

    /** "New Chat": create a chat named `name`, make it current, clear the transcript. */
    method NewChat(name: string)
      requires StoreReady()
      modifies this, store
      ensures Valid()
      ensures currentChatId !in old(store.issuedChatIds)
      ensures currentChatId == store.lastChatId == old(store.lastChatId) + 1
      ensures store.issuedChatIds == old(store.issuedChatIds) + {currentChatId}
      ensures store.clock == old(store.clock) + 1
      ensures store.lastMessageId == old(store.lastMessageId) && store.issuedMessageIds == old(store.issuedMessageIds)
      ensures store.chats == old(store.chats) + [ChatRow(currentChatId, name, old(store.clock))]
      ensures store.messages == old(store.messages)
      ensures messages == []
      ensures systemPrompt == old(systemPrompt)
    {
      NothingLoadsForNewId(store.chats, store.messages, store.lastChatId + 1);
      var id := store.CreateNewChat(name);
      currentChatId := id;
      messages := [];
    }

    /** Picking chat `c` in the list: it becomes current and its messages are loaded. */
    method SelectChat(c: int)
      requires StoreReady() && store.HasChat(c)
      modifies this
      ensures Valid()
      ensures currentChatId == c && messages == store.LoadMessages(c)
      ensures systemPrompt == old(systemPrompt)
    {
      currentChatId := c;
      messages := store.LoadMessages(c);
    }

    /** The delete button of chat `c`: delete it, then make the newest
        remaining chat current, or create a chat named `newChatName` when
        none remains. */
    method DeleteChat(c: int, newChatName: string)
      requires Valid()
      modifies this, store
      ensures Valid()
      ensures systemPrompt == old(systemPrompt)
      ensures store.messages == Filter(old(store.messages), NotInChat(c))
      ensures store.lastMessageId == old(store.lastMessageId) && store.issuedMessageIds == old(store.issuedMessageIds)
      ensures var left := Filter(old(store.chats), NotChat(c));
              left != [] ==>
                && store.chats == left
                && store.lastChatId == old(store.lastChatId) && store.clock == old(store.clock)
                && store.issuedChatIds == old(store.issuedChatIds)
                && currentChatId == NewestFirst(left)[0].id
                && IsNewest(store.chats, currentChatId)
                && messages == store.LoadMessages(currentChatId)
      ensures var left := Filter(old(store.chats), NotChat(c));
              left == [] ==>
                && store.chats == [ChatRow(currentChatId, newChatName, old(store.clock))]
                && currentChatId == store.lastChatId == old(store.lastChatId) + 1
                && currentChatId !in old(store.issuedChatIds)
                && store.issuedChatIds == old(store.issuedChatIds) + {currentChatId}
                && store.clock == old(store.clock) + 1
                && store.messages == []
                && messages == []
    {
      store.DeleteChat(c);
      if store.chats == [] {
        NoChatsNoMessages(store.messages);
      }
      OpenNewest(newChatName);
    }

    /** Append a message to the transcript and save it to the current chat:
        the two steps both turn halves take. */
    method Record(role: Role, content: string)
      requires Valid() && role != System
      modifies this, store
      ensures Valid()
      ensures currentChatId == old(currentChatId) && systemPrompt == old(systemPrompt)
      ensures messages == old(messages) + [Message(role, content)]
      ensures store.chats == old(store.chats) && store.lastChatId == old(store.lastChatId)
      ensures store.issuedChatIds == old(store.issuedChatIds)
      ensures store.lastMessageId == old(store.lastMessageId) + 1 && store.clock == old(store.clock) + 1
      ensures store.issuedMessageIds == old(store.issuedMessageIds) + {old(store.lastMessageId) + 1}
      ensures store.messages ==
                old(store.messages) + [MessageRow(old(store.lastMessageId) + 1, currentChatId, role, content, old(store.clock))]
    {
      ghost var before := store.messages;
      var row := MessageRow(store.lastMessageId + 1, currentChatId, role, content, store.clock);
      messages := messages + [Message(role, content)];
      store.SaveMessage(currentChatId, role, content);
      LoadAfterInsert(before, row, currentChatId);
      assert StoreReady() && store.HasChat(currentChatId);
    }

    /** The start of a turn: the user message is appended to the transcript
        and saved to the current chat. */
    method SubmitPrompt(prompt: string)
      requires Valid()
      modifies this, store
      ensures Valid()
      ensures currentChatId == old(currentChatId) && systemPrompt == old(systemPrompt)
      ensures messages == old(messages) + [Message(User, prompt)]
      ensures store.chats == old(store.chats) && store.lastChatId == old(store.lastChatId)
      ensures store.issuedChatIds == old(store.issuedChatIds)
      ensures store.lastMessageId == old(store.lastMessageId) + 1 && store.clock == old(store.clock) + 1
      ensures store.issuedMessageIds == old(store.issuedMessageIds) + {old(store.lastMessageId) + 1}
      ensures store.messages ==
                old(store.messages) + [MessageRow(old(store.lastMessageId) + 1, currentChatId, User, prompt, old(store.clock))]
    {
      Record(User, prompt);
    }

    /** The end of a turn: a non-empty reply is appended to the transcript and
        saved as an assistant message; an empty one changes nothing. */
    method FinishReply(response: string)
      requires Valid()
      modifies this, store
      ensures Valid()
      ensures currentChatId == old(currentChatId) && systemPrompt == old(systemPrompt)
      ensures store.chats == old(store.chats) && store.lastChatId == old(store.lastChatId)
      ensures store.issuedChatIds == old(store.issuedChatIds)
      ensures var added := if response != "" then 1 else 0;
              store.lastMessageId == old(store.lastMessageId) + added && store.clock == old(store.clock) + added
      ensures store.issuedMessageIds ==
                old(store.issuedMessageIds) + if response != "" then {old(store.lastMessageId) + 1} else {}
      ensures messages == old(messages) + if response != "" then [Message(Assistant, response)] else []
      ensures store.messages == old(store.messages)
                + if response != ""
                  then [MessageRow(old(store.lastMessageId) + 1, currentChatId, Assistant, response, old(store.clock))]
                  else []
    {
      if response != "" {
        Record(Assistant, response);
      }
    }

    /** One turn for a non-empty `prompt`: the user message is appended to the
        transcript and saved before the provider is asked; the request is the
        system message followed by that transcript; the reply is the join of
        every fragment yielded, and it is appended and saved as an assistant
        message exactly when it is non-empty. */
    method Turn(prompt: string, reply: ProviderStream) returns (request: seq<Message>, response: string)
      requires Valid() && prompt != ""
      modifies this, store
      ensures Valid()
      ensures currentChatId == old(currentChatId) && systemPrompt == old(systemPrompt)
      ensures request == BuildRequest(old(messages) + [Message(User, prompt)], systemPrompt)
      ensures forall i :: 0 <= i < |request| ==> (request[i].role == System <==> i == 0)
      ensures response == Join(StreamChatResponse(reply)) == Transcript(reply.chunks)
      ensures messages == old(messages) + [Message(User, prompt)]
                          + if response != "" then [Message(Assistant, response)] else []
      ensures store.chats == old(store.chats) && store.lastChatId == old(store.lastChatId)
      ensures store.issuedChatIds == old(store.issuedChatIds)
      ensures var added := if response != "" then 2 else 1;
              store.lastMessageId == old(store.lastMessageId) + added && store.clock == old(store.clock) + added
      ensures store.issuedMessageIds ==
                old(store.issuedMessageIds) + {old(store.lastMessageId) + 1}
                + if response != "" then {old(store.lastMessageId) + 2} else {}
      ensures store.messages ==
                old(store.messages)
                + [MessageRow(old(store.lastMessageId) + 1, currentChatId, User, prompt, old(store.clock))]
                + if response != ""
                  then [MessageRow(old(store.lastMessageId) + 2, currentChatId, Assistant, response, old(store.clock) + 1)]
                  else []
    {
      ghost var history := messages + [Message(User, prompt)];
      ghost var rows := store.messages
        + [MessageRow(store.lastMessageId + 1, currentChatId, User, prompt, store.clock)];
      ghost var next, tick := store.lastMessageId + 2, store.clock + 1;
      ghost var issued := store.issuedMessageIds + {store.lastMessageId + 1};
      SubmitPrompt(prompt);
      assert messages == history && store.messages == rows;
      assert store.lastMessageId + 1 == next && store.clock == tick && store.issuedMessageIds == issued;
      LoadedRoles(store.messages, currentChatId);
      request := BuildRequest(messages, systemPrompt);
      SystemMessageOnlyFirst(messages, systemPrompt);
      var fragments := StreamChatResponse(reply);
      response := Accumulate(fragments);
      ReplyText(reply);
      FinishReply(response);
    }
  }

  /** A first chat gets id 1, and a streamed reply is saved after the prompt. */
  method StreamedTurnExample()
  {
    var db := new Store();
    var session := new Session.Start(db, "Chat 1");
    assert session.currentChatId == 1 && session.messages == [];
    var chunks := HelloChunks();
    HelloTranscript();
    var _, response := session.Turn("hello", ProviderStream(chunks, false));
    assert response == "Hi there!";
    assert session.messages == [Message(User, "hello"), Message(Assistant, "Hi there!")];
    assert db.LoadMessages(1) == session.messages;
  }

  /** A reply cut short by a provider failure keeps the text received before it. */
  method PartialReplyExample()
  {
    var db := new Store();
    var session := new Session.Start(db, "Chat 1");
    assert session.currentChatId == 1 && session.messages == [];
    var hi := Chunk([Choice(Delta(Some("Hi")))]);
    SingleChunkTranscript("Hi");
    var _, partial := session.Turn("more", ProviderStream([hi], true));
    assert partial == "Hi";
    assert session.messages == [Message(User, "more"), Message(Assistant, "Hi")];
    assert db.LoadMessages(1) == session.messages;
  }

  /** A provider failure before any text saves only the user message. */
  method FailedTurnExample()
  {
    var db := new Store();
    var session := new Session.Start(db, "Chat 1");
    assert session.currentChatId == 1 && session.messages == [];
    var _, nothing := session.Turn("again", ProviderStream([], true));
    assert nothing == "";
    assert session.messages == [Message(User, "again")];
    assert db.LoadMessages(1) == session.messages;
  }

  /** Deleting the only chat leaves nothing to load under its id and opens a
      fresh chat with the next id. */
  method DeleteOnlyChatExample()
  {
    var db := new Store();
    var session := new Session.Start(db, "Chat 1");
    var _, _ := session.Turn("hello", ProviderStream([], false));
    assert db.chats == [ChatRow(1, "Chat 1", 0)] && db.lastChatId == 1;
    assert Filter(db.chats, NotChat(1)) == [];
    session.DeleteChat(1, "Chat 2");
    assert db.messages == [];
    assert db.LoadMessages(1) == [];
    assert session.currentChatId == 2 && session.messages == [];
  }

  /** In any session, a chat created after deleting an earlier one never
      gets the deleted chat's id back: AUTOINCREMENT does not reuse ids. */
  method NoIdReuseAfterDelete(session: Session)
    requires session.Valid()
    modifies session, session.store
  {
    session.NewChat("a");
    var first := session.currentChatId;
    session.DeleteChat(first, "b");
    session.NewChat("c");
    assert session.currentChatId != first;
  }
}
