/** The response relay of `stream_chat_response`: the request sent to the
    completion provider, and the text fragments the generator yields from the
    provider's streamed chunks. The provider itself is not modelled; its reply
    is given as the sequence of chunks it delivered and whether the stream
    ended by raising an exception. */
module Relay {
  import opened Sequences
  import opened ChatStore

  datatype Option<T> = None | Some(value: T)

  /** `chunk.choices[k].delta`; `None` stands for a missing or `None` content attribute. */
  datatype Delta = Delta(content: Option<string>)
  datatype Choice = Choice(delta: Delta)
  datatype Chunk = Chunk(choices: seq<Choice>)

  /** What the provider delivered: the chunks received, and whether the call
      (creating the request or iterating the response) raised afterwards. A
      call that fails before any chunk is `ProviderStream([], true)`. */
  datatype ProviderStream = ProviderStream(chunks: seq<Chunk>, raises: bool)

  /** The message list sent to the provider: the system message, then the history. */
  function BuildRequest(history: seq<Message>, systemPrompt: string): (r: seq<Message>)
    ensures |r| == |history| + 1
    ensures r[0] == Message(System, systemPrompt)
    ensures r[1..] == history
  {
    [Message(System, systemPrompt)] + history
  }

  /** The text a chunk contributes: the content of its first choice's delta,
      or nothing when it has no choice or no content. */
  function ChunkText(chunk: Chunk): (r: string)
    ensures r != "" <==>
              && |chunk.choices| > 0 && chunk.choices[0].delta.content.Some?
              && chunk.choices[0].delta.content.value != ""
    ensures r != "" ==> chunk.choices[0].delta.content == Some(r)
  {
    if |chunk.choices| > 0 && chunk.choices[0].delta.content.Some?
    then chunk.choices[0].delta.content.value
    else ""
  }

  /** The fragments the generator's loop yields for `chunks`, in order. */
  function Fragments(chunks: seq<Chunk>): (r: seq<string>)
    ensures |r| <= |chunks|
    ensures forall i :: 0 <= i < |r| ==> r[i] != ""
  {
    if chunks == [] then []
    else if ChunkText(chunks[0]) != "" then [ChunkText(chunks[0])] + Fragments(chunks[1..])
    else Fragments(chunks[1..])
  }

  /** Everything `stream_chat_response` yields: the fragments, and a single
      empty string when the provider raised. The only empty element is that
      final marker. */
  function StreamChatResponse(reply: ProviderStream): (r: seq<string>)
    ensures forall i :: 0 <= i < |r| ==> (r[i] == "" <==> reply.raises && i == |r| - 1)
    ensures reply.raises ==> |r| >= 1 && r[..|r| - 1] == Fragments(reply.chunks)
    ensures !reply.raises ==> r == Fragments(reply.chunks)
  {
    var done := Fragments(reply.chunks);
    if reply.raises then
      assert (done + [""])[..|done|] == done;
      done + [""]
    else done
  }

  /** The text of the chunks, one after another: the reference the yielded
      fragments are measured against. */
  function Transcript(chunks: seq<Chunk>): string
  {
    if chunks == [] then "" else ChunkText(chunks[0]) + Transcript(chunks[1..])
  }

  /** The fragments of a longer stream extend those of its prefix: what was
      yielded is never taken back. */
  lemma {:induction false} FragmentsAppend(a: seq<Chunk>, b: seq<Chunk>)
    ensures Fragments(a + b) == Fragments(a) + Fragments(b)
  {
    if a == [] {
      assert a + b == b;
    } else {
      assert (a + b)[0] == a[0];
      assert (a + b)[1..] == a[1..] + b;
      FragmentsAppend(a[1..], b);
    }
  }

  /** Dropping the chunks with no text loses none of it: the joined fragments
      are the text of all chunks. */
  lemma {:induction false} JoinFragments(chunks: seq<Chunk>)
    ensures Join(Fragments(chunks)) == Transcript(chunks)
  {
    if chunks != [] {
      JoinFragments(chunks[1..]);
      if ChunkText(chunks[0]) != "" {
        var f := [ChunkText(chunks[0])] + Fragments(chunks[1..]);
        assert f[0] == ChunkText(chunks[0]) && f[1..] == Fragments(chunks[1..]);
      }
    }
  }

  /** The reply a turn accumulates is the text of the chunks received, whether
      or not the provider raised: the failure marker adds nothing. */
  lemma ReplyText(reply: ProviderStream)
    ensures Join(StreamChatResponse(reply)) == Transcript(reply.chunks)
  {
    JoinFragments(reply.chunks);
    if reply.raises {
      JoinAppend(Fragments(reply.chunks), [""]);
      assert Join([""]) == "" + Join([""][1..]);
    }
  }

  /** The reply is empty exactly when no chunk carried any text. */
  lemma {:induction false} TranscriptEmpty(chunks: seq<Chunk>)
    ensures Transcript(chunks) == "" <==> forall i :: 0 <= i < |chunks| ==> ChunkText(chunks[i]) == ""
  {
    if chunks != [] {
      var rest := chunks[1..];
      TranscriptEmpty(rest);
      assert |Transcript(chunks)| == |ChunkText(chunks[0])| + |Transcript(rest)|;
      assert (forall i :: 0 <= i < |chunks| ==> ChunkText(chunks[i]) == "") <==>
             ChunkText(chunks[0]) == "" && forall i :: 0 <= i < |rest| ==> ChunkText(rest[i]) == "" by {
        assert forall i :: 0 <= i < |rest| ==> rest[i] == chunks[i + 1];
      }
    }
  }

  /** The reply is empty exactly when nothing but the failure marker was yielded. */
  lemma ReplyEmpty(reply: ProviderStream)
    ensures Join(StreamChatResponse(reply)) == "" <==> Fragments(reply.chunks) == []
  {
    var r := StreamChatResponse(reply);
    if reply.raises {
      assert r == Fragments(reply.chunks) + [""];
    }
  }

  /** A single chunk carrying `text` gives exactly `text`. */
  lemma SingleChunkTranscript(text: string)
    ensures Transcript([Chunk([Choice(Delta(Some(text)))])]) == text
  {
    var chunks := [Chunk([Choice(Delta(Some(text)))])];
    assert chunks[1..] == [];
  }

  /** A reply streamed as "Hi", " there", a chunk without choices (as a final
      usage chunk is), and "!". */
  function HelloChunks(): seq<Chunk>
  {
    [Chunk([Choice(Delta(Some("Hi")))]), Chunk([Choice(Delta(Some(" there")))]),
     Chunk([]), Chunk([Choice(Delta(Some("!")))])]
  }

  /** The chunk without choices contributes nothing: the reply is "Hi there!". */
  lemma HelloTranscript()
    ensures Transcript(HelloChunks()) == "Hi there!"
    ensures |Fragments(HelloChunks())| == 3
  {
  }
}
