/**
 * The language-model dispatcher of the assistant (`LLMManager`): the list of
 * clients built from the configured API keys, the two chat messages built
 * from a command and the screen context, and the query that tries the clients
 * in order and returns the first answer.
 *
 * A client call is an HTTP request; what it came to (a timeout, an exception
 * or a response with a status and, when the JSON has the expected shape, the
 * answer text) is an input of the model.
 */
module Llm {
  import opened Wrappers
  import opened Text
  import opened ScreenContext

  // ---------------------------------------------------------------------------
  // Clients

  datatype Provider = OpenAI | Gemini

  /** A configured client and the API key it sends. */
  datatype Client = Client(provider: Provider, apiKey: string)

  /**
   * The clients `LLMManager.__init__` builds: OpenAI when its key is set, then
   * Gemini when its key is set, each with its own key.
   */
  function ConfiguredClients(openaiKey: string, geminiKey: string): (clients: seq<Client>)
    ensures |clients| <= 2
    ensures forall k :: 0 <= k < |clients| ==> clients[k].apiKey != ""
    ensures Client(OpenAI, openaiKey) in clients <==> openaiKey != ""
    ensures Client(Gemini, geminiKey) in clients <==> geminiKey != ""
    ensures forall k :: 0 <= k < |clients| && clients[k].provider == OpenAI ==> k == 0
    ensures forall k :: 0 <= k < |clients| && clients[k].provider == Gemini ==> k == |clients| - 1
    ensures forall k :: 0 <= k < |clients| ==> clients[k] == Client(OpenAI, openaiKey) || clients[k] == Client(Gemini, geminiKey)
  {
    (if openaiKey != "" then [Client(OpenAI, openaiKey)] else [])
    + (if geminiKey != "" then [Client(Gemini, geminiKey)] else [])
  }

  // ---------------------------------------------------------------------------
  // Messages

  datatype Message = Message(role: string, content: string)

  /** The screen context in its dictionary's iteration order: distinct keys, each with its value. */
  type Entries = seq<(string, ContextValue)>

  /**
   * `f"{value}"` for a context value: strings as they are, booleans as `True`
   * and `False`, any other value as its given `str()` text.
   */
  function Render(v: ContextValue): string
  {
    match v
    case Str(s) => s
    case Flag(b) => if b then "True" else "False"
    case Other(text) => text
  }

  /** The `f"{key}: {value}"` lines, one per entry, in order. */
  function Lines(entries: Entries): (lines: seq<string>)
    ensures |lines| == |entries|
    ensures forall k :: 0 <= k < |entries| ==> lines[k] == entries[k].0 + ": " + Render(entries[k].1)
  {
    seq(|entries|, k requires 0 <= k < |entries| => entries[k].0 + ": " + Render(entries[k].1))
  }

  const CONTEXT_HEADER: string := "Current context:\n"

  /**
   * The system message's content: the header, then the lines joined by
   * newlines; an empty context (before the first publication) leaves the
   * header alone.
   */
  function SystemContent(entries: Entries): (content: string)
    ensures CONTEXT_HEADER <= content
    ensures entries == [] ==> content == CONTEXT_HEADER
    ensures |entries| == 1 ==> content == CONTEXT_HEADER + entries[0].0 + ": " + Render(entries[0].1)
  {
    CONTEXT_HEADER + Join(Lines(entries), '\n')
  }

  /**
   * The messages `query` sends: a system message with the context, then a user
   * message whose content is exactly the command.
   */
  function BuildMessages(command: string, entries: Entries): (messages: seq<Message>)
    ensures |messages| == 2
    ensures messages[0].role == "system" && messages[1].role == "user"
    ensures messages[0].content == SystemContent(entries)
    ensures entries == [] ==> messages[0].content == CONTEXT_HEADER
    ensures messages[1].content == command
  {
    [Message("system", SystemContent(entries)), Message("user", command)]
  }

  /** No key and no rendered value of the context spans more than one line. */
  ghost predicate SingleLine(entries: Entries)
  {
    forall k :: 0 <= k < |entries| ==> '\n' !in entries[k].0 && '\n' !in Render(entries[k].1)
  }

  /**
   * The system message can be read back: after the header, splitting on
   * newlines yields exactly one "key: value" line per entry, in order.
   */
  lemma ContextReadBack(entries: Entries)
    requires |entries| >= 1 && SingleLine(entries)
    ensures var content := SystemContent(entries);
      && CONTEXT_HEADER <= content
      && Split(content[|CONTEXT_HEADER|..], '\n') == Lines(entries)
  {
    var lines := Lines(entries);
    forall k | 0 <= k < |lines| ensures '\n' !in lines[k] {
      assert lines[k] == entries[k].0 + ": " + Render(entries[k].1);
    }
    SplitJoin(lines, '\n');
    assert SystemContent(entries)[|CONTEXT_HEADER|..] == Join(lines, '\n');
  }

  // ---------------------------------------------------------------------------
  // Calling a client

  /** What the body of an HTTP request holds for each provider. */
  datatype Request = ChatCompletion(model: string, messages: seq<Message>) | GenerateContent(prompt: string)

  /** OpenAI receives the whole conversation for "gpt-4"; Gemini only the content of the last message. */
  function RequestFor(provider: Provider, messages: seq<Message>): Request
    requires messages != []
  {
    match provider
    case OpenAI => ChatCompletion("gpt-4", messages)
    case Gemini => GenerateContent(messages[|messages| - 1].content)
  }

  /** Gemini is asked the bare command: the screen context never reaches it. */
  lemma GeminiSeesOnlyCommand(command: string, entries: Entries, other: Entries)
    ensures RequestFor(Gemini, BuildMessages(command, entries)) == GenerateContent(command)
    ensures RequestFor(Gemini, BuildMessages(command, entries)) == RequestFor(Gemini, BuildMessages(command, other))
  {
  }

  /**
   * What one call came to: `asyncio.wait_for` timed out, the client raised, or
   * the service answered with an HTTP status and, when the JSON had the
   * expected shape, the answer text.
   */
  datatype Attempt = TimedOut | Raised(error: string) | Responded(status: int, content: Option<string>)

  /** A call succeeds only with status 200 and a well-formed body; every other outcome is a failure. */
  function Reply(attempt: Attempt): (reply: Option<string>)
    ensures reply.Some? <==> attempt.Responded? && attempt.status == 200 && attempt.content.Some?
    ensures reply.Some? ==> reply.value == attempt.content.value
  {
    if attempt.Responded? && attempt.status == 200 then attempt.content else None
  }

  /** The index of the first attempt with a reply, if any. */
  function FirstReply(attempts: seq<Attempt>): (first: Option<nat>)
    ensures first.Some? ==> first.value < |attempts| && Reply(attempts[first.value]).Some?
    ensures first.Some? ==> forall k :: 0 <= k < first.value ==> Reply(attempts[k]).None?
    ensures first.None? <==> forall k :: 0 <= k < |attempts| ==> Reply(attempts[k]).None?
  {
    if attempts == [] then
      None
    else if Reply(attempts[0]).Some? then
      Some(0)
    else
      var rest := FirstReply(attempts[1..]);
      assert forall k :: 1 <= k < |attempts| ==> attempts[k] == attempts[1..][k - 1];
      if rest.Some? then Some(rest.value + 1) else None
  }

  /** The outcome of `query`: the first answer, or one of its two errors. */
  datatype QueryResult = Answered(text: string) | NoClientsConfigured | AllClientsFailed

  // ---------------------------------------------------------------------------
  // The dispatcher object

  class LlmManager {
    /** `self.clients`, in the order they are tried. */
    var clients: seq<Client>

    /** `__init__`: appends OpenAI, then Gemini, each when its key is non-empty. */
    constructor(openaiKey: string, geminiKey: string)
      ensures clients == ConfiguredClients(openaiKey, geminiKey)
    {
      clients := [];
      if openaiKey != "" {
        clients := clients + [Client(OpenAI, openaiKey)];
      }
      if geminiKey != "" {
        clients := clients + [Client(Gemini, geminiKey)];
      }
    }

    /**
     * `query`: with no clients it fails before calling any; otherwise the
     * clients are called in order with the same messages, a timeout or an
     * error moves on to the next one, the first reply is returned without
     * calling the rest, and when all fail the distinct "all failed" error
     * results. `attempts[k]` is what a call to `clients[k]` comes to; `sent`
     * holds the requests in the order they were made.
     */
    method Query(command: string, context: Entries, attempts: seq<Attempt>)
      returns (result: QueryResult, sent: seq<Request>)
      requires |attempts| == |clients|
      ensures clients == [] ==> result == NoClientsConfigured && sent == []
      ensures clients != [] && FirstReply(attempts).Some? ==>
        var k := FirstReply(attempts).value;
        result == Answered(Reply(attempts[k]).value) && |sent| == k + 1
      ensures clients != [] && FirstReply(attempts).None? ==> result == AllClientsFailed && |sent| == |clients|
      ensures forall k :: 0 <= k < |sent| ==> sent[k] == RequestFor(clients[k].provider, BuildMessages(command, context))
    {
      sent := [];
      if clients == [] {
        return NoClientsConfigured, sent;
      }
      var messages := BuildMessages(command, context);
      var i := 0;
      while i < |clients|
        invariant 0 <= i <= |clients| && |sent| == i
        invariant forall k :: 0 <= k < i ==> Reply(attempts[k]).None?
        invariant forall k :: 0 <= k < i ==> sent[k] == RequestFor(clients[k].provider, messages)
      {
        sent := sent + [RequestFor(clients[i].provider, messages)];
        var reply := Reply(attempts[i]);
        if reply.Some? {
          return Answered(reply.value), sent;
        }
        i := i + 1;
      }
      return AllClientsFailed, sent;
    }
  }
}
