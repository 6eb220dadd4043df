/** The `ai-chat` edge function: after the CORS preflight it checks the
    body's `messages`, then the API key, assembles the conversation with the
    system prompt first, and relays the chat completion. The completion call
    is the parameter `complete`; the environment's key is `apiKey`. */
module AiChat {
  import opened Optional
  import Text
  import Relay

  datatype ChatMessage = ChatMessage(role: string, content: string)

  /** The body's fields; `messages` is `None` when it is missing or not an
      array. */
  datatype ChatBody = ChatBody(messages: Option<seq<ChatMessage>>, systemPrompt: Option<string>)

  datatype Usage = Usage(promptTokens: nat, completionTokens: nat, totalTokens: nat)

  /** The completion's first choice and its usage, or the thrown error's
      message. */
  datatype Completion = Completed(choice: ChatMessage, usage: Usage) | Threw(message: string)

  datatype Reply = Reply(message: ChatMessage, usage: Usage)

  const Fallback := "Failed to process request"

  /** The conversation sent to the model: the system prompt first when it
      is truthy, then the caller's messages in their order. */
  function Formatted(messages: seq<ChatMessage>, systemPrompt: Option<string>): (r: seq<ChatMessage>)
    ensures Text.Truthy(systemPrompt) ==>
      |r| == |messages| + 1 && r[0] == ChatMessage("system", systemPrompt.value) && r[1..] == messages
    ensures !Text.Truthy(systemPrompt) ==> r == messages
  {
    (if Text.Truthy(systemPrompt) then [ChatMessage("system", systemPrompt.value)] else []) + messages
  }

  /** `formattedMessages`, built by pushes: the prompt, then each message. */
  method FormatMessages(messages: seq<ChatMessage>, systemPrompt: Option<string>) returns (formatted: seq<ChatMessage>)
    ensures formatted == Formatted(messages, systemPrompt)
  {
    formatted := [];
    if Text.Truthy(systemPrompt) {
      formatted := formatted + [ChatMessage("system", systemPrompt.value)];
    }
    ghost var start := formatted;
    for i := 0 to |messages|
      invariant formatted == start + messages[..i]
    {
      formatted := formatted + [messages[i]];
    }
    assert messages[..|messages|] == messages;
  }

  /** The request handler. The checks run in this order: preflight, body,
      `messages`, API key; only then is the model called, with the
      formatted conversation. */
  method Handle(req: Relay.Request<ChatBody>, apiKey: Option<string>, complete: seq<ChatMessage> -> Completion)
    returns (resp: Relay.Response<Reply>)
    ensures Relay.WellShaped(resp)
    ensures req.httpMethod == "OPTIONS" ==> resp == Relay.Preflight()
    ensures req.httpMethod != "OPTIONS" && req.body.Malformed? ==> resp == Relay.Failure(req.body.message, Fallback)
    ensures req.httpMethod != "OPTIONS" && req.body.Parsed? && req.body.fields.messages.None? ==>
      resp == Relay.Failure("Messages array is required", Fallback)
    ensures req.httpMethod != "OPTIONS" && req.body.Parsed? && req.body.fields.messages.Some? && !Text.Truthy(apiKey) ==>
      resp == Relay.Failure("OpenAI API key not configured", Fallback)
    ensures req.httpMethod != "OPTIONS" && req.body.Parsed? && req.body.fields.messages.Some? && Text.Truthy(apiKey) ==>
      var c := complete(Formatted(req.body.fields.messages.value, req.body.fields.systemPrompt));
      resp == if c.Completed? then Relay.Success(Reply(c.choice, c.usage)) else Relay.Failure(c.message, Fallback)
  {
    if req.httpMethod == "OPTIONS" {
      return Relay.Preflight();
    }
    if req.body.Malformed? {
      return Relay.Failure(req.body.message, Fallback);
    }
    var body := req.body.fields;
    if body.messages.None? {
      return Relay.Failure("Messages array is required", Fallback);
    }
    if !Text.Truthy(apiKey) {
      return Relay.Failure("OpenAI API key not configured", Fallback);
    }
    var formatted := FormatMessages(body.messages.value, body.systemPrompt);
    var c := complete(formatted);
    match c {
      case Completed(choice, usage) =>
        resp := Relay.Success(Reply(choice, usage));
      case Threw(message) =>
        resp := Relay.Failure(message, Fallback);
    }
  }
}
