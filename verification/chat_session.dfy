/** The coaching chat transcript. Sending is optimistic: the user's message
    and a "..." placeholder are appended with temporary ids before the
    relay answers. On success the reply is appended and the message whose
    id is `temp-assistant-` followed by a clock value read anew at that
    moment is dropped, so the placeholder is only dropped when the clock
    has not moved. On failure every message whose id starts with `temp-`
    is dropped and the input is restored. Clock readings (`Date.now()`,
    `new Date()`) and the relay's outcome are parameters. */
module ChatSession {
  import opened Optional
  import opened Types
  import Text
  import Seqs

  /** What the awaited `sendMessage` did: returned the stored reply, or
      threw. */
  datatype SendOutcome = Replied(response: AICoachMessage) | Failed

  function TempUserId(now: nat): string {
    "temp-" + Text.NatToString(now)
  }

  function TempAssistantId(now: nat): string {
    "temp-assistant-" + Text.NatToString(now)
  }

  /** The two temporary ids never coincide, and placeholder ids of
      different clock readings differ. */
  lemma TempIdsDiffer(a: nat, b: nat)
    ensures TempUserId(a) != TempAssistantId(b)
    ensures TempAssistantId(a) == TempAssistantId(b) <==> a == b
    ensures Text.StartsWith(TempUserId(a), "temp-") && Text.StartsWith(TempAssistantId(b), "temp-")
  {
    var p := "temp-assistant-";
    assert TempUserId(a)[5] == Text.NatToString(a)[0];
    assert TempAssistantId(b)[5] == 'a';
    assert TempUserId(a)[..5] == "temp-";
    assert TempAssistantId(b)[..5] == "temp-";
    if TempAssistantId(a) == TempAssistantId(b) {
      assert TempAssistantId(a)[|p|..] == Text.NatToString(a);
      assert TempAssistantId(b)[|p|..] == Text.NatToString(b);
      Text.NatToStringInjective(a, b);
    }
  }

  function UserMessage(sessionId: string, content: string, now: nat, createdAt: int): AICoachMessage {
    AICoachMessage(TempUserId(now), sessionId, UserRole, content, None, createdAt)
  }

  function Placeholder(sessionId: string, now: nat, createdAt: int): AICoachMessage {
    AICoachMessage(TempAssistantId(now), sessionId, AssistantRole, "...", None, createdAt)
  }

  /** The transcript once the two temporary messages are appended. */
  function Optimistic(ms: seq<AICoachMessage>, sessionId: string, content: string,
                      userNow: nat, userAt: int, assistantNow: nat, assistantAt: int): (r: seq<AICoachMessage>)
    ensures |r| == |ms| + 2 && r[..|ms|] == ms
    ensures r[|ms|].role == UserRole && r[|ms|].content == content && Text.StartsWith(r[|ms|].id, "temp-")
    ensures r[|ms| + 1].role == AssistantRole && r[|ms| + 1].content == "..."
    ensures r[|ms| + 1].id == TempAssistantId(assistantNow)
  {
    TempIdsDiffer(userNow, assistantNow);
    ms + [UserMessage(sessionId, content, userNow, userAt)] + [Placeholder(sessionId, assistantNow, assistantAt)]
  }

  function IsNotPlaceholderAt(now: nat): AICoachMessage -> bool {
    (m: AICoachMessage) => m.id != TempAssistantId(now)
  }

  function IsNotTemporary(): AICoachMessage -> bool {
    (m: AICoachMessage) => !Text.StartsWith(m.id, "temp-")
  }

  /** Success: drop the message whose id is the placeholder id of the clock
      reading `now`, then append the reply. */
  function AfterReply(ms: seq<AICoachMessage>, now: nat, response: AICoachMessage): (r: seq<AICoachMessage>)
    ensures 1 <= |r| <= |ms| + 1 && r[|r| - 1] == response
  {
    Seqs.Filter(ms, IsNotPlaceholderAt(now)) + [response]
  }

  /** Failure: drop every temporary message. */
  function AfterFailure(ms: seq<AICoachMessage>): (r: seq<AICoachMessage>)
    ensures |r| <= |ms|
  {
    Seqs.Filter(ms, IsNotTemporary())
  }

  /** Exactly the messages with a `temp-` id are gone after a failure. */
  lemma AfterFailureExact(ms: seq<AICoachMessage>, m: AICoachMessage)
    ensures m in AfterFailure(ms) <==> m in ms && !Text.StartsWith(m.id, "temp-")
  {
    Seqs.FilterMembership(ms, IsNotTemporary(), m);
  }

  /** A failed send leaves no trace in the transcript: the result is what
      a failure clean-up of the transcript before the send would give. */
  lemma FailedSendForgotten(ms: seq<AICoachMessage>, sessionId: string, content: string,
                            userNow: nat, userAt: int, assistantNow: nat, assistantAt: int)
    ensures AfterFailure(Optimistic(ms, sessionId, content, userNow, userAt, assistantNow, assistantAt))
         == AfterFailure(ms)
    ensures (forall i :: 0 <= i < |ms| ==> !Text.StartsWith(ms[i].id, "temp-")) ==>
      AfterFailure(Optimistic(ms, sessionId, content, userNow, userAt, assistantNow, assistantAt)) == ms
  {
    var u, p := UserMessage(sessionId, content, userNow, userAt), Placeholder(sessionId, assistantNow, assistantAt);
    TempIdsDiffer(userNow, assistantNow);
    Seqs.FilterAppend(ms, [u, p], IsNotTemporary());
    assert ms + [u] + [p] == ms + [u, p];
    Seqs.FilterNonePass([u, p], IsNotTemporary());
    if forall i :: 0 <= i < |ms| ==> !Text.StartsWith(ms[i].id, "temp-") {
      Seqs.FilterAllPass(ms, IsNotTemporary());
    }
  }

  /** A successful send keeps the user's message and appends the reply;
      the placeholder is dropped only when the clean-up reads the same clock
      value it was created with. */
  lemma RepliedSend(ms: seq<AICoachMessage>, sessionId: string, content: string,
                    userNow: nat, userAt: int, assistantNow: nat, assistantAt: int,
                    cleanupNow: nat, response: AICoachMessage)
    ensures var u, p := UserMessage(sessionId, content, userNow, userAt), Placeholder(sessionId, assistantNow, assistantAt);
      var prior := Seqs.Filter(ms, IsNotPlaceholderAt(cleanupNow));
      AfterReply(Optimistic(ms, sessionId, content, userNow, userAt, assistantNow, assistantAt), cleanupNow, response)
      == if cleanupNow == assistantNow then prior + [u, response] else prior + [u, p, response]
  {
    var u, p := UserMessage(sessionId, content, userNow, userAt), Placeholder(sessionId, assistantNow, assistantAt);
    var keep := IsNotPlaceholderAt(cleanupNow);
    TempIdsDiffer(userNow, cleanupNow);
    TempIdsDiffer(assistantNow, cleanupNow);
    FilterTwoPushes(ms, u, p, keep);
  }

  lemma FilterTwoPushes<T>(s: seq<T>, u: T, p: T, keep: T -> bool)
    requires keep(u)
    ensures Seqs.Filter(s + [u] + [p], keep)
         == if keep(p) then Seqs.Filter(s, keep) + [u, p] else Seqs.Filter(s, keep) + [u]
  {
    Seqs.FilterPush(s, u, keep);
    Seqs.FilterPush(s + [u], p, keep);
  }

  /** `handleKeyDown`: Enter without Shift sends, unless a send is in
      flight. */
  predicate ShouldSend(key: string, shiftKey: bool, isSending: bool) {
    key == "Enter" && !shiftKey && !isSending
  }

  /** `handleTranscriptionComplete`: the transcript is appended to the input,
      separated by a space when the input is not empty. */
  function WithTranscript(input: string, text: string): (r: string)
    ensures input == "" ==> r == text
    ensures input != "" ==> r == input + " " + text
  {
    input + (if input != "" then " " else "") + text
  }

  /** The input is kept in front and the transcript at the end. */
  lemma WithTranscriptKeepsBoth(input: string, text: string)
    ensures Text.StartsWith(WithTranscript(input, text), input)
    ensures var r := WithTranscript(input, text); |r| >= |text| && r[|r| - |text|..] == text
    ensures |WithTranscript(input, text)| == |input| + |text| + (if input == "" then 0 else 1)
  {
    var r := WithTranscript(input, text);
    assert r[..|input|] == input;
  }

  /** `if (!inputValue.trim() || !id) return;` */
  predicate CanSend(input: string, id: Option<string>) {
    Text.Trim(input) != "" && id.Some? && id.value != ""
  }

  /** The chat page's transcript state. */
  class Chat {
    const id: Option<string>
    var messages: seq<AICoachMessage>
    var inputValue: string
    var isSending: bool

    constructor (sessionId: Option<string>, loaded: seq<AICoachMessage>)
      ensures id == sessionId && messages == loaded && inputValue == "" && !isSending
    {
      id := sessionId;
      messages, inputValue, isSending := loaded, "", false;
    }

    method SetInput(text: string)
      modifies this
      ensures inputValue == text && messages == old(messages) && isSending == old(isSending)
    {
      inputValue := text;
    }

    /** The part of `handleSendMessage` before the `await`: the trimmed
        input is taken, the input cleared, the send flagged, and the two
        temporary messages appended. Nothing happens (and no content is
        returned) when the input is blank or there is no session id. */
    method BeginSend(userNow: nat, userAt: int, assistantNow: nat, assistantAt: int)
      returns (content: Option<string>)
      modifies this
      ensures !CanSend(old(inputValue), id) ==>
        content == None && messages == old(messages) && inputValue == old(inputValue) && isSending == old(isSending)
      ensures CanSend(old(inputValue), id) ==>
        && content == Some(Text.Trim(old(inputValue)))
        && inputValue == "" && isSending
        && messages == Optimistic(old(messages), id.value, content.value, userNow, userAt, assistantNow, assistantAt)
    {
      if !CanSend(inputValue, id) {
        return None;
      }
      var text := Text.Trim(inputValue);
      content := Some(text);
      inputValue := "";
      isSending := true;
      messages := messages + [UserMessage(id.value, text, userNow, userAt)];
      messages := messages + [Placeholder(id.value, assistantNow, assistantAt)];
    }

    /** The part after the `await`: the success or failure clean-up, then
        `isSending` is cleared either way. */
    method FinishSend(content: string, outcome: SendOutcome, cleanupNow: nat)
      modifies this
      ensures outcome.Replied? ==>
        messages == AfterReply(old(messages), cleanupNow, outcome.response) && inputValue == old(inputValue)
      ensures outcome.Failed? ==> messages == AfterFailure(old(messages)) && inputValue == content
      ensures !isSending
    {
      match outcome {
        case Replied(response) =>
          messages := AfterReply(messages, cleanupNow, response);
        case Failed =>
          messages := AfterFailure(messages);
          inputValue := content;
      }
      isSending := false;
    }

    /** The state `handleSendMessage` leaves behind, given the state it
        started from: nothing changes when the input is blank or there is no
        session id; otherwise the two temporary messages were appended and
        then cleaned up by the reply or the failure, the input holds the
        trimmed text again only after a failure, and no send is in flight. */
    predicate SendDone(m0: seq<AICoachMessage>, input0: string, sending0: bool,
                       userNow: nat, userAt: int, assistantNow: nat, assistantAt: int,
                       outcome: SendOutcome, cleanupNow: nat)
      reads this
    {
      if !CanSend(input0, id) then
        messages == m0 && inputValue == input0 && isSending == sending0
      else
        var sent := Optimistic(m0, id.value, Text.Trim(input0), userNow, userAt, assistantNow, assistantAt);
        && !isSending
        && (outcome.Replied? ==> messages == AfterReply(sent, cleanupNow, outcome.response) && inputValue == "")
        && (outcome.Failed? ==> messages == AfterFailure(sent) && inputValue == Text.Trim(input0))
    }

    /** `handleSendMessage` from start to end. */
    method HandleSendMessage(userNow: nat, userAt: int, assistantNow: nat, assistantAt: int,
                             outcome: SendOutcome, cleanupNow: nat) returns (content: Option<string>)
      modifies this
      ensures content == (if CanSend(old(inputValue), id) then Some(Text.Trim(old(inputValue))) else None)
      ensures SendDone(old(messages), old(inputValue), old(isSending),
                       userNow, userAt, assistantNow, assistantAt, outcome, cleanupNow)
    {
      content := BeginSend(userNow, userAt, assistantNow, assistantAt);
      if content.Some? {
        FinishSend(content.value, outcome, cleanupNow);
      }
    }

    /** `handleKeyDown`: Enter without Shift sends, unless a send is already
        in flight; any other key changes nothing. */
    method HandleKeyDown(key: string, shiftKey: bool, userNow: nat, userAt: int, assistantNow: nat, assistantAt: int,
                         outcome: SendOutcome, cleanupNow: nat) returns (sent: bool)
      modifies this
      ensures sent <==> ShouldSend(key, shiftKey, old(isSending))
      ensures sent ==> SendDone(old(messages), old(inputValue), old(isSending),
                                userNow, userAt, assistantNow, assistantAt, outcome, cleanupNow)
      ensures !sent ==> messages == old(messages) && inputValue == old(inputValue) && isSending == old(isSending)
    {
      sent := ShouldSend(key, shiftKey, isSending);
      if sent {
        var _ := HandleSendMessage(userNow, userAt, assistantNow, assistantAt, outcome, cleanupNow);
      }
    }

    method HandleTranscriptionComplete(text: string)
      modifies this
      ensures inputValue == WithTranscript(old(inputValue), text)
      ensures messages == old(messages) && isSending == old(isSending)
    {
      inputValue := WithTranscript(inputValue, text);
    }
  }
}
