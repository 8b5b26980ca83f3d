/**
 * The text handling of `DeepSeekWrapper`: the chat messages are rendered into one
 * prompt ending with the assistant cue, and the reply is the stripped text after the
 * last cue of the generated text.
 */
module DeepSeekWrapper {
  import opened Text
  import opened Sequences

  /** One chat message, `{"role": ..., "content": ...}`. */
  datatype Message = Message(role: string, content: string)

  const AssistantCue := "Assistant: "

  /** The rendering of one message; a message with any other role contributes nothing. */
  function Rendering(m: Message): (r: string)
    ensures r != [] <==> m.role in {"system", "user", "assistant"}
    ensures m.role == "assistant" ==> |r| > |AssistantCue| && r[..|AssistantCue|] == AssistantCue
  {
    if m.role == "system" then "System: " + m.content + "\n\n"
    else if m.role == "user" then "Human: " + m.content + "\n"
    else if m.role == "assistant" then AssistantCue + m.content + "\n"
    else ""
  }

  /** The renderings of the messages, in order. */
  function Renderings(ms: seq<Message>): (rs: seq<string>)
    ensures |rs| == |ms| && forall i :: 0 <= i < |ms| ==> rs[i] == Rendering(ms[i])
  {
    seq(|ms|, i requires 0 <= i < |ms| => Rendering(ms[i]))
  }

  /** The prompt text before the final cue. */
  function Transcript(ms: seq<Message>): string {
    Concat(Renderings(ms))
  }

  /** `_format_messages(messages)` */
  method FormatMessages(ms: seq<Message>) returns (formatted: string)
    ensures formatted == Transcript(ms) + AssistantCue
  {
    formatted := "";
    for i := 0 to |ms|
      invariant formatted == Transcript(ms[..i])
    {
      var msg := ms[i];
      assert Renderings(ms[..i + 1]) == Renderings(ms[..i]) + [Rendering(msg)];
      ConcatAppend(Renderings(ms[..i]), [Rendering(msg)]);
      if msg.role == "system" {
        formatted := formatted + ("System: " + msg.content + "\n\n");
      } else if msg.role == "user" {
        formatted := formatted + ("Human: " + msg.content + "\n");
      } else if msg.role == "assistant" {
        formatted := formatted + ("Assistant: " + msg.content + "\n");
      }
    }
    assert ms[..|ms|] == ms;
    formatted := formatted + "Assistant: ";
  }

  /** The transcript of consecutive message lists is the concatenation of their transcripts. */
  lemma TranscriptAppend(a: seq<Message>, b: seq<Message>)
    ensures Transcript(a + b) == Transcript(a) + Transcript(b)
  {
    assert Renderings(a + b) == Renderings(a) + Renderings(b);
    ConcatAppend(Renderings(a), Renderings(b));
  }

  /** An empty conversation is rendered as the bare assistant cue. */
  lemma EmptyTranscript()
    ensures Transcript([]) + AssistantCue == "Assistant: "
  {
  }

  /** Removing a message whose role is none of the three leaves the prompt unchanged. */
  lemma UnknownRoleSilent(a: seq<Message>, m: Message, b: seq<Message>)
    requires m.role != "system" && m.role != "user" && m.role != "assistant"
    ensures Transcript(a + [m] + b) == Transcript(a + b)
  {
    assert Renderings([m]) == [""] && [""][..0] == [];
    calc {
      Transcript(a + [m] + b);
      { TranscriptAppend(a + [m], b); }
      Transcript(a + [m]) + Transcript(b);
      { TranscriptAppend(a, [m]); }
      Transcript(a) + Transcript(b);
      { TranscriptAppend(a, b); }
      Transcript(a + b);
    }
  }

  /** `_extract_response(text)` */
  function ExtractResponse(text: string): (r: string)
    ensures !Contains(text, AssistantCue) ==> r == Strip(text)
  {
    if Contains(text, AssistantCue) then Strip(LastPart(text, AssistantCue)) else Strip(text)
  }

  /** The cue cannot overlap itself: no proper suffix of it is also a prefix. */
  lemma CueUnbordered()
    ensures Unbordered(AssistantCue)
  {
    forall k | 0 < k < |AssistantCue|
      ensures AssistantCue[k..] != AssistantCue[..|AssistantCue| - k]
    {
      assert AssistantCue[k..][0] == AssistantCue[k] != 'A';
    }
  }

  /** Whatever precedes the last cue, the response is the stripped text after it. */
  lemma ExtractAfterLastCue(prefix: string, reply: string)
    requires !Contains(reply, AssistantCue)
    ensures ExtractResponse(prefix + AssistantCue + reply) == Strip(reply)
  {
    CueUnbordered();
    OccursAtAppend(prefix, AssistantCue, reply);
    LastPartAfterSeparator(prefix, AssistantCue, reply);
  }

  /** A reply generated after the prompt, and free of the cue, is extracted as exactly its stripped text. */
  lemma ExtractAfterPrompt(ms: seq<Message>, reply: string)
    requires !Contains(reply, AssistantCue)
    ensures ExtractResponse(Transcript(ms) + AssistantCue + reply) == Strip(reply)
  {
    ExtractAfterLastCue(Transcript(ms), reply);
  }
}
