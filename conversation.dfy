/**
 The conversation of the package (chatgpterminal/conversation.py): a history
 of messages that starts with the system instruction, sent as a list of
 role/content entries with every user prompt, the reply streamed by a new
 response and appended to the history.

 The chat completion call is not modelled: each reply arrives as the
 sequence of fragments the stream would deliver, and the response keeps the
 request that would have been sent.
 */
module Conversations {
  import opened Wrappers
  import opened Renderer
  import opened Messages

  const DefaultModel: string := "gpt-3.5-turbo"
  const DefaultMaxTokens: int := 1000

  /** A message as it is sent. */
  function ToEntry(m: Message): Entry {
    Entry(m.role, m.content)
  }

  /** The history as it is sent: one entry per message, in order, each with
      the message's role and content. */
  function Entries(ms: seq<Message>): (r: seq<Entry>)
    ensures |r| == |ms|
    ensures forall i :: 0 <= i < |ms| ==> r[i].role == ms[i].role && r[i].content == ms[i].content
  {
    if ms == [] then [] else Entries(ms[..|ms| - 1]) + [ToEntry(ms[|ms| - 1])]
  }

  /** One more message adds its entry at the end. */
  lemma EntriesSnoc(ms: seq<Message>, m: Message)
    ensures Entries(ms + [m]) == Entries(ms) + [Entry(m.role, m.content)]
  {
    assert (ms + [m])[..|ms|] == ms;
  }

  class Conversation {
    var model: string
    var maxTokens: int
    var messages: seq<Message>

    /** The history starts with the system instruction, and no other message
        is a system message. */
    predicate Valid()
      reads this
    {
      && |messages| >= 1
      && messages[0] == SystemMessage
      && forall i :: 1 <= i < |messages| ==> messages[i].role != Some(SystemRole)
    }

    /** A new conversation: its history is the message made from neither a
        role nor a content, the system instruction. */
    constructor (model: string := DefaultModel, maxTokens: int := DefaultMaxTokens)
      ensures this.model == model && this.maxTokens == maxTokens
      ensures messages == [SystemMessage]
      ensures Valid()
    {
      this.model := model;
      this.maxTokens := maxTokens;
      messages := [NewMessage(None, None)];
    }

    /** A user turn: the prompt joins the history, a response is requested
        with the history as entries (ending with the prompt), and the reply
        joins the history. An exception while streaming leaves the prompt in
        the history without a reply. */
    method NewUserMessage(prompt: string, fragments: seq<Fragment>, width: nat) returns (response: Response)
      modifies this`messages
      ensures fresh(response)
      ensures response.request == Request(model, maxTokens, Entries(old(messages)) + [Entry(Some(UserRole), Some(prompt))])
      ensures var o := Run(Start(None), Flatten(fragments), width);
        && response.terminal == o.out
        && response.raised == (if o.Raised? then Some(o.fault) else None)
      ensures messages == old(messages) + [Prompt(prompt)] +
        (if response.raised.None? then [Message(Some(AssistantRole), Some(Flatten(fragments)))] else [])
      ensures old(Valid()) ==> Valid()
    {
      response := Ask(prompt, fragments, width);
      if response.raised.None? {
        messages := messages + [Message(response.role, response.content)];
      }
    }

    /** The first half of a user turn: the prompt joins the history and the
        response is created with the history as entries. */
    method Ask(prompt: string, fragments: seq<Fragment>, width: nat) returns (response: Response)
      modifies this`messages
      ensures fresh(response)
      ensures messages == old(messages) + [Prompt(prompt)]
      ensures response.request == Request(model, maxTokens, Entries(old(messages)) + [Entry(Some(UserRole), Some(prompt))])
      ensures var o := Run(Start(None), Flatten(fragments), width);
        && response.terminal == o.out
        && response.raised == (if o.Raised? then Some(o.fault) else None)
      ensures response.raised.None? ==> response.role == Some(AssistantRole) && response.content == Some(Flatten(fragments))
    {
      messages := messages + [Prompt(prompt)];
      var history := AsList();
      EntriesSnoc(old(messages), Prompt(prompt));
      response := new Response(model, maxTokens, history, fragments, width);
    }

    /** `as_list`: the history as entries, built one message at a time. */
    method AsList() returns (r: seq<Entry>)
      ensures r == Entries(messages)
    {
      r := [];
      var i := 0;
      while i < |messages|
        invariant 0 <= i <= |messages|
        invariant r == Entries(messages[..i])
      {
        assert messages[..i + 1][..i] == messages[..i];
        r := r + [Entry(messages[i].role, messages[i].content)];
        i := i + 1;
      }
      assert messages[..i] == messages;
    }

    /** `clear`: deletes every message after the first, which stays as it
        was. */
    method Clear()
      modifies this`messages
      ensures messages == old(messages)[..if |old(messages)| == 0 then 0 else 1]
      ensures old(Valid()) ==> Valid() && messages == [SystemMessage]
    {
      if |messages| > 1 {
        messages := messages[..1];
      }
    }

    /** `change_last_message`: deletes the last two messages, or every
        message when there are fewer than two. */
    method ChangeLastMessage()
      modifies this`messages
      ensures |old(messages)| >= 2 ==> messages == old(messages)[..|old(messages)| - 2]
      ensures |old(messages)| < 2 ==> messages == []
      ensures old(Valid()) && |old(messages)| >= 3 ==> Valid()
    {
      if |messages| >= 2 {
        messages := messages[..|messages| - 2];
      } else {
        messages := [];
      }
    }

    /** The `model` setter: any value, nothing else changes. */
    method SetModel(value: string)
      modifies this`model
      ensures model == value
    {
      model := value;
    }

    /** The `max_tokens` setter: any value, nothing else changes. */
    method SetMaxTokens(value: int)
      modifies this`maxTokens
      ensures maxTokens == value
    {
      maxTokens := value;
    }
  }
}
