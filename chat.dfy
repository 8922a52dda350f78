/**
 * The studio's chat window. The transcript opens with one greeting from the assistant;
 * every send appends the visitor's turn at once and a canned assistant reply one second later.
 */
module Chat {
  import opened Strings

  datatype Role = User | Assistant

  datatype Message = Message(role: Role, content: string)

  const Greeting := Message(Assistant, "Hello! I'm your AI guide at Codmek Studio. How can I help you explore our workspace today?")

  const CannedReply := Message(Assistant,
    "I'm here to help you navigate Codmek Studio. You can explore our Research Pod for AI innovations, "
    + "the Workshop for prototyping, or ask me about any of our divisions!")

  /** The number of turns in `messages` spoken by `role`. */
  function CountRole(messages: seq<Message>, role: Role): (n: nat)
    ensures n <= |messages|
  {
    if messages == [] then 0
    else CountRole(messages[..|messages| - 1], role) + (if messages[|messages| - 1].role == role then 1 else 0)
  }

  lemma CountRoleAppend(messages: seq<Message>, m: Message, role: Role)
    ensures CountRole(messages + [m], role) == CountRole(messages, role) + (if m.role == role then 1 else 0)
  {
    assert (messages + [m])[..|messages|] == messages;
  }

  class ChatWindow {
    var messages: seq<Message>
    var input: string
    /** Replies scheduled and not yet delivered. */
    var pendingReplies: nat
    /** Sends that passed the blank-input guard. */
    var sends: nat

    /**
     * The greeting stays first; there is one visitor turn per accepted send; and every
     * assistant turn after the greeting answers a send whose reply has been delivered.
     */
    predicate Valid()
      reads this
    {
      |messages| >= 1 && messages[0] == Greeting
      && CountRole(messages, User) == sends
      && pendingReplies <= sends
      && CountRole(messages, Assistant) == 1 + sends - pendingReplies
    }

    constructor()
      ensures messages == [Greeting] && input == "" && pendingReplies == 0 && sends == 0
      ensures Valid()
    {
      messages := [Greeting];
      input := "";
      pendingReplies := 0;
      sends := 0;
      assert [Greeting][..0] == [];
    }

    /** The input box's change handler; a single-line input hands over the text without line breaks. */
    method Type(text: string)
      requires Valid()
      modifies this
      ensures input == StripNewlines(text)
      ensures messages == old(messages) && pendingReplies == old(pendingReplies) && sends == old(sends)
      ensures Valid()
    {
      input := StripNewlines(text);
    }

    /**
     * `handleSend`: blank input changes nothing; otherwise the visitor's turn, untrimmed,
     * is appended, a reply is scheduled and the input is cleared.
     */
    method Send()
      requires Valid()
      modifies this
      ensures AllWhitespace(old(input)) ==>
                messages == old(messages) && input == old(input)
                && pendingReplies == old(pendingReplies) && sends == old(sends)
      ensures !AllWhitespace(old(input)) ==>
                messages == old(messages) + [Message(User, old(input))] && input == ""
                && pendingReplies == old(pendingReplies) + 1 && sends == old(sends) + 1
      ensures Valid()
    {
      TrimEmptyIffBlank(input);
      if Trim(input) != "" {
        CountRoleAppend(messages, Message(User, input), User);
        CountRoleAppend(messages, Message(User, input), Assistant);
        messages := messages + [Message(User, input)];
        pendingReplies := pendingReplies + 1;
        sends := sends + 1;
        input := "";
      }
    }

    /** A scheduled reply is delivered: the canned text, whatever the visitor wrote. */
    method ReplyFires()
      requires Valid() && pendingReplies >= 1
      modifies this
      ensures messages == old(messages) + [CannedReply]
      ensures input == old(input) && pendingReplies == old(pendingReplies) - 1 && sends == old(sends)
      ensures Valid()
    {
      CountRoleAppend(messages, CannedReply, User);
      CountRoleAppend(messages, CannedReply, Assistant);
      messages := messages + [CannedReply];
      pendingReplies := pendingReplies - 1;
    }
  }

  /** Every turn is the visitor's or the assistant's. */
  lemma {:induction false} RolesPartition(messages: seq<Message>)
    ensures CountRole(messages, User) + CountRole(messages, Assistant) == |messages|
    decreases |messages|
  {
    if messages != [] {
      RolesPartition(messages[..|messages| - 1]);
    }
  }

  /**
   * The transcript holds the greeting, one turn per accepted send and one reply per
   * delivered timer, so the assistant's replies never outnumber the visitor's sends.
   */
  lemma TranscriptShape(chat: ChatWindow)
    requires chat.Valid()
    ensures |chat.messages| == 1 + 2 * chat.sends - chat.pendingReplies
    ensures CountRole(chat.messages, Assistant) - 1 <= CountRole(chat.messages, User)
  {
    RolesPartition(chat.messages);
  }
}
