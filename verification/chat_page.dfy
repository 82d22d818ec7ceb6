/** The chat page (src/pages/chat/ChatPage.jsx): a draft and the list of sent
    messages. */
module ChatPage {
  import Text

  /** A sent message; `id` and `timestamp` come from the clock. */
  datatype Message = Message(id: int, text: string, sender: string, timestamp: int)

  /** `message.trim()` is truthy: the draft has a character that is not white
      space. */
  function ShouldSend(draft: string): (send: bool)
    ensures send <==> !Text.IsBlank(draft)
    ensures send <==> exists i :: 0 <= i < |draft| && !Text.IsSpace(draft[i])
  {
    Text.Trim(draft) != ""
  }

  class ChatState {
    var draft: string
    var messages: seq<Message>

    /** Every message was sent by "me" and has a non-blank text. */
    ghost predicate Valid()
      reads this
    {
      forall i :: 0 <= i < |messages| ==> messages[i].sender == "me" && !Text.IsBlank(messages[i].text)
    }

    constructor ()
      ensures Valid() && draft == "" && messages == []
    {
      draft := "";
      messages := [];
    }

    /** The input's `onChange`. */
    method SetDraft(text: string)
      modifies this
      ensures draft == text && messages == old(messages)
    {
      draft := text;
    }

    /** `handleSendMessage`: a draft that trims to nothing is not sent and stays;
        otherwise one message from "me" holding the draft as typed, untrimmed,
        goes at the end and the draft is emptied. */
    method HandleSendMessage(id: int, timestamp: int)
      requires Valid()
      modifies this
      ensures Valid()
      ensures !ShouldSend(old(draft)) ==> draft == old(draft) && messages == old(messages)
      ensures ShouldSend(old(draft)) ==>
        messages == old(messages) + [Message(id, old(draft), "me", timestamp)] && draft == ""
    {
      if ShouldSend(draft) {
        messages := messages + [Message(id, draft, "me", timestamp)];
        draft := "";
      }
    }

    /** The input's `onKeyPress`: Enter sends by the same rule, any other key does
        nothing. */
    method HandleKeyPress(key: string, id: int, timestamp: int)
      requires Valid()
      modifies this
      ensures Valid()
      ensures key != "Enter" ==> draft == old(draft) && messages == old(messages)
      ensures key == "Enter" && !ShouldSend(old(draft)) ==> draft == old(draft) && messages == old(messages)
      ensures key == "Enter" && ShouldSend(old(draft)) ==>
        messages == old(messages) + [Message(id, old(draft), "me", timestamp)] && draft == ""
    {
      if key == "Enter" {
        HandleSendMessage(id, timestamp);
      }
    }
  }
}
