/** The shared chat state container: a message list and a typing flag. */
module ChatContext {
  import opened Wrappers
  import opened Messages

  /** A message as the container stores it. Unlike `Message`, whose time is an
      instant, the container's type declares its timestamp as the display string. */
  datatype ChatMessage = ChatMessage(role: Role, content: string, timestamp: string)

  /** The state a `ChatProvider` holds. */
  class ChatStore {
    var messages: seq<ChatMessage>
    var isTyping: bool

    constructor ()
      ensures messages == [] && !isTyping
    {
      messages := [];
      isTyping := false;
    }

    /** Appends at the end; earlier messages and the flag are unchanged. */
    method AddMessage(message: ChatMessage)
      modifies this
      ensures messages == old(messages) + [message]
      ensures isTyping == old(isTyping)
    {
      messages := messages + [message];
    }

    method SetTypingStatus(status: bool)
      modifies this
      ensures isTyping == status
      ensures messages == old(messages)
    {
      isTyping := status;
    }

    /** Empties the list; the typing flag is left as it is. */
    method ClearMessages()
      modifies this
      ensures messages == []
      ensures isTyping == old(isTyping)
    {
      messages := [];
    }
  }

  const MissingProviderError: string := "useChat must be used within a ChatProvider"

  /** `useChat`: the nearest provider's store, or the error raised when the
      component is not inside a provider. */
  function UseChat(context: Option<ChatStore>): (r: Result<ChatStore, string>)
    ensures r.Failure? <==> context.None?
    ensures r.Failure? ==> r.error == MissingProviderError
    ensures r.Success? ==> r.value == context.value
  {
    if context.None? then Failure(MissingProviderError) else Success(context.value)
  }
}
