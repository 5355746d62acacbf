/** The chat message shown in the conversation view: who said it, what
    was said, and when. */
module Messages {

  datatype Role = User | Assistant

  /** `time` is the instant the message belongs to; `ChatInterface` shows it as a
      locale "hh:mm" string, a formatting step this model does not include. */
  datatype Message = Message(role: Role, content: string, time: nat)
}
