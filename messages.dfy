/** The message object `process` and a parent's `run` receive: the command
    name the user typed, the argument tokens, and whether it carries a
    `reply` function. */
module Messages {

  class Message {
    /** `message.commandName`; the empty string stands for a missing
        (falsy) name. */
    var commandName: string
    var args: seq<string>
    const hasReply: bool

    constructor(commandName: string, args: seq<string>, hasReply: bool)
      ensures this.commandName == commandName && this.args == args && this.hasReply == hasReply
    {
      this.commandName := commandName;
      this.args := args;
      this.hasReply := hasReply;
    }
  }
}
