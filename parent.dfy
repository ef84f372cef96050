/** `CommandParent` (lib/CommandParent.js): a command whose first argument
    names a sub-command. It is built from a list of children, indexes them
    under every name they answer to, records how deeply parents nest, and
    hands a message on to the child its first token names.

    The source's `CommandParent` extends `Command`; here it holds the
    `Command` it is built as (`command`) and adds its own state. */
module Parent {
  import opened Common
  import opened Commands
  import opened Messages

  /** A child: a plain command or a nested parent. */
  datatype Child = Leaf(command: Command) | Nested(parent: CommandParent)

  /** An entry of `data.children`: a child, or a value that is not a
      command and has no `names` method. */
  datatype ChildInput = IsChild(child: Child) | Foreign

  /** `data.children`: falsy, something that is not an array (whose `length`
      may or may not be 0), or an array. */
  datatype ChildrenInput = Falsy | NotArray(lengthIsZero: bool) | ArrayOf(items: seq<ChildInput>)

  /** What the constructor throws: the `Error` for missing children, the
      `TypeError` for a non-array, the `TypeError` of the child guard, the
      `TypeError` of calling `names` on a value that has none, and what
      `super(data)` throws. */
  datatype ConstructError = NoChildren | ChildrenNotArray | ChildNotCommand | NamesNotAFunction | BadArg(cause: CommandError)

  /** How a run fails: `reply` called on a value that has none, or the
      undeclared `subCommand` read. */
  datatype Fault = ReplyNotAFunction | SubCommandUndefined

  /** The outcome of `run` or `act`: a reply sent, the message handed to a
      child's `run`, or an error thrown. `run` is `async`, so an error in it,
      or in the `act` it calls, rejects its promise; `act` is not, so called
      directly it throws synchronously. */
  datatype RunResult = Replied(text: string) | Delegated(child: Child) | Rejected(fault: Fault)

  /** An argument of `act` as written: a string, or the message object. */
  datatype Value = Str(s: string) | Msg(m: Message)

  const SubCommandNotProvided := "Please provide a sub-command to run."
  const SubCommandFail := "Hmm, that sub-command doesn't seem to exist. Sorry about that."

  /** `child.names()`. */
  function ChildNames(c: Child): seq<string> {
    match c
    case Leaf(command) => command.Names()
    case Nested(p) => p.command.Names()
  }

  /** `child.depth` for a parent; plain commands do not count. */
  function ChildDepth(c: Child): nat {
    match c
    case Leaf(_) => 0
    case Nested(p) => p.depth
  }

  // ----- constructor checks -----

  /** The child guard as evidently intended: throw for anything that is not
      a command. */
  predicate ChildGuard(c: ChildInput) {
    c.Foreign?
  }

  /** The child guard as written, `!child instanceof Command`: the negation
      binds first, and a boolean is never a `Command` instance. */
  predicate ChildGuardAsWritten(c: ChildInput) {
    false
  }

  /** The guard as written lets every value through, while the intended
      guard stops exactly the values that are not commands. */
  lemma ChildGuardNeverFires(c: ChildInput)
    ensures !ChildGuardAsWritten(c)
    ensures ChildGuard(c) <==> !c.IsChild?
  {
  }

  /** The checks before `super(data)`, with the intended guard: `None` when
      the constructor goes on. */
  function ChildrenCheck(input: ChildrenInput): Option<ConstructError> {
    match input
    case Falsy => Some(NoChildren)
    case NotArray(lengthIsZero) => if lengthIsZero then Some(NoChildren) else Some(ChildrenNotArray)
    case ArrayOf(items) =>
      if |items| == 0 then Some(NoChildren)
      else if exists i :: 0 <= i < |items| && ChildGuard(items[i]) then Some(ChildNotCommand)
      else None
  }

  /** The same checks as written: the guard never fires, so a value that
      is not a command fails when its `names` is called. */
  function ChildrenCheckAsWritten(input: ChildrenInput): Option<ConstructError> {
    match input
    case Falsy => Some(NoChildren)
    case NotArray(lengthIsZero) => if lengthIsZero then Some(NoChildren) else Some(ChildrenNotArray)
    case ArrayOf(items) =>
      if |items| == 0 then Some(NoChildren)
      else if exists i :: 0 <= i < |items| && ChildGuardAsWritten(items[i]) then Some(ChildNotCommand)
      else if exists i :: 0 <= i < |items| && items[i].Foreign? then Some(NamesNotAFunction)
      else None
  }

  /** The constructor goes on exactly for a non-empty array of children;
      missing or empty children raise `Error`, anything else `TypeError`.
      As written the same inputs are refused, but a value that is not a
      command is refused by `names`, never by the guard. */
  lemma ChecksAgree(input: ChildrenInput)
    ensures ChildrenCheck(input).None? <==>
              input.ArrayOf? && |input.items| > 0 && forall i :: 0 <= i < |input.items| ==> input.items[i].IsChild?
    ensures ChildrenCheck(input) == Some(NoChildren) <==>
              input.Falsy? || (input.NotArray? && input.lengthIsZero) || (input.ArrayOf? && |input.items| == 0)
    ensures ChildrenCheckAsWritten(input).None? <==> ChildrenCheck(input).None?
    ensures ChildrenCheck(input) == Some(ChildNotCommand) <==> ChildrenCheckAsWritten(input) == Some(NamesNotAFunction)
    ensures ChildrenCheckAsWritten(input) != Some(ChildNotCommand)
  {
  }

  /** The children of an array that passed the checks. */
  function Accepted(items: seq<ChildInput>): (r: seq<Child>)
    requires forall i :: 0 <= i < |items| ==> items[i].IsChild?
    ensures |r| == |items| && forall i :: 0 <= i < |items| ==> r[i] == items[i].child
  {
    seq(|items|, i requires 0 <= i < |items| => items[i].child)
  }

  // ----- the children collection and the depth -----

  /** `m` after `set(name, child)` for each name of `names`, in order. */
  function SetNames(m: map<string, Child>, names: seq<string>, c: Child): map<string, Child>
    decreases |names|
  {
    if |names| == 0 then m else SetNames(m, names[..|names| - 1], c)[names[|names| - 1] := c]
  }

  /** The children collection after the first children are indexed. */
  function ChildMap(items: seq<Child>): map<string, Child>
    decreases |items|
  {
    if |items| == 0 then map[]
    else
      var last := items[|items| - 1];
      SetNames(ChildMap(items[..|items| - 1]), ChildNames(last), last)
  }

  /** The largest `depth` among the parents in `items`, or 0. */
  function MaxDepth(items: seq<Child>): nat
    decreases |items|
  {
    if |items| == 0 then 0
    else
      var d := MaxDepth(items[..|items| - 1]);
      var last := ChildDepth(items[|items| - 1]);
      if last > d then last else d
  }

  lemma {:induction false} SetNamesAt(m: map<string, Child>, names: seq<string>, c: Child, n: string)
    ensures n in names ==> n in SetNames(m, names, c) && SetNames(m, names, c)[n] == c
    ensures n !in names ==> (n in SetNames(m, names, c) <==> n in m) && (n in m ==> SetNames(m, names, c)[n] == m[n])
    decreases |names|
  {
    if |names| > 0 {
      var init := names[..|names| - 1];
      assert names == init + [names[|names| - 1]];
      SetNamesAt(m, init, c, n);
    }
  }

  /** A name is a key exactly when some child answers to it, as given, not
      lower-cased. */
  lemma {:induction false} ChildMapKeys(items: seq<Child>, n: string)
    ensures n in ChildMap(items) <==> exists i :: 0 <= i < |items| && n in ChildNames(items[i])
    decreases |items|
  {
    if |items| > 0 {
      var init, last := items[..|items| - 1], items[|items| - 1];
      ChildMapKeys(init, n);
      SetNamesAt(ChildMap(init), ChildNames(last), last, n);
      if exists i :: 0 <= i < |items| && n in ChildNames(items[i]) {
        var i :| 0 <= i < |items| && n in ChildNames(items[i]);
        if i < |items| - 1 {
          assert init[i] == items[i];
        }
      }
    }
  }

  /** A name shared by several children maps to the last of them. */
  lemma {:induction false} LastChildWins(items: seq<Child>, n: string, i: nat)
    requires i < |items| && n in ChildNames(items[i])
    requires forall j :: i < j < |items| ==> n !in ChildNames(items[j])
    ensures n in ChildMap(items) && ChildMap(items)[n] == items[i]
    decreases |items|
  {
    var init, last := items[..|items| - 1], items[|items| - 1];
    SetNamesAt(ChildMap(init), ChildNames(last), last, n);
    if i < |items| - 1 {
      LastChildWins(init, n, i);
    }
  }

  /** The depth bound: no parent child is deeper than `MaxDepth`, and unless
      there is no parent child, one of them reaches it. */
  lemma {:induction false} MaxDepthIsMax(items: seq<Child>)
    ensures forall i :: 0 <= i < |items| ==> ChildDepth(items[i]) <= MaxDepth(items)
    ensures MaxDepth(items) == 0 || exists i :: 0 <= i < |items| && ChildDepth(items[i]) == MaxDepth(items)
    decreases |items|
  {
    if |items| > 0 {
      var init := items[..|items| - 1];
      MaxDepthIsMax(init);
      forall i | 0 <= i < |items| - 1 ensures ChildDepth(items[i]) <= MaxDepth(items) {
        assert init[i] == items[i];
      }
      if MaxDepth(items) != ChildDepth(items[|items| - 1]) && MaxDepth(items) != 0 {
        var i :| 0 <= i < |init| && ChildDepth(init[i]) == MaxDepth(init);
        assert items[i] == init[i];
      }
    }
  }

  /** Plain commands only: depth 1. */
  lemma {:induction false} MaxDepthOfLeaves(items: seq<Child>)
    requires forall i :: 0 <= i < |items| ==> items[i].Leaf?
    ensures MaxDepth(items) == 0
    decreases |items|
  {
    if |items| > 0 {
      MaxDepthOfLeaves(items[..|items| - 1]);
    }
  }

  class CommandParent {
    /** The command the parent is built as. */
    const command: Command
    /** The children collection: every name of every child, as given. */
    const children: map<string, Child>
    const depth: nat
    const subCommandNotProvided: string
    const subCommandFail: string

    /** `new CommandParent(data)` once the checks pass: the children are
        indexed under their names, the depth is one more than the deepest
        parent child, and the command built from `data` takes any number of
        arguments while still demanding its required ones. */
    constructor(options: CommandOptions, items: seq<Child>)
      requires |items| > 0 && Normalized(options.args.GetOr([])).Success?
      ensures fresh(command)
      ensures command.name == options.name && command.aliases == options.aliases.GetOr([])
      ensures command.args == Normalized(options.args.GetOr([])).value
      ensures command.maxArgs == Infinite && command.minArgs == CountRequired(command.args)
      ensures command.disabled == options.disabled.GetOr(false) && command.Valid()
      ensures children == ChildMap(items)
      ensures depth == MaxDepth(items) + 1
      ensures subCommandNotProvided == SubCommandNotProvided && subCommandFail == SubCommandFail
    {
      var m: map<string, Child> := map[];
      var d: nat := 0;
      var i := 0;
      while i < |items|
        invariant 0 <= i <= |items|
        invariant m == ChildMap(items[..i]) && d == MaxDepth(items[..i])
      {
        TakeSnoc(items, i);
        var child := items[i];
        var names := ChildNames(child);
        ghost var before := m;
        var j := 0;
        while j < |names|
          invariant 0 <= j <= |names|
          invariant m == SetNames(before, names[..j], child)
        {
          TakeSnoc(names, j);
          m := m[names[j] := child];
          j := j + 1;
        }
        assert names[..j] == names;
        if child.Nested? && child.parent.depth > d {
          d := child.parent.depth;
        }
        i := i + 1;
      }
      assert items[..i] == items;
      var c := new Command(options);
      c.maxArgs := Infinite;
      command := c;
      children := m;
      depth := d + 1;
      subCommandNotProvided := SubCommandNotProvided;
      subCommandFail := SubCommandFail;
    }

    /** `msg.reply(text)`. */
    function Reply(msg: Message, text: string): (r: RunResult)
      ensures r.Replied? <==> msg.hasReply
      ensures r.Replied? ==> r.text == text
    {
      if msg.hasReply then Replied(text) else Rejected(ReplyNotAFunction)
    }

    /** `act(action, msg)` as evidently intended: reply `subCommandFail`
        when no child answers to `action`, otherwise hand the message to
        that child. */
    function Act(action: string, msg: Message): (r: RunResult)
      ensures r.Delegated? <==> action in children
      ensures r.Delegated? ==> r.child == children[action]
      ensures action !in children ==> r == Reply(msg, subCommandFail)
    {
      if action !in children then Reply(msg, subCommandFail) else Delegated(children[action])
    }

    /** `act(action, msg)` as written: the found child is looked up under
        `subCommand`, which is not declared in `act`, so finding a child
        throws a `ReferenceError` (synchronously: `act` is not `async`); the
        reply goes to whatever was passed as `msg`. */
    function ActAsWritten(action: Value, msg: Value): (r: RunResult)
      ensures !r.Delegated?
      ensures action.Str? && action.s in children ==> r == Rejected(SubCommandUndefined)
    {
      if !(action.Str? && action.s in children) then
        if msg.Msg? && msg.m.hasReply then Replied(subCommandFail) else Rejected(ReplyNotAFunction)
      else Rejected(SubCommandUndefined)
    }

    /** `run(msg)` as evidently intended: without arguments reply
        `subCommandNotProvided`; otherwise shift the first token off
        `msg.args` and act on it lower-cased. */
    method Run(msg: Message) returns (r: RunResult)
      modifies msg
      ensures msg.commandName == old(msg.commandName)
      ensures |old(msg.args)| == 0 ==> r == Reply(msg, subCommandNotProvided) && msg.args == old(msg.args)
      ensures |old(msg.args)| > 0 ==> msg.args == old(msg.args)[1..] && r == Act(Lower(old(msg.args)[0]), msg)
      ensures r.Delegated? <==> |old(msg.args)| > 0 && Lower(old(msg.args)[0]) in children
    {
      if |msg.args| == 0 {
        return Reply(msg, subCommandNotProvided);
      }
      var subCommand := Lower(msg.args[0]);
      msg.args := msg.args[1..];
      return Act(subCommand, msg);
    }

    /** `run(msg)` as written: `act(msg, subCommand)` passes the message as
        the action and the sub-command as the message, so no child is found
        and the `reply` of a string is called. */
    method RunAsWritten(msg: Message) returns (r: RunResult)
      modifies msg
      ensures msg.commandName == old(msg.commandName)
      ensures |old(msg.args)| == 0 ==> r == Reply(msg, subCommandNotProvided) && msg.args == old(msg.args)
      ensures |old(msg.args)| > 0 ==> msg.args == old(msg.args)[1..] && r == Rejected(ReplyNotAFunction)
    {
      if |msg.args| == 0 {
        return Reply(msg, subCommandNotProvided);
      }
      var subCommand := Lower(msg.args[0]);
      msg.args := msg.args[1..];
      return ActAsWritten(Msg(msg), Str(subCommand));
    }
  }

  /** `new CommandParent(data)` as written: the checks on the children,
      where a value that is not a command gets past the guard and fails in
      `names`; then `super(data)`, which throws for a `null` entry of
      `args`; then the construction. */
  method Build(options: CommandOptions, input: ChildrenInput) returns (r: Result<CommandParent, ConstructError>)
    ensures r.Failure? <==> ChildrenCheckAsWritten(input).Some? || Normalized(options.args.GetOr([])).Failure?
    ensures ChildrenCheckAsWritten(input).Some? ==> r == Failure(ChildrenCheckAsWritten(input).value)
    ensures ChildrenCheckAsWritten(input).None? && Normalized(options.args.GetOr([])).Failure? ==> r == Failure(BadArg(NullArg))
    ensures r.Success? ==> input.ArrayOf? && ChildrenCheck(input).None? && fresh(r.value)
    ensures r.Success? ==> var items := Accepted(input.items);
              r.value.children == ChildMap(items) && r.value.depth == MaxDepth(items) + 1
              && r.value.command.maxArgs == Infinite && r.value.command.minArgs == CountRequired(r.value.command.args)
  {
    var check := ChildrenCheckAsWritten(input);
    if check.Some? {
      return Failure(check.value);
    }
    ChecksAgree(input);
    var normalized := Normalized(options.args.GetOr([]));
    if normalized.Failure? {
      return Failure(BadArg(normalized.error));
    }
    var p := new CommandParent(options, Accepted(input.items));
    return Success(p);
  }

  /** A parent whose children are all plain commands has depth 1; each
      parent child makes it deeper than that child. */
  lemma DepthBounds(p: CommandParent, items: seq<Child>)
    requires p.depth == MaxDepth(items) + 1
    ensures forall i :: 0 <= i < |items| && items[i].Nested? ==> p.depth > items[i].parent.depth
    ensures (forall i :: 0 <= i < |items| ==> items[i].Leaf?) ==> p.depth == 1
  {
    MaxDepthIsMax(items);
    if forall i :: 0 <= i < |items| ==> items[i].Leaf? {
      MaxDepthOfLeaves(items);
    }
  }

  /** Children keys keep their case but the sub-command is lower-cased: a
      child named `Add` is stored under `Add`, and `run` with the token
      `Add` asks for `add`, which no child answers to. */
  lemma MixedCaseChildUnreachable(p: CommandParent, c: Command, msg: Message)
    requires c.name == "Add" && c.aliases == [] && p.children == ChildMap([Leaf(c)])
    ensures "Add" in p.children && p.children["Add"] == Leaf(c)
    ensures p.Act(Lower("Add"), msg) == p.Reply(msg, p.subCommandFail)
  {
    assert [Leaf(c)][..0] == [];
    SetNamesAt(map[], ["Add"], Leaf(c), "Add");
    SetNamesAt(map[], ["Add"], Leaf(c), "add");
    assert LowerChar('A') == 'a';
    assert Lower("Add") == "add";
  }

  /** For a message with a reply function, `run` as written rejects on
      every sub-command, while as intended a token naming a child hands
      the message to that child. */
  lemma RunFixed(p: CommandParent, msg: Message, action: string)
    requires msg.hasReply && action in p.children
    ensures p.ActAsWritten(Msg(msg), Str(action)) == Rejected(ReplyNotAFunction)
    ensures p.ActAsWritten(Str(action), Msg(msg)) == Rejected(SubCommandUndefined)
    ensures p.Act(action, msg) == Delegated(p.children[action])
  {
  }
}
