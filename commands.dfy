/** `Command` (lib/Command.js:165-331): a command's declared options, its
    argument slots and the arity derived from them, and the usage and help
    text it renders. */
module Commands {
  import opened Common
  import opened CommandArgs

  /** `maxArgs`: a count, or `Number.POSITIVE_INFINITY`. */
  datatype Arity = Finite(n: nat) | Infinite {
    /** `count > maxArgs`; nothing exceeds infinity. */
    predicate Exceeded(count: nat) {
      Finite? && count > n
    }
  }

  /** An entry of the `args` option before the constructor normalises it: a
      `CommandArg` instance, a class the constructor instantiates (`made` is
      the instance it yields), a plain object, `null` (which `typeof` also
      calls an object), a string, or anything else. In a plain object an
      absent `required` or `hide` is `None`. */
  datatype RawArg =
    | Instance(arg: CommandArg)
    | Factory(made: CommandArg)
    | Record(name: string, argType: Option<string>, required: Option<bool>, hide: Option<bool>)
    | Null
    | Text(s: string)
    | Other

  /** What the constructor throws: the `TypeError` of reading `name` of a
      `null` entry of `args`. */
  datatype CommandError = NullArg

  /** One step of the constructor's `this.args.map(...)`: `null` takes the
      plain-object branch and throws there. */
  function NormalizeArg(raw: RawArg): (r: Result<CommandArg, CommandError>)
    ensures r.Failure? <==> raw.Null?
    ensures raw.Instance? ==> r == Success(raw.arg)
    ensures raw.Factory? ==> r == Success(raw.made)
    ensures raw.Text? ==> r == Success(CommandArg(raw.s, None, true, false))
    ensures raw.Record? ==> r.Success? && r.value.name == raw.name && r.value.argType == raw.argType
                            && r.value.required == raw.required.GetOr(true) && r.value.hide == raw.hide.GetOr(false)
    ensures raw.Other? ==> r == Success(CommandArg("UnknownArg", None, true, false))
  {
    match raw
    case Instance(a) => Success(a)
    case Factory(a) => Success(a)
    case Record(n, t, req, h) => Success(CommandArg(n, t, req.GetOr(true), h.GetOr(false)))
    case Null => Failure(NullArg)
    case Text(s) => Success(CommandArg(s, None, true, false))
    case Other => Success(CommandArg("UnknownArg", None, true, false))
  }

  /** `this.args.map(...)`: every entry normalised, or the throw of the
      first `null` entry. */
  function Normalized(raw: seq<RawArg>): (r: Result<seq<CommandArg>, CommandError>)
    ensures r.Failure? <==> exists i :: 0 <= i < |raw| && raw[i].Null?
    ensures r.Success? ==> |r.value| == |raw| && forall i :: 0 <= i < |raw| ==> Success(r.value[i]) == NormalizeArg(raw[i])
  {
    if exists i :: 0 <= i < |raw| && raw[i].Null? then Failure(NullArg)
    else Success(seq(|raw|, i requires 0 <= i < |raw| => NormalizeArg(raw[i]).value))
  }

  /** `args.filter((arg) => arg.required).length`. */
  function CountRequired(args: seq<CommandArg>): (r: nat)
    ensures r <= |args|
    ensures r == |args| <==> forall i :: 0 <= i < |args| ==> args[i].required
    decreases |args|
  {
    if |args| == 0 then 0
    else CountRequired(args[..|args| - 1]) + (if args[|args| - 1].required then 1 else 0)
  }

  lemma CountRequiredAppend(args: seq<CommandArg>, a: CommandArg)
    ensures CountRequired(args + [a]) == CountRequired(args) + (if a.required then 1 else 0)
  {
    assert (args + [a])[..|args|] == args;
  }

  /** The options a command is built from; `None` is an option not given,
      which takes the constructor's default. */
  datatype CommandOptions = CommandOptions(
    name: string,
    commandType: Option<string>,
    description: Option<string>,
    aliases: Option<seq<string>>,
    args: Option<seq<RawArg>>,
    examples: Option<seq<string>>,
    help: Option<string>,
    usage: Option<string>,
    allowedUsers: Option<seq<string>>,
    disabled: Option<bool>)

  class Command {
    const name: string
    const aliases: seq<string>
    /** The source's `type`: `"command"` unless the options say otherwise. */
    const commandType: string
    const description: string
    const examples: seq<string>
    /** Kept as given; nothing in the core reads it. */
    const help: string
    /** A usage text that replaces the generated one when it is a non-empty
        string. */
    const usage: Option<string>
    const allowedUsers: seq<string>
    var args: seq<CommandArg>
    var minArgs: nat
    var maxArgs: Arity
    /** Copied from the options like every other property; unset means not
        disabled. */
    var disabled: bool

    /** What the constructor establishes and `addInfiniteArgs` keeps: no
        more arguments are demanded than there are required slots, and a
        finite bound is the number of slots. */
    ghost predicate Valid()
      reads this
    {
      minArgs <= CountRequired(args) && (maxArgs.Finite? ==> maxArgs.n == |args|)
    }

    /** `new Command(options)` (lib/Command.js:171-221) when it does not
        throw; `Construct` below is the call that may. */
    constructor(options: CommandOptions)
      requires Normalized(options.args.GetOr([])).Success?
      ensures name == options.name && aliases == options.aliases.GetOr([])
      ensures commandType == options.commandType.GetOr("command")
      ensures description == options.description.GetOr("") && examples == options.examples.GetOr([])
      ensures help == options.help.GetOr("") && usage == options.usage
      ensures allowedUsers == options.allowedUsers.GetOr([])
      ensures args == Normalized(options.args.GetOr([])).value
      ensures maxArgs == Finite(|args|) && minArgs == CountRequired(args)
      ensures (forall i :: 0 <= i < |options.args.GetOr([])| ==> options.args.GetOr([])[i].Text?) ==> minArgs == |args|
      ensures disabled == options.disabled.GetOr(false) && Valid()
    {
      name := options.name;
      aliases := options.aliases.GetOr([]);
      commandType := options.commandType.GetOr("command");
      description := options.description.GetOr("");
      examples := options.examples.GetOr([]);
      help := options.help.GetOr("");
      usage := options.usage;
      allowedUsers := options.allowedUsers.GetOr([]);
      var normalized := Normalized(options.args.GetOr([])).value;
      args := normalized;
      maxArgs := Finite(|normalized|);
      minArgs := CountRequired(normalized);
      disabled := options.disabled.GetOr(false);
    }

    /** `addInfiniteArgs(name = 'text', type = 'String[]')`: the bound becomes
        infinite and one more slot is appended; the slot is built with the
        `CommandArg` constructor's default, so it is required. */
    method AddInfiniteArgs(argName: string := "text", argType: string := "String[]")
      modifies this
      ensures maxArgs == Infinite
      ensures args == old(args) + [CommandArg(argName, Some(argType), true, false)]
      ensures minArgs == old(minArgs) && disabled == old(disabled)
      ensures old(Valid()) ==> Valid()
    {
      CountRequiredAppend(args, CommandArg(argName, Some(argType), true, false));
      maxArgs := Infinite;
      args := args + [CommandArg(argName, Some(argType), true, false)];
    }

    /** `names()`: the name, then every alias. */
    function Names(): (r: seq<string>)
      ensures |r| == |aliases| + 1 && r[0] == name && r[1..] == aliases
      ensures forall n :: n in r <==> n == name || n in aliases
    {
      [name] + aliases
    }

    /** The usage statement `getUsageStatement` returns. */
    function UsageStatement(): string
      reads this
    {
      if usage.Some? && usage.value != "" then usage.value else name + UsageSuffix(args)
    }

    /** `getUsageStatement()`: the `usage` option when it is a non-empty
        string; otherwise the name, then `" " + fragment` for each slot whose
        fragment is not empty. */
    method GetUsageStatement() returns (s: string)
      ensures usage.Some? && usage.value != "" ==> s == usage.value
      ensures !(usage.Some? && usage.value != "") ==> s == name + UsageSuffix(args)
      ensures s == UsageStatement()
    {
      if usage.Some? && usage.value != "" {
        return usage.value;
      }
      s := name;
      var i := 0;
      while i < |args|
        invariant 0 <= i <= |args|
        invariant s == name + UsageSuffix(args[..i])
      {
        UsageSuffixSnoc(args, i);
        var fragment := Fragment(args[i]);
        if fragment != "" {
          AppendAssoc(name, UsageSuffix(args[..i]), " " + fragment);
          s := s + (" " + fragment);
        }
        i := i + 1;
      }
      assert args[..i] == args;
    }

    /** The lines `getHelpStatement` joins. */
    function HelpLines(): seq<string>
      reads this
    {
      ["Help - *" + name + "*", ""]
      + (if |aliases| > 0 then ["Also known as: `" + Join(aliases, "`, `") + "`"] else [])
      + ["Usage: `" + UsageStatement() + "`"]
      + (if |examples| > 0 then ["Examples:"] + ExampleLines(examples) else [])
      + (if description != "" then ["Description: `" + description + "`"] else [])
      + ["Type: " + commandType]
    }

    function ExampleLines(xs: seq<string>): (r: seq<string>)
      ensures |r| == |xs| && forall i :: 0 <= i < |xs| ==> r[i] == " `" + name + " " + xs[i] + "`"
    {
      seq(|xs|, i requires 0 <= i < |xs| => " `" + name + " " + xs[i] + "`")
    }

    /** The `for (const example of this.examples)` loop of
        `getHelpStatement`: one line per example, appended in order. */
    method PushExamples(lines: seq<string>) returns (r: seq<string>)
      ensures r == lines + ExampleLines(examples)
    {
      r := lines;
      var i := 0;
      while i < |examples|
        invariant 0 <= i <= |examples|
        invariant r == lines + ExampleLines(examples[..i])
      {
        assert ExampleLines(examples[..i + 1]) == ExampleLines(examples[..i]) + [" `" + name + " " + examples[i] + "`"];
        r := r + [" `" + name + " " + examples[i] + "`"];
        i := i + 1;
      }
      assert examples[..i] == examples;
    }

    /** `getHelpStatement()`: the help lines joined with newlines. */
    method GetHelpStatement() returns (s: string)
      ensures s == Join(HelpLines(), "\n")
    {
      var lines := ["Help - *" + name + "*", ""];
      if |aliases| > 0 {
        lines := lines + ["Also known as: `" + Join(aliases, "`, `") + "`"];
      }
      var usageText := GetUsageStatement();
      lines := lines + ["Usage: `" + usageText + "`"];
      ghost var head := lines;
      if |examples| > 0 {
        lines := lines + ["Examples:"];
        lines := PushExamples(lines);
      }
      ghost var ex := lines;
      if description != "" {
        lines := lines + ["Description: `" + description + "`"];
      }
      lines := lines + ["Type: " + commandType];
      HelpLinesParts(head, ex, lines);
      s := Join(lines, "\n");
    }

    lemma HelpLinesParts(head: seq<string>, withExamples: seq<string>, lines: seq<string>)
      requires head == ["Help - *" + name + "*", ""]
                       + (if |aliases| > 0 then ["Also known as: `" + Join(aliases, "`, `") + "`"] else [])
                       + ["Usage: `" + UsageStatement() + "`"]
      requires withExamples == head + (if |examples| > 0 then ["Examples:"] + ExampleLines(examples) else [])
      requires lines == withExamples + (if description != "" then ["Description: `" + description + "`"] else [])
                        + ["Type: " + commandType]
      ensures lines == HelpLines()
    {
    }
  }

  /** `new Command(options)`: throws for a `null` entry of `args`, and
      otherwise builds the command. */
  method Construct(options: CommandOptions) returns (r: Result<Command, CommandError>)
    ensures r.Failure? <==> exists i :: 0 <= i < |options.args.GetOr([])| && options.args.GetOr([])[i].Null?
    ensures r.Failure? ==> r.error == NullArg
    ensures r.Success? ==> fresh(r.value) && r.value.name == options.name
                           && r.value.args == Normalized(options.args.GetOr([])).value
                           && r.value.disabled == options.disabled.GetOr(false) && r.value.Valid()
  {
    var normalized := Normalized(options.args.GetOr([]));
    if normalized.Failure? {
      return Failure(normalized.error);
    }
    var c := new Command(options);
    return Success(c);
  }

  /** The help text: a header and a blank line first, the type last, and one
      line for every example, in order, after an `Examples:` line. */
  lemma HelpLinesShape(c: Command)
    ensures var lines := c.HelpLines();
            |lines| == 4 + (if |c.aliases| > 0 then 1 else 0)
                         + (if |c.examples| > 0 then 1 + |c.examples| else 0)
                         + (if c.description != "" then 1 else 0)
            && lines[0] == "Help - *" + c.name + "*" && lines[1] == ""
            && lines[|lines| - 1] == "Type: " + c.commandType
            && "Usage: `" + c.UsageStatement() + "`" in lines
            && forall e :: e in c.examples ==> " `" + c.name + " " + e + "`" in lines
  {
    var a := if |c.aliases| > 0 then ["Also known as: `" + Join(c.aliases, "`, `") + "`"] else [];
    var ex := if |c.examples| > 0 then ["Examples:"] + c.ExampleLines(c.examples) else [];
    var d := if c.description != "" then ["Description: `" + c.description + "`"] else [];
    var u := "Usage: `" + c.UsageStatement() + "`";
    ConcatShape("Help - *" + c.name + "*", a, u, ex, d, "Type: " + c.commandType);
    assert c.HelpLines() == ["Help - *" + c.name + "*", ""] + a + [u] + ex + d + ["Type: " + c.commandType];
    forall e | e in c.examples ensures " `" + c.name + " " + e + "`" in c.HelpLines() {
      var k :| 0 <= k < |c.examples| && c.examples[k] == e;
      assert ex[1 + k] == " `" + c.name + " " + e + "`";
    }
  }

  /** Where the parts of the help land among its lines. */
  lemma ConcatShape(header: string, a: seq<string>, u: string, ex: seq<string>, d: seq<string>, last: string)
    ensures var lines := [header, ""] + a + [u] + ex + d + [last];
            |lines| == 4 + |a| + |ex| + |d| && lines[0] == header && lines[1] == ""
            && lines[2 + |a|] == u && lines[|lines| - 1] == last
            && forall k :: 0 <= k < |ex| ==> lines[3 + |a| + k] == ex[k]
  {
  }
}
