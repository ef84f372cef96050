# frozor-commands core, modelled in Dafny

frozor-commands is a framework for chat-bot commands. This project models its core:

- Command: a command's declared options and argument slots, its arity, and the usage and help text it renders.
- CommandArg: a declared argument slot, with its usage fragment, the variable-arity helper, the free-form tokenizer `parseArgs` and the positional binder `parseCommandArgs`.
- CommandHandler: the registry of commands under their lower-cased names and aliases, which keeps the key order of a JavaScript `Map`. It also covers:
  - the `_create` flattener that turns what `register` is given into commands;
  - `register` and `unregister`;
  - the `process` pipeline (lookup, disabled check, arity checks, permission hook, log line, run);
  - the help listing and the iterator.
- CommandParent: a command whose first argument names a sub-command. It indexes its children under their names, records how deeply parents nest, and hands a message on to the named child.

Modules, one file each:

| file | module | models |
|---|---|---|
| `common.dfy` | `Common` | option and result types, ASCII lower-casing, `Array.prototype.join`, the key order of a `Map` |
| `command_args.dfy` | `CommandArgs` | `CommandArg`, `getUsageString`, `getVariableArgs`, `parseCommandArgs` |
| `arg_parser.dfy` | `ArgParser` | `parseArgs` and its two regular expressions |
| `commands.dfy` | `Commands` | class `Command` |
| `messages.dfy` | `Messages` | the message object `process` and `run` receive |
| `dispatch.dfy` | `Dispatcher` | the decision sequence of `process` |
| `handler.dfy` | `Handler` | `_create`, class `CommandHandler` |
| `parent.dfy` | `Parent` | class `CommandParent` |

Operations that update state in the source update state in the model:

- `Command`, `CommandHandler`, `CommandParent` and the message are classes.
- `parseArgs` works on an `array<string>` it writes back into, as the source does.
- Every loop of the source is a `while` loop with its invariants, proved against a specification function:
  - `Parse` for `parseArgs`;
  - `Flatten` for `_create`;
  - `IndexMany`, `Registered` and `GoneKeys` for registration;
  - `HelpText` for the help listing;
  - `Dedup` for the iterator;
  - `ChildMap` and `MaxDepth` for the parent's constructor.

The registry is a `map` from key to command plus a `seq` of its keys in insertion order. Two facts about the class are proved:

- `Valid()`: every key appears once and is lower-case. Every mutating method keeps it.
- `Indexed()`: every key is one of the keys of the command it maps to. Registration and removal keep it (lemmas `Handler.RegisteredIndexed` and `Handler.IndexedMinus`).

Some behaviours of the code are not what the doc comments describe. The model follows the code:

- `getHelpStatement()` uses `defaultHelpFilter` by default, which lists a command a second time under each alias that is not lower-case (`Handler.DefaultListingRepeats`).
- A `null` entry of `args` makes the `Command` constructor throw when it reads `name` (`Commands.Construct`).
- `parseArgs(['--flag', 'val', '--other=1'])` gives `{flag: 'val --other=1', '--other': '1'}`. This holds because the dash form's inner loop stops only after adding the last token, and the loop then visits that token again (`ArgParser.DashValueExample`).
- The doc comment of `getUsageString()` says square brackets mark a required argument and angle brackets an optional one. The code does the reverse: `<…>` when required, `[…]` when optional (`CommandArgs.Fragment`).
- `addInfiniteArgs` documents its slot as not required. The slot is built with the `CommandArg` default, so it is required (`Commands.Command.AddInfiniteArgs`).
- `_create` returns an empty array, not `null`, when no entry yields a command but some entry yields `null` (for example a number), because that `null` is pushed before the filter. An entry that yields an empty array pushes nothing, so an object whose only entry is `[5]` still gives `null` (`Handler.CreateExamples`).
- `unregister` deletes every key of a given command, even a key that now maps to another command (`Handler.CommandHandler.Unregister`).
- `CommandParent` stores children under their names as given, but `run` lower-cases the sub-command. A child cannot be reached under a name that has an upper-case letter, only under a lower-case name or alias (`Parent.MixedCaseChildUnreachable`).
- `act` hands the message straight to the child's `run`. The child's arity, permission and disabled checks of `process` do not apply to it.

## Model

| member | source | states |
|---|---|---|
| Common.Lower | lib/CommandHandler.js:65 | `toLowerCase` keeps the length, lower-cases each character, and gives a lower-case string |
| Common.Appended | lib/CommandHandler.js:65 | a `Map` after a series of `set`: the old keys stay first in their order, the result holds exactly the old and the new keys, and it stays duplicate-free |
| Common.Without | lib/CommandHandler.js:97 | a `Map` after `delete`: exactly the keys not deleted remain, duplicate-free |
| CommandArgs.Fragment | lib/Command.js:22-24 | a slot's usage string is empty exactly when it is hidden; otherwise `<…>` when required and `[…]` when optional, holding `type name` or just `name` |
| CommandArgs.HiddenArgsAddNothing | lib/Command.js:272-277 | hidden slots contribute nothing to the usage statement |
| CommandArgs.UsageSuffixIsVisibleFragments | lib/Command.js:270-279 | after the name, the usage statement is `" "` followed by the fragments of the visible slots joined with spaces, or nothing when no slot is visible |
| CommandArgs.GetVariableArgs | lib/Command.js:35-43 | fails exactly when `count < 1` (`Array(count - 1)` with a negative length); otherwise gives `count` slots, the first named and typed `type[]` with `required` defaulting to true, all others the hidden placeholder |
| CommandArgs.VariableArgsUsage | lib/Command.js:35-43 | the usage text of variable arguments shows only the first slot |
| CommandArgs.Collected | lib/Command.js:149-163 | the tokens bound to a name are non-empty exactly when some token's slot has that name |
| CommandArgs.BoundAt | lib/Command.js:149-163 | the binder's object has a key exactly for the slot names that received a token, and its value is those tokens joined with spaces in order |
| CommandArgs.ParseCommandArgs | lib/Command.js:149-163 | throws exactly when there are more tokens than slots, at the first missing slot; otherwise its keys are the names of the slots that received tokens and each value joins that name's tokens with spaces |
| CommandArgs.ParseCommandArgsUnbounded | lib/Command.js:149-163 | corrected binder: tokens past the last slot go to the last slot, so it fails only when there are no slots at all, and the last token lands under the last slot's name |
| ArgParser.SplitPoint | lib/Command.js:4 | `(.+)=(.+)` splits a token at its last `=` that has a character on each side, and matches nothing when there is no such `=` |
| ArgParser.DashFrom | lib/Command.js:5 | `-{1,2}(.+)` matches at the first `-` that is followed by a character, and matches nothing when there is none |
| ArgParser.KeyOf | lib/Command.js:55-58 | a token yields a key exactly when one of the two patterns matches it, and the key is lower-case |
| ArgParser.CloseFrom | lib/Command.js:65-84 | the quoted form stops at the first later token whose first `"` is not escaped by a backslash |
| ArgParser.DashStop | lib/Command.js:106-124 | the dash form's value runs up to the next token either pattern matches, or to the last token |
| ArgParser.Step | lib/Command.js:55-137 | one pass of the loop body: it moves forward, rewrites at most the token that closes a quote, and sets a key exactly when a pattern matches the token, namely that token's key |
| ArgParser.JoinQuoted | lib/Command.js:60-88 | the inner quote loop joins the tokens up to the closing one with spaces, writes the text after the closing quote back into that token, and leaves the array untouched when no token closes |
| ArgParser.JoinDashed | lib/Command.js:99-124 | the inner dash loop joins the following tokens with spaces up to the stop token, including the last token when it reaches the end |
| ArgParser.Visit | lib/Command.js:55-137 | one pass of the loop over the array does what `Step` specifies, in place |
| ArgParser.ParseArgs | lib/Command.js:51-141 | the parsed object and the caller's array afterwards are exactly what `Parse` specifies for the array as it was |
| ArgParser.ParseFromRewrites | lib/Command.js:72 | the caller's array keeps its length, and a token changes only if it closed a quote opened earlier |
| ArgParser.ParseKeys | lib/Command.js:51-141 | every parsed key is lower-case and is the key of some token of the final array |
| ArgParser.NoMarkersNoKeys | lib/Command.js:51-141 | tokens holding no inner `=` and no `-` before their last character produce an empty object and are left unchanged |
| ArgParser.LastDashFlagIsTrue | lib/Command.js:125-127 | a final token that only the dash pattern matches is always recorded as `true` |
| ArgParser.EqualsPlainRule | lib/Command.js:89-91 | an unquoted `key=value` binds the lower-cased key to the value as it stands, changes no token, and moves on to the next token |
| ArgParser.QuoteUnclosedRule | lib/Command.js:60-88 | a value opening with `"` that no later token closes is bound as typed, leading quote included, and the loop moves on to the next token |
| ArgParser.QuoteClosedRule | lib/Command.js:60-84 | a value opening with `"` that a later token closes binds the text after the quote, every token in between and the closing token's text before its quote, joined with single spaces; the closing token is rewritten to the text after its quote and is read next |
| ArgParser.DashLastRule | lib/Command.js:125-127 | the dash form on the last token binds its key to `true` |
| ArgParser.DashOneRule | lib/Command.js:125-134 | with exactly one token after it, the dash form binds that token, or `true` when the dash pattern matches that token, and that token is read next |
| ArgParser.DashRunRule | lib/Command.js:99-124 | with two or more tokens after it, the dash form binds the following tokens joined with single spaces up to the next token either pattern matches, or through the last token whatever it is; the loop resumes where the value stopped |
| ArgParser.KeyValueExample | lib/Command.js:89-91 | `key=value` gives `{key: 'value'}` |
| ArgParser.UnclosedQuoteExample | lib/Command.js:85-88 | `k="a b` with nothing closing the quote gives `{k: '"a'}` |
| ArgParser.DashRunExample | lib/Command.js:99-124 | `--flag val1 val2` gives `{flag: 'val1 val2'}` |
| ArgParser.DashValueExample | lib/Command.js:99-124 | `--flag val --other=1` binds `flag` to `val --other=1` and `--other` to `1` |
| ArgParser.QuotedExample | lib/Command.js:60-88 | `key="a b c"` split over three tokens binds `key` to `a b c` and empties the closing token |
| ArgParser.FlagPairExample | lib/Command.js:125-131 | `-a -b` gives two `true` flags |
| Commands.NormalizeArg | lib/Command.js:195-217 | a `CommandArg` or the instance of a class is kept; a string becomes a required, untyped, visible slot of that name; a plain object keeps its name and type, and `required` (default true) and `hide` (default false); `null` throws; anything else becomes a required `UnknownArg` |
| Commands.Normalized | lib/Command.js:195-217 | the `map` over `args` throws exactly when some entry is `null`; otherwise each slot is its entry normalised, in order |
| Commands.Construct | lib/Command.js:171-221 | `new Command(options)` throws exactly for a `null` entry of `args`; otherwise it builds a command with the normalised slots, the given `disabled` (default false) and the arity invariant |
| Commands.CountRequired | lib/Command.js:220 | the number of required slots is at most the number of slots, and equals it exactly when all are required |
| Commands.Command.constructor | lib/Command.js:171-221 | when no entry of `args` is `null`: every option takes its default when not given, `disabled` included; the slots are the normalised `args`; `maxArgs` is the slot count and `minArgs` the required count |
| Commands.Command.AddInfiniteArgs | lib/Command.js:230-234 | `maxArgs` becomes infinite and one required slot of the given name and type is appended; `minArgs` is unchanged and the arity invariant is kept |
| Commands.Command.Names | lib/Command.js:256-258 | the name first, then the aliases in order |
| Commands.Command.GetUsageStatement | lib/Command.js:265-280 | a non-empty `usage` option wins; otherwise the name followed by the non-empty fragments |
| Commands.Command.GetHelpStatement | lib/Command.js:288-311 | the help lines joined with newlines |
| Commands.HelpLinesShape | lib/Command.js:288-311 | the help has a header and a blank line first and the type last; it includes the usage line and one line per example; its line count depends only on which optional parts are present |
| Dispatcher.RunsExactlyWhenAllowed | lib/CommandHandler.js:261-325 | the command runs exactly when it is found, not disabled, has at least `minArgs` tokens, is not over an enforced `maxArgs`, and `canRun` resolves truthy; the successful log line comes right before the run |
| Dispatcher.LookupAndDisabledOnlyNotify | lib/CommandHandler.js:278-280 | an unknown name yields only the `nocommand` notification, and a disabled command only the `disabled` one, with the arguments untouched |
| Dispatcher.LogDiscipline | lib/CommandHandler.js:276-315 | at most one log line; a successful one only when the command runs; none for unknown or disabled commands or when `canRun` throws; `canRun` is asked only after the arity checks pass |
| Dispatcher.ErrorsAreReported | lib/CommandHandler.js:296-325 | no trace holds two `error` notifications; one that holds an `error` ends with it; a throwing `canRun` gives exactly the permission check and its `error`; a failing `run` gives exactly the permission check, the `logger` success, the run and its `error`; with neither failing there is no `error` |
| Dispatcher.Truncation | lib/CommandHandler.js:287-294 | `message.args` is cut to its first `maxArgs` tokens exactly when the limit is exceeded, not enforced, and the earlier checks pass; otherwise it is unchanged |
| Handler.FlattenThrows | lib/CommandHandler.js:129-168 | `_create` throws exactly when a `null` is reachable through arrays and objects |
| Handler.FlattenCommands | lib/CommandHandler.js:129-168 | the commands `_create` returns are exactly the reachable ones, and it returns `null` only when none is reachable |
| Handler.CreateExamples | lib/CommandHandler.js:145-165 | arrays of commands are returned in order; non-commands are dropped to an empty array; an empty array gives `null`; a `null` entry throws |
| Handler.CommandHandler.Create | lib/CommandHandler.js:129-168 | the loop over entries computes `Flatten` |
| Handler.Keys | lib/CommandHandler.js:83-85 | a command's keys are its lower-cased name, then its lower-cased aliases |
| Handler.AssignMeaning | lib/CommandHandler.js:83-85 | setting a command's keys maps exactly those keys to it and leaves every other entry as it was |
| Handler.LastIndexWins | lib/CommandHandler.js:76-86 | after indexing several commands, a key belongs to the last command that claims it |
| Handler.UnclaimedKeyKept | lib/CommandHandler.js:76-86 | a key no indexed command claims keeps its old entry, or stays absent |
| Handler.IndexManyIndexed | lib/CommandHandler.js:76-86 | indexing keeps every key among the keys of the command it maps to |
| Handler.IndexedMinus | lib/CommandHandler.js:106-119 | deleting keys keeps every remaining key among the keys of its command |
| Handler.RegisteredStops | lib/CommandHandler.js:76-77 | once an item makes `_create` throw, later items change nothing |
| Handler.RegisterCommandItem | lib/CommandHandler.js:75-87 | registering one command as intended indexes it under each of its keys |
| Handler.CommandHandler.constructor | lib/CommandHandler.js:20-46 | an empty registry with the given `enforceArgLimits` |
| Handler.CommandHandler.Add | lib/CommandHandler.js:64-66 | one `set` under the lower-cased name |
| Handler.CommandHandler.Remove | lib/CommandHandler.js:96-98 | one `delete` of the lower-cased name |
| Handler.CommandHandler.Index | lib/CommandHandler.js:83-85 | the registry after the name and every alias are set to the command, keeping the registry invariant |
| Handler.CommandHandler.IndexAll | lib/CommandHandler.js:83-85 | each command of a `_create` result indexed in turn |
| Handler.CommandHandler.Register | lib/CommandHandler.js:75-87 | corrected `register`: indexes every command `_create` yields, item by item, until an item throws; reports the throw; keeps `Valid()` |
| Handler.CommandHandler.RegisterItem | lib/CommandHandler.js:76-86 | corrected loop body: a throwing `_create` changes nothing; otherwise every command it yields is indexed |
| Handler.RegisteredIndexed | lib/CommandHandler.js:75-87 | registration keeps every key among the keys of the command it maps to |
| Handler.CommandHandler.RegisterAsWritten | lib/CommandHandler.js:75-87 | `register` as written throws exactly when some item contains a reachable `null`, and indexes nothing |
| Handler.CommandHandler.PopulateAsWritten | lib/CommandHandler.js:211-216 | the in-memory path of `populate` as written rejects exactly when `_create(input)` throws (a reachable `null`) and indexes nothing, because it goes through `register` as written |
| Handler.CommandHandler.Populate | lib/CommandHandler.js:211-216 | the in-memory path of `populate` with `register` as intended rejects exactly when `_create(input)` throws; otherwise it indexes every command `_create` yields, in order, and keeps `Valid()` |
| Handler.RegisteredCommands | lib/CommandHandler.js:76-86 | spreading an array of commands into `register` as intended indexes exactly those commands, in order, without throwing |
| Handler.CommandHandler.Unregister | lib/CommandHandler.js:106-119 | every key of every given command is deleted, whatever it maps to; other arguments are skipped |
| Handler.CommandHandler.RemoveKeys | lib/CommandHandler.js:113-117 | the name and each alias of one command, lower-cased, are deleted |
| Handler.CommandHandler.Process | lib/CommandHandler.js:237-333 | nothing happens without a reply function or a command name; otherwise the name is lower-cased in place, and the events and the arguments left in the message are those `Dispatch` gives |
| Handler.CommandHandler.Listed | lib/CommandHandler.js:343-361 | the help listing keeps only keys that pass the given filter, in key order |
| Handler.CommandHandler.Entries | lib/CommandHandler.js:339-341 | the default formatter's line for each key, in order |
| Handler.CommandHandler.HelpTextOfListed | lib/CommandHandler.js:343-361 | for any filter, the help text is the formatter's line of each listed key, concatenated in key order |
| Handler.CommandHandler.GetHelpStatement | lib/CommandHandler.js:343-361 | for the filter it is given (`DefaultHelpFilter` as the source's default), the loop over the entries produces `HelpText` of the registry's key order with that filter |
| Handler.HelpEntry | lib/CommandHandler.js:339-341 | the default formatter never returns an empty line |
| Handler.DefaultHelpFilterListsAliases | lib/CommandHandler.js:335-337 | with the filter as written, a command `ping` with alias `P` is listed under both `ping` and `p` |
| Handler.DefaultListingRepeats | lib/CommandHandler.js:335-361 | with `ping` (alias `P`) registered alone, the default filter as written lists the command twice and the corrected filter once |
| Handler.HelpFilterSkipsAliases | lib/CommandHandler.js:335-337 | corrected filter: no alias key passes, whatever the alias's case |
| Handler.ListedUnderName | lib/CommandHandler.js:343-361 | corrected filter: each listed key is its command's lower-cased name, so a command appears at most once |
| Handler.CommandHandler.Values | lib/CommandHandler.js:363-367 | the commands under the keys, in key order |
| Handler.CommandHandler.Iterate | lib/CommandHandler.js:363-367 | each registered command once, in first-key order, and every command in the registry |
| Handler.Dedup | lib/CommandHandler.js:364 | `new Set(values)`: duplicate-free, and it holds exactly the elements it was given |
| Parent.ChildGuardNeverFires | lib/CommandParent.js:24-26 | the guard as written never fires; the corrected guard fires exactly for non-commands |
| Parent.ChecksAgree | lib/CommandParent.js:11-26 | construction goes on exactly for a non-empty array of commands; missing or empty children raise `Error`; as written, a non-command is refused when its `names` is called, not by the guard |
| Parent.ChildMapKeys | lib/CommandParent.js:28-30 | the children collection has a key exactly for the names of the children |
| Parent.LastChildWins | lib/CommandParent.js:28-30 | a name belongs to the last child that has it |
| Parent.MaxDepthIsMax | lib/CommandParent.js:32-34 | the recorded maximum is at least every parent child's depth, and it is 0 or attained by some child |
| Parent.DepthBounds | lib/CommandParent.js:19-37 | a parent is deeper than each of its parent children, and has depth 1 when all children are plain commands |
| Parent.CommandParent.constructor | lib/CommandParent.js:19-47 | the children indexed under their names, the depth one more than the deepest parent child, the command built from the options (`disabled` included), an infinite `maxArgs`, `minArgs` from the required slots, and the two fixed replies |
| Parent.Build | lib/CommandParent.js:10-48 | as written: fails when the checks refuse the children, with the error the code as written throws (`names` failing for a non-command, never the guard), or else when `super(data)` throws for a `null` entry of `args`; otherwise builds the parent from the children |
| Parent.CommandParent.Reply | lib/CommandParent.js:62 | a reply is sent exactly when the message has a reply function |
| Parent.CommandParent.Act | lib/CommandParent.js:60-67 | corrected `act`: hands the message to the child named by the action exactly when there is one; otherwise it replies `subCommandFail` |
| Parent.CommandParent.ActAsWritten | lib/CommandParent.js:60-67 | `act` as written never delegates; finding a child throws a `ReferenceError` |
| Parent.CommandParent.Run | lib/CommandParent.js:69-80 | corrected `run`: without arguments it replies `subCommandNotProvided`; otherwise it shifts the first token off and delegates exactly when that token, lower-cased, names a child |
| Parent.CommandParent.RunAsWritten | lib/CommandParent.js:69-80 | `run` as written, given any argument, shifts it off and rejects, because it calls `reply` on a string |
| Parent.MixedCaseChildUnreachable | lib/CommandParent.js:28-30 | a child named `Add` is stored under `Add`, and the token `Add` asks for `add`, which no child answers to |
| Parent.RunFixed | lib/CommandParent.js:60-80 | for a token naming a child, both calls as written reject, and the corrected call delegates |

## Left out

- Asynchrony: promises and `await` are modelled as their outcomes. This covers `canRun` resolving or throwing and `run` completing or failing. Replies that fail in transport are not modelled.
- Formatters: their text is not modelled. A formatter is a function from the notification to an optional string, where `None` is a falsy result that sends nothing. The default formatters' texts are not reproduced, except the help formatter's.
- Console output from `console.error` in `process` is left out. The `logger` notification is kept as an event.
- The `client`, `bot` and `extra` parameters pass through unchanged and are left out.
- `populate` with a string (lib/CommandHandler.js:192-209) reads a directory and requires each file. That is I/O and is left out; the in-memory path that follows (lines 211-216) is modelled by `Handler.CommandHandler.PopulateAsWritten` and `Handler.CommandHandler.Populate`.
- `Command.parse` (lib/Command.js:242-249) only picks `args` off a message before calling `parseCommandArgs`, and is left out.
- The default `canRun` and `run` (lib/Command.js:321-330) are the hook outcomes `Resolves(true)` and `Completes`.
- Handler.CommandHandler.Create: `new i(...d)` is opaque. A class item carries the instance it yields, or none when that is not a command. A constructor that throws is not modelled.
- Common.Lower: `toLowerCase` is modelled for ASCII letters only. Other characters are kept.
- ArgParser.SplitPoint, ArgParser.DashFrom: `.` in the patterns does not match line terminators. The model assumes tokens hold none.
- Commands.NormalizeArg: a plain object whose `required` or `hide` key is present with the value `undefined` is treated as if the key were absent. Properties other than `name`, `type`, `required` and `hide` that `Object.assign` copies are left out.
- Commands.Command.constructor: options of the wrong type are not modelled, for example `args` that is not an array. The `help` option is kept but nothing reads it.
- Parent.CommandParent.Act, Parent.CommandParent.Run: the child's own `run` is not modelled. A delegation is the child the message is handed to.
- Parent.Build: a child that is not a command but has a `names` method is not modelled. A non-command is a value without one.
- Handler.CommandHandler.Unregister: it states the new registry, but not that `Indexed()` holds afterwards. That fact is the separate lemma `Handler.IndexedMinus`.
- Handler.CommandHandler.Register: it states the new registry, but not that `Indexed()` holds afterwards. That fact is the separate lemma `Handler.RegisteredIndexed`.
- Handler.CommandHandler.GetHelpStatement: only the default formatter is modelled; custom formatters are left out. A filter is a pure function of the key and the command; a filter that throws or has side effects is left out.
- ArgParser.ParseArgs: the parsed object is a `map`, so the order in which its keys were first set is not modelled.
- CommandArgs.GetVariableArgs: `count` is an integer. The `RangeError` of `Array(count - 1)` for a non-integer count, or for `count - 1` of 2^32 or more, is not modelled.
- Property names the source could collide with on a plain object, such as `hasOwnProperty` or `__proto__`, are treated as ordinary keys.
- `lib/LegacyConvert.js`, `lib/docs.js`, `lib/polyfill.js`, `index.js` and `config/docs.js` are not part of this model.

## Findings

| source | as written | input that shows it | evidently intended | confidence | as-written member | corrected member |
|---|---|---|---|---|---|---|
| lib/CommandHandler.js:79 | `_create` returns an array, and the guard skips anything that is not a `Command` instance, so `register` never indexes anything, and neither does `populate`, which goes through it | `register(cmd)` for any command `cmd` | index every command in the array `_create` returns | high, not executed | Handler.CommandHandler.RegisterAsWritten | Handler.CommandHandler.Register |
| lib/CommandParent.js:79 | `this.act(msg, subCommand)` swaps the action and the message, so no child is found and `reply` is called on a string | a parent with child `add`, `run` of a message with args `['add']` | `this.act(subCommand, msg)` | high, not executed | Parent.CommandParent.RunAsWritten | Parent.CommandParent.Run |
| lib/CommandParent.js:66 | `act` reads `subCommand`, which is not declared in `act`; finding a child throws a `ReferenceError` | `act('add', msg)` on a parent with child `add` | `this.children.get(action)` | high, not executed | Parent.CommandParent.ActAsWritten | Parent.CommandParent.Act |
| lib/CommandParent.js:24 | `!child instanceof Command` parses as `(!child) instanceof Command`, which is always false | `children: [{}]` fails later in `names`, with a `TypeError` that is not the guard's | `!(child instanceof Command)` | high, not executed | Parent.ChildrenCheckAsWritten | Parent.ChildrenCheck |
| lib/CommandHandler.js:336 | the default help filter looks up the lower-cased key among the aliases as given, so a mixed-case alias is listed as if it were a command name | a command `ping` with alias `P` is listed twice | compare with the lower-cased aliases | medium, not executed | Handler.DefaultListingRepeats | Handler.HelpFilterSkipsAliases |
| lib/Command.js:153 | after `addInfiniteArgs`, `parseCommandArgs` reads `.name` of a slot past the end for every token beyond the slots, and throws | one slot plus the infinite slot, given three tokens | bind extra tokens to the last (infinite) slot | medium, not executed | CommandArgs.ParseCommandArgs | CommandArgs.ParseCommandArgsUnbounded |
