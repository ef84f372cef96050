/** The decision sequence of `CommandHandler.process` (lib/CommandHandler.js:
    237-333) once the message has a reply function and a command name:
    lookup, the disabled check, the arity checks, the permission hook, the
    log line and the run, each notification going through its formatter.

    The hooks are abstracted to their outcomes: what `canRun` resolves to or
    throws, and whether `run` completes or fails (rejects or throws). A
    formatter is a function from the notification to the text it returns,
    `None` standing for a falsy result, which sends nothing. */
module Dispatcher {
  import opened Common
  import opened Commands

  /** The formatter a notification goes through. */
  datatype Notice =
    | NoCommand
    | Disabled
    | MinArgs
    | MaxArgs
    | Permission
    | Error(e: string)
    | Logger(success: bool)

  /** What `process` does, in order: a formatter called (`sent` is the text
      replied, or written to the console for `Logger`), the permission hook
      called, the command run. */
  datatype Event =
    | Notified(notice: Notice, sent: Option<string>)
    | PermissionChecked
    | Ran

  datatype CanRunOutcome = Resolves(truthy: bool) | Throws(e: string)

  datatype RunOutcome = Completes | Fails(e: string)

  /** The parts of the found command that `process` reads. */
  datatype Gate = Gate(disabled: bool, minArgs: nat, maxArgs: Arity)

  /** The events, and `message.args` afterwards. */
  datatype Dispatched = Dispatched(trace: seq<Event>, args: seq<string>)

  function Notify(n: Notice, fmt: Notice -> Option<string>): Event {
    Notified(n, fmt(n))
  }

  predicate IsLog(e: Event) {
    e.Notified? && e.notice.Logger?
  }

  predicate IsError(e: Event) {
    e.Notified? && e.notice.Error?
  }

  /** `process` from the lookup on. `found` is the registered command under
      the lower-cased name, if any. */
  function Dispatch(found: Option<Gate>, args: seq<string>, enforce: bool, canRun: CanRunOutcome,
                    run: RunOutcome, fmt: Notice -> Option<string>): Dispatched
  {
    match found
    case None => Dispatched([Notify(NoCommand, fmt)], args)
    case Some(g) =>
      if g.disabled then Dispatched([Notify(Disabled, fmt)], args)
      else if |args| < g.minArgs then Dispatched([Notify(Logger(false), fmt), Notify(MinArgs, fmt)], args)
      else if g.maxArgs.Exceeded(|args|) && enforce then
        Dispatched([Notify(Logger(false), fmt), Notify(MaxArgs, fmt)], args)
      else
        var kept := if g.maxArgs.Exceeded(|args|) then args[..g.maxArgs.n] else args;
        match canRun
        case Throws(e) => Dispatched([PermissionChecked, Notify(Error(e), fmt)], kept)
        case Resolves(truthy) =>
          if !truthy then
            Dispatched([PermissionChecked, Notify(Logger(false), fmt), Notify(Permission, fmt)], kept)
          else
            var ran := [PermissionChecked, Notify(Logger(true), fmt), Ran];
            match run
            case Completes => Dispatched(ran, kept)
            case Fails(e) => Dispatched(ran + [Notify(Error(e), fmt)], kept)
  }

  /** The command runs exactly when it is found, not disabled, given at
      least `minArgs` tokens, not over `maxArgs` while limits are enforced,
      and permitted; then the one log line, a successful one, comes right
      before the run. */
  lemma RunsExactlyWhenAllowed(found: Option<Gate>, args: seq<string>, enforce: bool, canRun: CanRunOutcome,
                               run: RunOutcome, fmt: Notice -> Option<string>)
    ensures var t := Dispatch(found, args, enforce, canRun, run, fmt).trace;
            Ran in t <==> found.Some? && !found.value.disabled && |args| >= found.value.minArgs
                          && !(enforce && found.value.maxArgs.Exceeded(|args|)) && canRun == Resolves(true)
    ensures var t := Dispatch(found, args, enforce, canRun, run, fmt).trace;
            Ran in t ==> t[..3] == [PermissionChecked, Notify(Logger(true), fmt), Ran]
  {
  }

  /** Nothing but the `nocommand` notification for an unknown name, and
      nothing but the `disabled` one for a disabled command, whatever the
      arguments and hooks; neither logs. */
  lemma LookupAndDisabledOnlyNotify(found: Option<Gate>, args: seq<string>, enforce: bool, canRun: CanRunOutcome,
                                    run: RunOutcome, fmt: Notice -> Option<string>)
    ensures found.None? ==> Dispatch(found, args, enforce, canRun, run, fmt) == Dispatched([Notified(NoCommand, fmt(NoCommand))], args)
    ensures found.Some? && found.value.disabled ==>
              Dispatch(found, args, enforce, canRun, run, fmt) == Dispatched([Notified(Disabled, fmt(Disabled))], args)
  {
  }

  /** At most one log line, never a successful one unless the command runs,
      and none at all when the command is unknown or disabled or when the
      permission hook throws; the permission hook is only asked once the
      arity checks pass. */
  lemma LogDiscipline(found: Option<Gate>, args: seq<string>, enforce: bool, canRun: CanRunOutcome,
                      run: RunOutcome, fmt: Notice -> Option<string>)
    ensures var t := Dispatch(found, args, enforce, canRun, run, fmt).trace;
            forall i, j :: 0 <= i < j < |t| && IsLog(t[i]) ==> !IsLog(t[j])
    ensures var t := Dispatch(found, args, enforce, canRun, run, fmt).trace;
            Notify(Logger(true), fmt) in t ==> Ran in t
    ensures var t := Dispatch(found, args, enforce, canRun, run, fmt).trace;
            (found.None? || found.value.disabled || (canRun.Throws? && PermissionChecked in t)) ==> forall i :: 0 <= i < |t| ==> !IsLog(t[i])
    ensures var t := Dispatch(found, args, enforce, canRun, run, fmt).trace;
            PermissionChecked in t ==> found.Some? && |args| >= found.value.minArgs
                                       && !(enforce && found.value.maxArgs.Exceeded(|args|))
  {
  }

  /** A failing hook ends the trace with exactly one `error` notification
      carrying its error value; there is never more than one, and none when
      the hooks succeed. */
  lemma ErrorsAreReported(found: Option<Gate>, args: seq<string>, enforce: bool, canRun: CanRunOutcome,
                          run: RunOutcome, fmt: Notice -> Option<string>)
    ensures var t := Dispatch(found, args, enforce, canRun, run, fmt).trace;
            forall i, j :: 0 <= i < j < |t| && IsError(t[i]) ==> !IsError(t[j])
    ensures var t := Dispatch(found, args, enforce, canRun, run, fmt).trace;
            (exists i :: 0 <= i < |t| && IsError(t[i])) ==> t[|t| - 1].Notified? && IsError(t[|t| - 1])
    ensures var t := Dispatch(found, args, enforce, canRun, run, fmt).trace;
            PermissionChecked in t && canRun.Throws? ==> t == [PermissionChecked, Notified(Error(canRun.e), fmt(Error(canRun.e)))]
    ensures var t := Dispatch(found, args, enforce, canRun, run, fmt).trace;
            Ran in t && run.Fails? ==>
              t == [PermissionChecked, Notified(Logger(true), fmt(Logger(true))), Ran, Notified(Error(run.e), fmt(Error(run.e)))]
    ensures var t := Dispatch(found, args, enforce, canRun, run, fmt).trace;
            !canRun.Throws? && !run.Fails? ==> forall i :: 0 <= i < |t| ==> !IsError(t[i])
  {
  }

  /** `message.args` is cut to its first `maxArgs` tokens exactly when it is
      over a finite bound that is not enforced and the earlier checks pass;
      otherwise it is left as it was. */
  lemma Truncation(found: Option<Gate>, args: seq<string>, enforce: bool, canRun: CanRunOutcome,
                   run: RunOutcome, fmt: Notice -> Option<string>)
    ensures var d := Dispatch(found, args, enforce, canRun, run, fmt);
            if found.Some? && !found.value.disabled && |args| >= found.value.minArgs
               && !enforce && found.value.maxArgs.Exceeded(|args|)
            then d.args == args[..found.value.maxArgs.n] && |d.args| == found.value.maxArgs.n
            else d.args == args
  {
  }

  /** A command taking one to two arguments, sent three with limits not
      enforced and permission granted, runs with the first two. */
  lemma TruncatedRunExample(fmt: Notice -> Option<string>)
    ensures Dispatch(Some(Gate(false, 1, Finite(2))), ["a", "b", "c"], false, Resolves(true), Completes, fmt)
            == Dispatched([PermissionChecked, Notified(Logger(true), fmt(Logger(true))), Ran], ["a", "b"])
  {
    assert ["a", "b", "c"][..2] == ["a", "b"];
  }
}
