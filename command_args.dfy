/** Declared argument slots (`CommandArg` in lib/Command.js): their usage
    fragments, the variable-arity helper and the positional binder. */
module CommandArgs {
  import opened Common

  /** One declared argument slot. `argType` is `None` where the source's
      `type` is `null` or `undefined`. */
  datatype CommandArg = CommandArg(name: string, argType: Option<string>, required: bool, hide: bool)

  /** The errors the source raises here: `Array(count - 1)` with a negative
      length, and reading `.name` of a slot that does not exist. */
  datatype ArgError = InvalidArrayLength | NoSuchArg(index: nat)

  /** `getUsageString`: `<type name>` for a required slot, `[type name]` for
      an optional one, the type and its space only when there is a type, and
      nothing at all for a hidden slot. */
  function Fragment(a: CommandArg): (r: string)
    ensures r == "" <==> a.hide
    ensures !a.hide ==> |r| >= 2 && r[0] == (if a.required then '<' else '[')
                        && r[|r| - 1] == (if a.required then '>' else ']')
    ensures !a.hide && a.argType.Some? ==> r[1..|r| - 1] == a.argType.value + " " + a.name
    ensures !a.hide && a.argType.None? ==> r[1..|r| - 1] == a.name
  {
    if a.hide then ""
    else
      var inner := (if a.argType.Some? then a.argType.value + " " else "") + a.name;
      (if !a.required then "[" else "<") + inner + (if !a.required then "]" else ">")
  }

  /** What the loop of `getUsageStatement` appends after the command name:
      `" " + fragment` for every slot whose fragment is not empty. */
  function UsageSuffix(args: seq<CommandArg>): string
    decreases |args|
  {
    if |args| == 0 then ""
    else
      var last := Fragment(args[|args| - 1]);
      UsageSuffix(args[..|args| - 1]) + (if last != "" then " " + last else "")
  }

  /** One more slot adds its fragment, after a space, when that is not empty. */
  lemma UsageSuffixSnoc(args: seq<CommandArg>, i: nat)
    requires i < |args|
    ensures UsageSuffix(args[..i + 1])
            == UsageSuffix(args[..i]) + (if Fragment(args[i]) != "" then " " + Fragment(args[i]) else "")
  {
    assert args[..i + 1][..i] == args[..i];
  }

  /** The slots that are not hidden, in order. */
  function Visible(args: seq<CommandArg>): (r: seq<CommandArg>)
    ensures forall a :: a in r ==> !a.hide
    decreases |args|
  {
    if |args| == 0 then []
    else Visible(args[..|args| - 1]) + (if args[|args| - 1].hide then [] else [args[|args| - 1]])
  }

  function Fragments(args: seq<CommandArg>): (r: seq<string>)
    ensures |r| == |args| && forall i :: 0 <= i < |args| ==> r[i] == Fragment(args[i])
  {
    seq(|args|, i requires 0 <= i < |args| => Fragment(args[i]))
  }

  lemma FragmentsSnoc(init: seq<CommandArg>, last: CommandArg)
    ensures Fragments(init + [last]) == Fragments(init) + [Fragment(last)]
  {
    var a, b := Fragments(init + [last]), Fragments(init) + [Fragment(last)];
    assert |a| == |b|;
    forall i | 0 <= i < |a| ensures a[i] == b[i] {
      if i < |init| {
        assert (init + [last])[i] == init[i];
      }
    }
  }

  /** Hidden slots add nothing to a usage statement. */
  lemma {:induction false} HiddenArgsAddNothing(args: seq<CommandArg>)
    ensures UsageSuffix(args) == UsageSuffix(Visible(args))
    decreases |args|
  {
    if |args| > 0 {
      var init, last := args[..|args| - 1], args[|args| - 1];
      HiddenArgsAddNothing(init);
      var v := Visible(init);
      if !last.hide {
        assert Visible(args) == v + [last];
        assert (v + [last])[..|v|] == v;
      } else {
        assert Visible(args) == v;
      }
    }
  }

  /** Without hidden slots, the usage suffix is the fragments joined by single
      spaces, after one leading space. */
  lemma {:induction false} UsageSuffixOfVisible(args: seq<CommandArg>)
    requires forall i :: 0 <= i < |args| ==> !args[i].hide
    ensures UsageSuffix(args) == if args == [] then "" else " " + Join(Fragments(args), " ")
    decreases |args|
  {
    if |args| > 0 {
      var init, last := args[..|args| - 1], args[|args| - 1];
      assert forall i :: 0 <= i < |init| ==> !init[i].hide by {
        forall i | 0 <= i < |init| ensures !init[i].hide {
          assert init[i] == args[i];
        }
      }
      UsageSuffixOfVisible(init);
      assert !last.hide;
      UsageSuffixSnoc(args, |args| - 1);
      assert args[..|args|] == args;
      assert UsageSuffix(args) == UsageSuffix(init) + (" " + Fragment(last));
      SplitLast([], args);
      FragmentsSnoc(init, last);
      JoinSpacedSnoc(Fragments(init), Fragment(last));
    }
  }

  /** One more fragment after a space extends the space-led join. */
  lemma JoinSpacedSnoc(xs: seq<string>, y: string)
    ensures (if xs == [] then "" else " " + Join(xs, " ")) + (" " + y) == " " + Join(xs + [y], " ")
  {
    if xs != [] {
      var j := Join(xs, " ");
      JoinSnoc(xs, y, " ");
      ConcatAssoc(" ", j, " ", y);
    } else {
      assert xs + [y] == [y];
      assert Join([y], " ") == y;
    }
  }

  /** `getUsageStatement` lists exactly the visible slots' fragments, each
      after one space. */
  lemma UsageSuffixIsVisibleFragments(args: seq<CommandArg>)
    ensures UsageSuffix(args) == if Visible(args) == [] then "" else " " + Join(Fragments(Visible(args)), " ")
  {
    HiddenArgsAddNothing(args);
    UsageSuffixOfVisible(Visible(args));
  }

  lemma VisibleAppend(xs: seq<CommandArg>, ys: seq<CommandArg>)
    ensures Visible(xs + ys) == Visible(xs) + Visible(ys)
    decreases |ys|
  {
    if |ys| == 0 {
      assert xs + ys == xs;
    } else {
      var init := ys[..|ys| - 1];
      assert (xs + ys)[..|xs + ys| - 1] == xs + init;
      VisibleAppend(xs, init);
    }
  }

  lemma VisibleAllHidden(xs: seq<CommandArg>)
    requires forall i :: 0 <= i < |xs| ==> xs[i].hide
    ensures Visible(xs) == []
    decreases |xs|
  {
    if |xs| > 0 {
      VisibleAllHidden(xs[..|xs| - 1]);
    }
  }

  /** The slot every extra position of `getVariableArgs` holds: hidden,
      optional, with an empty name and no type. */
  const Placeholder := CommandArg("", None, false, true)

  /** The type of the first variable slot: `${type || ''}[]`. */
  function ArrayType(argType: Option<string>): string {
    (if argType.Some? then argType.value else "") + "[]"
  }

  /** `getVariableArgs(count, name, type, required)`: `count` slots, the first
      named and typed as given (`required` defaulting to true), all the others
      the hidden placeholder; `Array(count - 1)` rejects a count below one. */
  function GetVariableArgs(count: int, name: string, argType: Option<string>, required: Option<bool>)
    : (r: Result<seq<CommandArg>, ArgError>)
    ensures r.Failure? <==> count < 1
    ensures r.Failure? ==> r.error == InvalidArrayLength
    ensures r.Success? ==> |r.value| == count
    ensures r.Success? ==> r.value[0] == CommandArg(name, Some(ArrayType(argType)), required.GetOr(true), false)
    ensures r.Success? ==> forall i :: 1 <= i < count ==> r.value[i] == Placeholder
  {
    if count < 1 then Failure(InvalidArrayLength)
    else Success([CommandArg(name, Some(ArrayType(argType)), required.GetOr(true), false)]
                 + seq(count - 1, _ => Placeholder))
  }

  /** A command declared with variable args shows only the first slot in its
      usage statement. */
  lemma VariableArgsUsage(count: int, name: string, argType: Option<string>, required: Option<bool>)
    requires count >= 1
    ensures var r := GetVariableArgs(count, name, argType, required);
            r.Success? && UsageSuffix(r.value) == " " + Fragment(r.value[0])
  {
    var args := GetVariableArgs(count, name, argType, required).value;
    var rest := args[1..];
    assert args == [args[0]] + rest;
    VisibleAllHidden(rest);
    VisibleAppend([args[0]], rest);
    assert Visible([args[0]]) == [args[0]] by {
      assert [args[0]][..0] == [];
    }
    UsageSuffixIsVisibleFragments(args);
    assert Fragments([args[0]]) == [Fragment(args[0])];
  }

  /** The tokens `parseCommandArgs` binds to the name `n`, in order. */
  function Collected(tokens: seq<string>, specs: seq<CommandArg>, n: string): (r: seq<string>)
    requires |tokens| <= |specs|
    ensures |r| > 0 <==> exists i :: 0 <= i < |tokens| && specs[i].name == n
    decreases |tokens|
  {
    if |tokens| == 0 then []
    else
      var k := |tokens| - 1;
      Collected(tokens[..k], specs, n) + (if specs[k].name == n then [tokens[k]] else [])
  }

  /** The map `parseCommandArgs` has built after the first tokens. */
  function Bound(tokens: seq<string>, specs: seq<CommandArg>): map<string, string>
    requires |tokens| <= |specs|
    decreases |tokens|
  {
    if |tokens| == 0 then map[]
    else
      var k := |tokens| - 1;
      var p := Bound(tokens[..k], specs);
      var n := specs[k].name;
      p[n := if n in p then p[n] + " " + tokens[k] else tokens[k]]
  }

  /** A name is bound exactly when some token went to a slot of that name,
      and its value is those tokens joined with single spaces. */
  lemma {:induction false} BoundAt(tokens: seq<string>, specs: seq<CommandArg>, n: string)
    requires |tokens| <= |specs|
    ensures n in Bound(tokens, specs) <==> |Collected(tokens, specs, n)| > 0
    ensures n in Bound(tokens, specs) ==> Bound(tokens, specs)[n] == Join(Collected(tokens, specs, n), " ")
    decreases |tokens|
  {
    if |tokens| > 0 {
      var k := |tokens| - 1;
      var c := Collected(tokens[..k], specs, n);
      BoundAt(tokens[..k], specs, n);
      if specs[k].name == n {
        if |c| > 0 {
          JoinSnoc(c, tokens[k], " ");
        } else {
          assert c + [tokens[k]] == [tokens[k]];
        }
      } else {
        assert c + [] == c;
      }
    }
  }

  /** `parseCommandArgs`: token `i` goes to the name of slot `i`; a name seen
      again gets `" " + token` appended. A token without a slot makes the
      source read `.name` of `undefined`, which throws. */
  method ParseCommandArgs(tokens: seq<string>, specs: seq<CommandArg>) returns (r: Result<map<string, string>, ArgError>)
    ensures r.Failure? <==> |tokens| > |specs|
    ensures r.Failure? ==> r.error == NoSuchArg(|specs|)
    ensures r.Success? ==> forall n :: n in r.value <==> exists i :: 0 <= i < |tokens| && specs[i].name == n
    ensures r.Success? ==> forall n :: n in r.value ==> r.value[n] == Join(Collected(tokens, specs, n), " ")
  {
    var parsed: map<string, string> := map[];
    var i := 0;
    while i < |tokens|
      invariant 0 <= i <= |tokens| && i <= |specs|
      invariant parsed == Bound(tokens[..i], specs)
    {
      if i >= |specs| {
        return Failure(NoSuchArg(i));
      }
      TakeSnoc(tokens, i);
      var argName := specs[i].name;
      if argName !in parsed {
        parsed := parsed[argName := tokens[i]];
      } else {
        parsed := parsed[argName := parsed[argName] + " " + tokens[i]];
      }
      i := i + 1;
    }
    assert tokens[..i] == tokens;
    forall n ensures n in parsed <==> |Collected(tokens, specs, n)| > 0
      ensures n in parsed ==> parsed[n] == Join(Collected(tokens, specs, n), " ")
    {
      BoundAt(tokens, specs, n);
    }
    return Success(parsed);
  }

  /** `specs` stretched to `n` slots by repeating its last slot. */
  function Padded(specs: seq<CommandArg>, n: nat): (r: seq<CommandArg>)
    requires |specs| > 0
    ensures |r| >= n && |r| >= |specs| && r[..|specs|] == specs
    ensures forall i :: |specs| <= i < |r| ==> r[i] == specs[|specs| - 1]
  {
    if n <= |specs| then specs else specs + seq(n - |specs|, _ => specs[|specs| - 1])
  }

  /** The binder as evidently intended for a command made unbounded by
      `addInfiniteArgs`: tokens past the last slot join that slot's value
      instead of failing. */
  method ParseCommandArgsUnbounded(tokens: seq<string>, specs: seq<CommandArg>) returns (r: Result<map<string, string>, ArgError>)
    ensures r.Failure? <==> |specs| == 0 && |tokens| > 0
    ensures r.Success? && |specs| > 0 ==>
      forall n :: n in r.value <==> exists i :: 0 <= i < |tokens| && Padded(specs, |tokens|)[i].name == n
    ensures r.Success? && |specs| > 0 ==>
      forall n :: n in r.value ==> r.value[n] == Join(Collected(tokens, Padded(specs, |tokens|), n), " ")
    ensures r.Success? && |specs| > 0 && |tokens| > |specs| ==>
      var last := specs[|specs| - 1].name;
      last in r.value && tokens[|tokens| - 1] in Collected(tokens, Padded(specs, |tokens|), last)
  {
    if |specs| == 0 {
      r := ParseCommandArgs(tokens, specs);
      return;
    }
    var padded := Padded(specs, |tokens|);
    r := ParseCommandArgs(tokens, padded);
    if |tokens| > |specs| {
      var k := |tokens| - 1;
      var last := specs[|specs| - 1].name;
      assert padded[k].name == last;
      assert tokens[..k + 1] == tokens;
    }
  }
}
