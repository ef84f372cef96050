/** The free-form tokenizer `CommandArg.parseArgs` (lib/Command.js:51-141).

    The two regular expressions are stated as searches over the characters
    of one token (tokens hold no line terminators, so `.` matches every
    character). The loop is specified by `Parse`, which processes one token
    position at a time exactly as the source's `for` loop does, including
    the backward jumps of its index and the write-back into the caller's
    array; `ParseArgs` is the loop itself, over an array it updates in place. */
module ArgParser {
  import opened Common

  /** A parsed value: a string, or `true` for a bare flag. */
  datatype ArgValue = Text(s: string) | Flag

  datatype Binding = Binding(key: string, value: ArgValue)

  /** One pass of the loop body: the token array afterwards, the position the
      loop visits next, and the key it set (if any). */
  datatype StepResult = StepResult(tokens: seq<string>, next: nat, binding: Option<Binding>)

  // ----- `(.+)=(.+)` -----

  /** The last `=` at a position in `1..k`. */
  function LastEquals(t: string, k: int): (r: Option<nat>)
    requires k < |t|
    ensures r.Some? ==> 1 <= r.value <= k && t[r.value] == '='
    ensures r.Some? ==> forall m :: r.value < m <= k ==> t[m] != '='
    ensures r.None? ==> forall m :: 1 <= m <= k ==> t[m] != '='
    decreases k
  {
    if k < 1 then None
    else if t[k] == '=' then Some(k)
    else LastEquals(t, k - 1)
  }

  /** Where the greedy `(.+)=(.+)` splits a token: at the last `=` that has
      at least one character on each side. The key is everything before it,
      the value everything after it. */
  function SplitPoint(t: string): (r: Option<nat>)
    ensures r.Some? ==> 1 <= r.value && r.value + 1 < |t| && t[r.value] == '='
    ensures r.Some? ==> forall m :: r.value < m < |t| - 1 ==> t[m] != '='
    ensures r.None? <==> forall m :: 1 <= m < |t| - 1 ==> t[m] != '='
  {
    LastEquals(t, |t| - 2)
  }

  // ----- `-{1,2}(.+)` -----

  /** The first `-` at or after `p` that is not the token's last character:
      where the unanchored `-{1,2}(.+)` starts matching. */
  function DashFrom(t: string, p: nat): (r: Option<nat>)
    requires p <= |t|
    ensures r.Some? ==> p <= r.value && r.value + 1 < |t| && t[r.value] == '-'
    ensures r.Some? ==> forall q :: p <= q < r.value ==> t[q] != '-'
    ensures r.None? <==> forall q :: p <= q < |t| - 1 ==> t[q] != '-'
    decreases |t| - p
  {
    if p + 1 >= |t| then None
    else if t[p] == '-' then Some(p)
    else DashFrom(t, p + 1)
  }

  /** The captured group of `-{1,2}(.+)` matched at `p`: two dashes are
      taken only when at least one character follows them. */
  function DashKey(t: string, p: nat): (r: string)
    requires p + 1 < |t|
    ensures |r| > 0
  {
    if p + 2 < |t| && t[p + 1] == '-' then t[p + 2..] else t[p + 1..]
  }

  /** `DashArgumentRegex.test(t) || ArgumentRegex.test(t)`. */
  predicate Recognized(t: string) {
    SplitPoint(t).Some? || DashFrom(t, 0).Some?
  }

  /** The lower-cased key a token contributes when the loop visits it: the
      equals form first, then the dash form. */
  function KeyOf(t: string): (r: Option<string>)
    ensures r.Some? <==> Recognized(t)
    ensures r.Some? ==> IsLower(r.value)
  {
    match SplitPoint(t)
    case Some(k) => Some(Lower(t[..k]))
    case None =>
      match DashFrom(t, 0)
      case Some(p) => Some(Lower(DashKey(t, p)))
      case None => None
  }

  // ----- quoted values -----

  /** The first `"` at or after `p`. */
  function QuoteFrom(t: string, p: nat): (r: Option<nat>)
    requires p <= |t|
    ensures r.Some? ==> p <= r.value < |t| && t[r.value] == '"'
    ensures r.Some? ==> forall q :: p <= q < r.value ==> t[q] != '"'
    ensures r.None? ==> forall q :: p <= q < |t| ==> t[q] != '"'
    decreases |t| - p
  {
    if p == |t| then None
    else if t[p] == '"' then Some(p)
    else QuoteFrom(t, p + 1)
  }

  /** A token ends a quoted value when it holds a `"` and the character just
      before its FIRST `"` is not a backslash (a `"` at position 0 counts). */
  predicate ClosesQuote(t: string) {
    var q := QuoteFrom(t, 0);
    q.Some? && (q.value == 0 || t[q.value - 1] != '\\')
  }

  /** `t.split('"')[0]`: the text before the first `"`. */
  function BeforeQuote(t: string): string
    requires ClosesQuote(t)
  {
    t[..QuoteFrom(t, 0).value]
  }

  /** `t.split('"')[1]`: the text between the first and the second `"`, or
      everything after the first `"` when there is no second one. */
  function AfterQuote(t: string): string
    requires ClosesQuote(t)
  {
    var q := QuoteFrom(t, 0).value;
    match QuoteFrom(t, q + 1)
    case Some(q2) => t[q + 1..q2]
    case None => t[q + 1..]
  }

  /** The first token at or after `j` that ends a quoted value. */
  function CloseFrom(tokens: seq<string>, j: nat): (r: Option<nat>)
    requires j <= |tokens|
    ensures r.Some? ==> j <= r.value < |tokens| && ClosesQuote(tokens[r.value])
    ensures r.Some? ==> forall m :: j <= m < r.value ==> !ClosesQuote(tokens[m])
    ensures r.None? ==> forall m :: j <= m < |tokens| ==> !ClosesQuote(tokens[m])
    decreases |tokens| - j
  {
    if j == |tokens| then None
    else if ClosesQuote(tokens[j]) then Some(j)
    else CloseFrom(tokens, j + 1)
  }

  /** Where the value loop of the dash form stops, starting at `j`: the last
      token, or an earlier one that either pattern recognises. */
  function DashStop(tokens: seq<string>, j: nat): (r: nat)
    requires j < |tokens|
    ensures j <= r < |tokens|
    ensures r == |tokens| - 1 || Recognized(tokens[r])
    ensures forall m {:trigger Recognized(tokens[m])} :: j <= m < r ==> !Recognized(tokens[m])
    decreases |tokens| - j
  {
    if j == |tokens| - 1 || Recognized(tokens[j]) then j else DashStop(tokens, j + 1)
  }

  /** `" " + tokens[m]` for every `m` in `a..b`, in order. */
  function Spaced(tokens: seq<string>, a: nat, b: nat): string
    requires a <= b <= |tokens|
    decreases b - a
  {
    if a == b then "" else Spaced(tokens, a, b - 1) + " " + tokens[b - 1]
  }

  // ----- the loop -----

  /** The loop body at position `i` (lib/Command.js:55-137). */
  function Step(tokens: seq<string>, i: nat): (r: StepResult)
    requires i < |tokens|
    ensures |r.tokens| == |tokens|
    ensures i < r.next <= |tokens|
    ensures i + 1 < |tokens| ==> r.next < |tokens|
    ensures r.tokens == tokens
            || (r.next < |tokens| && ClosesQuote(tokens[r.next])
                && r.tokens == tokens[r.next := AfterQuote(tokens[r.next])])
    ensures r.binding.Some? <==> Recognized(tokens[i])
    ensures r.binding.Some? ==> KeyOf(tokens[i]) == Some(r.binding.value.key)
  {
    var t := tokens[i];
    match SplitPoint(t)
    case Some(k) =>
      var key := Lower(t[..k]);
      var value := t[k + 1..];
      if value[0] == '"' then
        match CloseFrom(tokens, i + 1)
        case Some(j) =>
          var quoted := value[1..] + Spaced(tokens, i + 1, j) + " " + BeforeQuote(tokens[j]);
          StepResult(tokens[j := AfterQuote(tokens[j])], j, Some(Binding(key, Text(quoted))))
        case None =>
          StepResult(tokens, i + 1, Some(Binding(key, Text(value))))
      else
        StepResult(tokens, i + 1, Some(Binding(key, Text(value))))
    case None =>
      match DashFrom(t, 0)
      case None => StepResult(tokens, i + 1, None)
      case Some(p) =>
        var key := Lower(DashKey(t, p));
        if i + 2 < |tokens| then
          var s := DashStop(tokens, i + 2);
          var last := if s == |tokens| - 1 then " " + tokens[s] else "";
          StepResult(tokens, s, Some(Binding(key, Text(tokens[i + 1] + Spaced(tokens, i + 2, s) + last))))
        else if i >= |tokens| - 1 then
          StepResult(tokens, i + 1, Some(Binding(key, Flag)))
        else if DashFrom(tokens[i + 1], 0).Some? then
          StepResult(tokens, i + 1, Some(Binding(key, Flag)))
        else
          StepResult(tokens, i + 1, Some(Binding(key, Text(tokens[i + 1]))))
  }

  function Apply(parsed: map<string, ArgValue>, b: Option<Binding>): map<string, ArgValue> {
    if b.Some? then parsed[b.value.key := b.value.value] else parsed
  }

  /** The loop from position `i` on: the parsed object and the caller's
      token array when it ends. */
  function ParseFrom(tokens: seq<string>, i: nat, parsed: map<string, ArgValue>)
    : (map<string, ArgValue>, seq<string>)
    requires i <= |tokens|
    decreases |tokens| - i
  {
    if i == |tokens| then (parsed, tokens)
    else
      var st := Step(tokens, i);
      ParseFrom(st.tokens, st.next, Apply(parsed, st.binding))
  }

  /** `parseArgs(args)`: the returned object, and `args` as the call leaves it. */
  function Parse(tokens: seq<string>): (map<string, ArgValue>, seq<string>) {
    ParseFrom(tokens, 0, map[])
  }

  /** The inner loop of the quoted form: joins the tokens after `i` up to
      the first one that closes the quote, and overwrites that token with
      the text after its quote. Without a closing token nothing is written. */
  method JoinQuoted(args: array<string>, i: nat, opening: string) returns (quoted: string, last: nat, hasEnd: bool)
    requires i < args.Length
    modifies args
    ensures var close := CloseFrom(old(args[..]), i + 1);
            hasEnd == close.Some?
            && (hasEnd ==> last + 1 == close.value
                           && quoted == opening + Spaced(old(args[..]), i + 1, close.value)
                                        + " " + BeforeQuote(old(args[close.value]))
                           && args[..] == old(args[..])[close.value := AfterQuote(old(args[close.value]))])
            && (!hasEnd ==> args[..] == old(args[..]))
  {
    ghost var before := args[..];
    quoted, last, hasEnd := opening, 0, false;
    var j := i + 1;
    while j < args.Length
      invariant i + 1 <= j <= args.Length
      invariant args[..] == before
      invariant CloseFrom(before, i + 1) == CloseFrom(before, j)
      invariant quoted == opening + Spaced(before, i + 1, j)
      decreases args.Length - j
    {
      if ClosesQuote(args[j]) {
        quoted := quoted + " " + BeforeQuote(args[j]);
        args[j] := AfterQuote(args[j]);
        j := j - 1;
        last := j;
        hasEnd := true;
        return;
      }
      quoted := quoted + " " + args[j];
      j := j + 1;
    }
  }

  /** The inner loop of the dash form (entered when at least two tokens
      follow position `i`): joins the following tokens until one that either
      pattern recognises, and always joins the last token. */
  method JoinDashed(args: array<string>, i: nat) returns (arg: string, last: nat)
    requires i + 2 < args.Length
    ensures var stop := DashStop(args[..], i + 2);
            last + 1 == stop
            && arg == args[i + 1] + Spaced(args[..], i + 2, stop)
                      + (if stop == args.Length - 1 then " " + args[stop] else "")
  {
    ghost var tokens := args[..];
    arg := args[i + 1];
    var j := i + 2;
    while j < args.Length - 1 && !Recognized(args[j])
      invariant i + 2 <= j <= args.Length - 1
      invariant DashStop(tokens, i + 2) == DashStop(tokens, j)
      invariant arg == tokens[i + 1] + Spaced(tokens, i + 2, j)
      decreases args.Length - j
    {
      assert Spaced(tokens, i + 2, j + 1) == Spaced(tokens, i + 2, j) + " " + tokens[j];
      AppendAssoc(tokens[i + 1], Spaced(tokens, i + 2, j), " " + tokens[j]);
      assert DashStop(tokens, j) == DashStop(tokens, j + 1);
      arg := arg + (" " + args[j]);
      j := j + 1;
    }
    if j == args.Length - 1 {
      arg := arg + (" " + args[j]);
    }
    j := j - 1;
    last := j;
  }

  /** One pass of the loop body at position `i`: the key it sets, and the
      value the body leaves in the loop index before the loop's `i++`. */
  method Visit(args: array<string>, i: nat) returns (last: nat, binding: Option<Binding>)
    requires i < args.Length
    modifies args
    ensures var st := Step(old(args[..]), i);
            args[..] == st.tokens && last + 1 == st.next && binding == st.binding
  {
    var t := args[i];
    last, binding := i, None;
    var eq := SplitPoint(t);
    if eq.Some? {
      var key := Lower(t[..eq.value]);
      var value := t[eq.value + 1..];
      if value[0] == '"' {
        var quoted, close, hasEnd := JoinQuoted(args, i, value[1..]);
        if hasEnd {
          last, binding := close, Some(Binding(key, Text(quoted)));
        } else {
          binding := Some(Binding(key, Text(value)));
        }
      } else {
        binding := Some(Binding(key, Text(value)));
      }
    } else {
      var dash := DashFrom(t, 0);
      if dash.Some? {
        var key := Lower(DashKey(t, dash.value));
        if i + 2 < args.Length {
          var arg, stop := JoinDashed(args, i);
          last, binding := stop, Some(Binding(key, Text(arg)));
        } else if i >= args.Length - 1 {
          binding := Some(Binding(key, Flag));
        } else if DashFrom(args[i + 1], 0).Some? {
          binding := Some(Binding(key, Flag));
        } else {
          binding := Some(Binding(key, Text(args[i + 1])));
        }
      }
    }
  }

  /** `parseArgs`, as the source runs it: a `for` loop whose index the body
      moves, a `parsed` object built key by key, and the closing token of a
      quoted value overwritten in the caller's array. */
  method ParseArgs(args: array<string>) returns (parsed: map<string, ArgValue>)
    modifies args
    ensures (parsed, args[..]) == Parse(old(args[..]))
  {
    ghost var result := Parse(args[..]);
    parsed := map[];
    var i := 0;
    while i < args.Length
      invariant 0 <= i <= args.Length
      invariant ParseFrom(args[..], i, parsed) == result
      decreases args.Length - i
    {
      ghost var st := Step(args[..], i);
      ParseFromStep(args[..], i, parsed);
      var last, binding := Visit(args, i);
      parsed := Apply(parsed, binding);
      i := last + 1;
      assert args[..] == st.tokens && i == st.next;
    }
  }

  // ----- properties -----

  /** The caller's array keeps its length; a position changes only when it
      held the closing token of a quoted value, and then it holds exactly the
      text between that token's first and second `"`. The position the loop
      starts at is never rewritten. */
  lemma {:induction false} ParseFromRewrites(tokens: seq<string>, i: nat, parsed: map<string, ArgValue>)
    requires i <= |tokens|
    ensures var r := ParseFrom(tokens, i, parsed);
            |r.1| == |tokens|
            && forall p :: 0 <= p < |tokens| ==>
                 r.1[p] == tokens[p] || (i < p && ClosesQuote(tokens[p]) && r.1[p] == AfterQuote(tokens[p]))
    decreases |tokens| - i
  {
    if i < |tokens| {
      var st := Step(tokens, i);
      ParseFromRewrites(st.tokens, st.next, Apply(parsed, st.binding));
      var r := ParseFrom(st.tokens, st.next, Apply(parsed, st.binding));
      assert r == ParseFrom(tokens, i, parsed);
      forall p | 0 <= p < |tokens|
        ensures r.1[p] == tokens[p] || (i < p && ClosesQuote(tokens[p]) && r.1[p] == AfterQuote(tokens[p]))
      {
        if st.tokens[p] != tokens[p] {
          assert p == st.next;
        }
      }
    }
  }

  /** Every key of the result is lower-case. */
  lemma {:induction false} ParseFromKeysLower(tokens: seq<string>, i: nat, parsed: map<string, ArgValue>)
    requires i <= |tokens|
    requires forall k :: k in parsed ==> IsLower(k)
    ensures forall k :: k in ParseFrom(tokens, i, parsed).0 ==> IsLower(k)
    decreases |tokens| - i
  {
    if i < |tokens| {
      var st := Step(tokens, i);
      ParseFromKeysLower(st.tokens, st.next, Apply(parsed, st.binding));
    }
  }

  /** Every key of the result is the key of a token the loop visited: a token
      that neither pattern recognises never becomes a key. */
  lemma {:induction false} ParseFromKeysFromTokens(tokens: seq<string>, i: nat, parsed: map<string, ArgValue>)
    requires i <= |tokens|
    requires forall k :: k in parsed ==> exists p :: 0 <= p < i && KeyOf(tokens[p]) == Some(k)
    ensures var r := ParseFrom(tokens, i, parsed);
            forall k :: k in r.0 ==> exists p :: 0 <= p < |r.1| && KeyOf(r.1[p]) == Some(k)
    decreases |tokens| - i
  {
    if i < |tokens| {
      var st := Step(tokens, i);
      var parsed' := Apply(parsed, st.binding);
      forall k | k in parsed' ensures exists p :: 0 <= p < st.next && KeyOf(st.tokens[p]) == Some(k) {
        if st.binding.Some? && k == st.binding.value.key {
          assert st.tokens[i] == tokens[i];
        } else {
          var p :| 0 <= p < i && KeyOf(tokens[p]) == Some(k);
          assert st.tokens[p] == tokens[p];
        }
      }
      ParseFromKeysFromTokens(st.tokens, st.next, parsed');
      assert ParseFrom(tokens, i, parsed) == ParseFrom(st.tokens, st.next, parsed');
    } else {
      assert ParseFrom(tokens, i, parsed) == (parsed, tokens);
    }
  }

  /** `parseArgs` lower-cases every key, and takes every key from a token of
      the (possibly rewritten) array. */
  lemma ParseKeys(tokens: seq<string>)
    ensures var r := Parse(tokens);
            |r.1| == |tokens|
            && (forall k :: k in r.0 ==> IsLower(k))
            && (forall k :: k in r.0 ==> exists p :: 0 <= p < |r.1| && KeyOf(r.1[p]) == Some(k))
  {
    ParseFromRewrites(tokens, 0, map[]);
    ParseFromKeysLower(tokens, 0, map[]);
    ParseFromKeysFromTokens(tokens, 0, map[]);
  }

  lemma {:induction false} ParseFromNothingRecognized(tokens: seq<string>, i: nat, parsed: map<string, ArgValue>)
    requires i <= |tokens|
    requires forall p :: i <= p < |tokens| ==> !Recognized(tokens[p])
    ensures ParseFrom(tokens, i, parsed) == (parsed, tokens)
    decreases |tokens| - i
  {
    if i < |tokens| {
      ParseFromNothingRecognized(tokens, i + 1, parsed);
    }
  }

  /** Tokens with no `=` between two characters and no `-` before a
      character give an empty object and leave the array as it was. */
  lemma NoMarkersNoKeys(tokens: seq<string>)
    requires forall p, m :: 0 <= p < |tokens| && 1 <= m < |tokens[p]| - 1 ==> tokens[p][m] != '='
    requires forall p, m :: 0 <= p < |tokens| && 0 <= m < |tokens[p]| - 1 ==> tokens[p][m] != '-'
    ensures Parse(tokens) == (map[], tokens)
  {
    forall p | 0 <= p < |tokens| ensures !Recognized(tokens[p]) {
      assert SplitPoint(tokens[p]).None?;
      assert DashFrom(tokens[p], 0).None?;
    }
    ParseFromNothingRecognized(tokens, 0, map[]);
  }

  /** The last position is always visited, on the array as it ends up, and
      its binding is the last one applied. */
  lemma {:induction false} ParseFromLastStep(tokens: seq<string>, i: nat, parsed: map<string, ArgValue>)
    requires i < |tokens|
    ensures |ParseFrom(tokens, i, parsed).1| == |tokens|
    ensures var r := ParseFrom(tokens, i, parsed);
            var b := Step(r.1, |tokens| - 1).binding;
            b.Some? ==> b.value.key in r.0 && r.0[b.value.key] == b.value.value
    decreases |tokens| - i
  {
    if i == |tokens| - 1 {
      ParseFromAtLast(tokens, i, parsed);
    } else {
      var st := Step(tokens, i);
      ParseFromStep(tokens, i, parsed);
      ParseFromLastStep(st.tokens, st.next, Apply(parsed, st.binding));
    }
  }

  /** From the last position the loop applies that position's binding and
      leaves the array as it is. */
  lemma ParseFromAtLast(tokens: seq<string>, i: nat, parsed: map<string, ArgValue>)
    requires i == |tokens| - 1
    ensures ParseFrom(tokens, i, parsed) == (Apply(parsed, Step(tokens, i).binding), tokens)
  {
    StepAtLast(tokens, i);
  }

  /** The same for the whole loop, when the final token is a flag only the
      dash form matches: its key maps to `true`. */
  lemma ParseFromLastFlag(tokens: seq<string>, i: nat, parsed: map<string, ArgValue>)
    requires i < |tokens|
    ensures |ParseFrom(tokens, i, parsed).1| == |tokens|
    ensures var r := ParseFrom(tokens, i, parsed);
            var t := r.1[|tokens| - 1];
            SplitPoint(t).None? && DashFrom(t, 0).Some? ==> KeyOf(t).value in r.0 && r.0[KeyOf(t).value] == Flag
  {
    ParseFromLastStep(tokens, i, parsed);
    StepAtLast(ParseFrom(tokens, i, parsed).1, |tokens| - 1);
  }

  /** The loop body at the last position moves past the end and leaves the
      array alone; a token only the dash form matches is a flag there. */
  lemma StepAtLast(tokens: seq<string>, i: nat)
    requires i == |tokens| - 1
    ensures Step(tokens, i).next == |tokens| && Step(tokens, i).tokens == tokens
    ensures var t := tokens[i];
            SplitPoint(t).None? && DashFrom(t, 0).Some? ==>
              Step(tokens, i).binding == Some(Binding(KeyOf(t).value, Flag))
  {
  }

  /** The last position is always visited: when the array ends with a dash
      flag (one the equals form does not take), that flag's value is `true`. */
  lemma LastDashFlagIsTrue(tokens: seq<string>)
    requires |tokens| > 0
    ensures |Parse(tokens).1| == |tokens|
    ensures var r := Parse(tokens);
            var t := r.1[|tokens| - 1];
            SplitPoint(t).None? && DashFrom(t, 0).Some? ==> KeyOf(t).value in r.0 && r.0[KeyOf(t).value] == Flag
  {
    ParseFromLastFlag(tokens, 0, map[]);
  }

  lemma SplitAt(t: string, k: nat)
    requires 1 <= k < |t| - 1 && t[k] == '='
    requires forall m :: k < m < |t| - 1 ==> t[m] != '='
    ensures SplitPoint(t) == Some(k)
  {
    assert SplitPoint(t).Some?;
  }

  lemma DashAt(t: string, p: nat)
    requires p + 1 < |t| && t[p] == '-'
    requires forall q :: 0 <= q < p ==> t[q] != '-'
    ensures DashFrom(t, 0) == Some(p)
  {
    assert DashFrom(t, 0).Some?;
  }

  // ----- the value rules of the loop body -----

  /** Writing the first value before the tokens `a..b`, each after one
      space, is joining them all with single spaces. */
  lemma {:induction false} SpacedJoin(first: string, tokens: seq<string>, a: nat, b: nat)
    requires a <= b <= |tokens|
    ensures first + Spaced(tokens, a, b) == Join([first] + tokens[a..b], " ")
    decreases b - a
  {
    if a == b {
      assert [first] + tokens[a..b] == [first];
    } else {
      SpacedJoin(first, tokens, a, b - 1);
      assert [first] + tokens[a..b] == ([first] + tokens[a..b - 1]) + [tokens[b - 1]];
      JoinSnoc([first] + tokens[a..b - 1], tokens[b - 1], " ");
      AppendAssoc(first, Spaced(tokens, a, b - 1) + " ", tokens[b - 1]);
      AppendAssoc(first, Spaced(tokens, a, b - 1), " ");
    }
  }

  /** The equals form `key=value` with an unquoted value: the key
      lower-cased is bound to the value as it stands. */
  lemma EqualsPlainRule(tokens: seq<string>, i: nat)
    requires i < |tokens| && SplitPoint(tokens[i]).Some?
    requires tokens[i][SplitPoint(tokens[i]).value + 1] != '"'
    ensures var t, k := tokens[i], SplitPoint(tokens[i]).value;
            Step(tokens, i) == StepResult(tokens, i + 1, Some(Binding(Lower(t[..k]), Text(t[k + 1..]))))
  {
  }

  /** A value opening with `"` that no later token closes is bound as it
      stands, quote included. */
  lemma QuoteUnclosedRule(tokens: seq<string>, i: nat)
    requires i < |tokens| && SplitPoint(tokens[i]).Some?
    requires tokens[i][SplitPoint(tokens[i]).value + 1] == '"' && CloseFrom(tokens, i + 1).None?
    ensures var t, k := tokens[i], SplitPoint(tokens[i]).value;
            Step(tokens, i) == StepResult(tokens, i + 1, Some(Binding(Lower(t[..k]), Text(t[k + 1..]))))
            && t[k + 1..][0] == '"'
  {
  }

  /** A value opening with `"` that a later token closes: the text after the
      opening quote, every token up to the closing one, and the closing
      token's text before its quote, joined with single spaces. The closing
      token is left holding the text after its quote, and the loop resumes
      there. */
  lemma QuoteClosedRule(tokens: seq<string>, i: nat)
    requires i < |tokens| && SplitPoint(tokens[i]).Some?
    requires tokens[i][SplitPoint(tokens[i]).value + 1] == '"' && CloseFrom(tokens, i + 1).Some?
    ensures var t, k := tokens[i], SplitPoint(tokens[i]).value;
            var j := CloseFrom(tokens, i + 1).value;
            Step(tokens, i)
            == StepResult(tokens[j := AfterQuote(tokens[j])], j,
                          Some(Binding(Lower(t[..k]), Text(Join([t[k + 2..]] + tokens[i + 1..j] + [BeforeQuote(tokens[j])], " ")))))
  {
    var t, k := tokens[i], SplitPoint(tokens[i]).value;
    var j := CloseFrom(tokens, i + 1).value;
    assert t[k + 1..][1..] == t[k + 2..];
    QuotedValue(t[k + 2..], tokens, i, j);
  }

  /** The quoted value the inner loop builds is the parts it took, joined. */
  lemma QuotedValue(opening: string, tokens: seq<string>, i: nat, j: nat)
    requires i < j < |tokens| && ClosesQuote(tokens[j])
    ensures opening + Spaced(tokens, i + 1, j) + " " + BeforeQuote(tokens[j])
            == Join([opening] + tokens[i + 1..j] + [BeforeQuote(tokens[j])], " ")
  {
    SpacedJoin(opening, tokens, i + 1, j);
    JoinSnoc([opening] + tokens[i + 1..j], BeforeQuote(tokens[j]), " ");
  }

  /** The dash form on the last token: a flag. */
  lemma DashLastRule(tokens: seq<string>, i: nat)
    requires i == |tokens| - 1 && SplitPoint(tokens[i]).None? && DashFrom(tokens[i], 0).Some?
    ensures Step(tokens, i) == StepResult(tokens, i + 1, Some(Binding(KeyOf(tokens[i]).value, Flag)))
  {
  }

  /** The dash form with one token after it: that token is its value unless
      the dash pattern matches it, and then it is a flag; either way the loop
      reads that token next. */
  lemma DashOneRule(tokens: seq<string>, i: nat)
    requires i + 2 == |tokens| && SplitPoint(tokens[i]).None? && DashFrom(tokens[i], 0).Some?
    ensures Step(tokens, i)
            == StepResult(tokens, i + 1,
                          Some(Binding(KeyOf(tokens[i]).value,
                                       if DashFrom(tokens[i + 1], 0).Some? then Flag else Text(tokens[i + 1]))))
  {
  }

  /** The dash form with two or more tokens after it: its value is the
      following tokens joined with single spaces, up to the next token either
      pattern matches, or through the last token, which is taken whatever it
      is; the loop resumes at the token where the value stopped. */
  lemma DashRunRule(tokens: seq<string>, i: nat)
    requires i + 2 < |tokens| && SplitPoint(tokens[i]).None? && DashFrom(tokens[i], 0).Some?
    ensures var s := DashStop(tokens, i + 2);
            var e := if s == |tokens| - 1 then |tokens| else s;
            Step(tokens, i) == StepResult(tokens, s, Some(Binding(KeyOf(tokens[i]).value, Text(Join(tokens[i + 1..e], " ")))))
  {
    DashRunStep(tokens, i);
    DashRunValue(tokens, i, DashStop(tokens, i + 2));
  }

  /** The loop body's own words for the same case. */
  lemma DashRunStep(tokens: seq<string>, i: nat)
    requires i + 2 < |tokens| && SplitPoint(tokens[i]).None? && DashFrom(tokens[i], 0).Some?
    ensures var s := DashStop(tokens, i + 2);
            var last := if s == |tokens| - 1 then " " + tokens[s] else "";
            Step(tokens, i) == StepResult(tokens, s, Some(Binding(KeyOf(tokens[i]).value, Text(tokens[i + 1] + Spaced(tokens, i + 2, s) + last))))
  {
  }

  /** The value the inner loop builds is the tokens it took, joined. */
  lemma DashRunValue(tokens: seq<string>, i: nat, s: nat)
    requires i + 2 <= s < |tokens|
    ensures var last := if s == |tokens| - 1 then " " + tokens[s] else "";
            var e := if s == |tokens| - 1 then |tokens| else s;
            tokens[i + 1] + Spaced(tokens, i + 2, s) + last == Join(tokens[i + 1..e], " ")
  {
    SpacedJoin(tokens[i + 1], tokens, i + 2, s);
    assert [tokens[i + 1]] + tokens[i + 2..s] == tokens[i + 1..s];
    if s == |tokens| - 1 {
      JoinSnoc(tokens[i + 1..s], tokens[s], " ");
      AppendAssoc(Join(tokens[i + 1..s], " "), " ", tokens[s]);
      assert tokens[i + 1..s] + [tokens[s]] == tokens[i + 1..|tokens|];
    } else {
      assert tokens[i + 1] + Spaced(tokens, i + 2, s) + "" == tokens[i + 1] + Spaced(tokens, i + 2, s);
    }
  }

  /** The equals pattern splits at the last `=` that has a character after
      it, and the key is lower-cased. */
  lemma EqualsExamples()
    ensures KeyOf("KEY=value") == Some("key")
    ensures KeyOf("a=b=c") == Some("a=b")
  {
    SplitAt("KEY=value", 3);
    assert "KEY=value"[..3] == "KEY";
    assert LowerChar('K') == 'k' && LowerChar('E') == 'e' && LowerChar('Y') == 'y';
    assert Lower("KEY") == "key";
    SplitAt("a=b=c", 3);
    assert "a=b=c"[..3] == "a=b";
    assert Lower("a=b") == "a=b";
  }

  /** The dash pattern is unanchored: it matches at the first `-` that has
      a character after it, and takes a second dash only when a character
      follows both. */
  lemma DashExamples()
    ensures KeyOf("well-known") == Some("known")
    ensures KeyOf("--") == Some("-")
    ensures KeyOf("--Flag") == Some("flag")
  {
    DashAt("well-known", 4);
    assert "well-known"[5..] == "known";
    assert Lower("known") == "known";
    DashAt("--", 0);
    assert "--"[1..] == "-";
    assert Lower("-") == "-";
    DashAt("--Flag", 0);
    assert "--Flag"[2..] == "Flag";
    assert LowerChar('F') == 'f';
    assert Lower("Flag") == "flag";
  }

  /** A lone dash, and an `=` at either end, match neither pattern. */
  lemma UnmatchedExamples()
    ensures KeyOf("-") == None && KeyOf("=x") == None && KeyOf("x=") == None
  {
    assert SplitPoint("=x").None? && DashFrom("=x", 0).None?;
    assert SplitPoint("x=").None? && DashFrom("x=", 0).None?;
  }

  /** `key=value` gives `{key: 'value'}`. */
  lemma KeyValueExample()
    ensures Parse(["key=value"]).0 == map["key" := Text("value")]
  {
    var t := ["key=value"];
    SplitAt("key=value", 3);
    assert "key=value"[..3] == "key" && Lower("key") == "key";
    assert "key=value"[4..] == "value";
    EqualsPlainRule(t, 0);
    ParseFromStep(t, 0, map[]);
  }

  /** A quote that nothing closes leaves the value as it was typed, quote
      included, and the later tokens are read on their own. */
  lemma UnclosedQuoteExample()
    ensures Parse(["k=\"a", "b"]).0 == map["k" := Text("\"a")]
  {
    var t := ["k=\"a", "b"];
    SplitAt("k=\"a", 1);
    assert "k=\"a"[..1] == "k" && Lower("k") == "k";
    assert "k=\"a"[2..] == "\"a";
    assert QuoteFrom("b", 0).None?;
    assert CloseFrom(t, 1).None?;
    QuoteUnclosedRule(t, 0);
    ParseFromStep(t, 0, map[]);
    assert SplitPoint("b").None? && DashFrom("b", 0).None?;
    ParseFromStep(t, 1, map["k" := Text("\"a")]);
  }

  /** A dash flag followed by plain tokens takes them all, joined with
      spaces. */
  lemma DashRunExample()
    ensures Parse(["--flag", "val1", "val2"]).0 == map["flag" := Text("val1 val2")]
  {
    var t := ["--flag", "val1", "val2"];
    DashRunFirstStep();
    ParseFromStep(t, 0, map[]);
    assert SplitPoint("val2").None? && DashFrom("val2", 0).None?;
    ParseFromStep(t, 2, map["flag" := Text("val1 val2")]);
  }

  lemma DashRunFirstStep()
    ensures var t := ["--flag", "val1", "val2"];
            Step(t, 0) == StepResult(t, 2, Some(Binding("flag", Text("val1 val2"))))
  {
    var t := ["--flag", "val1", "val2"];
    FlagKey();
    assert DashStop(t, 2) == 2;
    DashRunRule(t, 0);
    assert t[1..3] == ["val1", "val2"];
    JoinPair("val1", "val2", " ");
    assert "val1" + " " + "val2" == "val1 val2";
  }

  /** `--flag` matches only the dash form, with the key `flag`. */
  lemma FlagKey()
    ensures SplitPoint("--flag").None? && DashFrom("--flag", 0) == Some(0) && KeyOf("--flag") == Some("flag")
  {
    assert SplitPoint("--flag").None?;
    DashAt("--flag", 0);
    assert "--flag"[2..] == "flag" && Lower("flag") == "flag";
  }

  /** `key="a value"` spread over tokens: the value runs up to the token
      that closes the quote, and that token is left holding what followed
      its quote. */
  lemma QuotedExample()
    ensures Parse(["key=\"a", "b", "c\""]) == (map["key" := Text("a b c")], ["key=\"a", "b", ""])
  {
    var t := ["key=\"a", "b", "c\""];
    SplitAt("key=\"a", 3);
    assert "key=\"a"[..3] == "key" && Lower("key") == "key";
    assert "key=\"a"[4..] == "\"a" && "\"a"[1..] == "a";
    assert !ClosesQuote("b");
    assert QuoteFrom("c\"", 0) == Some(1);
    assert CloseFrom(t, 1) == Some(2);
    assert BeforeQuote("c\"") == "c" && AfterQuote("c\"") == "";
    assert Spaced(t, 1, 2) == " b";
    assert "a" + " b" + " " + "c" == "a b c";
    var st := Step(t, 0);
    assert st.tokens == ["key=\"a", "b", ""];
    assert st.binding == Some(Binding("key", Text("a b c")));
    assert !Recognized("");
    assert Step(st.tokens, 2) == StepResult(st.tokens, 3, None);
  }

  /** A dash flag followed by two or more tokens swallows them all up to a
      recognised token, and swallows the last token even when it is one; the
      last token is then read again on its own. */
  lemma DashValueExample()
    ensures Parse(["--flag", "val", "--other=1"]).0
            == map["flag" := Text("val --other=1"), "--other" := Text("1")]
  {
    var t := ["--flag", "val", "--other=1"];
    DashValueFirstStep();
    DashValueLastStep();
    ParseFromStep(t, 0, map[]);
    ParseFromStep(t, 2, map["flag" := Text("val --other=1")]);
  }

  lemma DashValueFirstStep()
    ensures var t := ["--flag", "val", "--other=1"];
            Step(t, 0) == StepResult(t, 2, Some(Binding("flag", Text("val --other=1"))))
  {
    var t := ["--flag", "val", "--other=1"];
    assert SplitPoint("--flag").None?;
    DashAt("--flag", 0);
    assert DashKey("--flag", 0) == "flag" by {
      assert "--flag"[2..] == "flag";
    }
    assert Lower("flag") == "flag";
    assert DashStop(t, 2) == 2 && Spaced(t, 2, 2) == "";
    assert t[1] + Spaced(t, 2, 2) + (" " + t[2]) == "val --other=1";
  }

  lemma DashValueLastStep()
    ensures var t := ["--flag", "val", "--other=1"];
            Step(t, 2) == StepResult(t, 3, Some(Binding("--other", Text("1"))))
  {
    SplitAt("--other=1", 7);
    assert "--other=1"[..7] == "--other" && Lower("--other") == "--other";
    assert "--other=1"[8..] == "1";
  }

  /** One turn of the loop. */
  lemma ParseFromStep(tokens: seq<string>, i: nat, parsed: map<string, ArgValue>)
    requires i < |tokens|
    ensures var st := Step(tokens, i);
            ParseFrom(tokens, i, parsed) == ParseFrom(st.tokens, st.next, Apply(parsed, st.binding))
  {
  }

  /** A dash flag followed by one token takes it as its value... */
  lemma FlagValueExample()
    ensures Parse(["--name", "bob"]).0 == map["name" := Text("bob")]
  {
    var t := ["--name", "bob"];
    FlagValueFirstStep();
    assert SplitPoint("bob").None? && DashFrom("bob", 0).None?;
    ParseFromStep(t, 0, map[]);
    ParseFromStep(t, 1, map["name" := Text("bob")]);
  }

  lemma FlagValueFirstStep()
    ensures var t := ["--name", "bob"];
            Step(t, 0) == StepResult(t, 1, Some(Binding("name", Text("bob"))))
  {
    assert SplitPoint("--name").None? && DashFrom("bob", 0).None?;
    DashAt("--name", 0);
    assert "--name"[2..] == "name" && Lower("name") == "name";
  }

  /** ...unless that token is itself a dash flag. */
  lemma FlagPairExample()
    ensures Parse(["-a", "-b"]).0 == map["a" := Flag, "b" := Flag]
  {
    var t := ["-a", "-b"];
    assert SplitPoint("-a").None? && SplitPoint("-b").None?;
    DashAt("-a", 0);
    DashAt("-b", 0);
    assert "-a"[1..] == "a" && Lower("a") == "a";
    assert "-b"[1..] == "b" && Lower("b") == "b";
    var st := Step(t, 0);
    assert st.tokens == t && st.next == 1 && st.binding == Some(Binding("a", Flag));
    var st2 := Step(t, 1);
    assert st2.tokens == t && st2.next == 2 && st2.binding == Some(Binding("b", Flag));
  }
}
