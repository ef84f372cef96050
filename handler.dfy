/** `CommandHandler` (lib/CommandHandler.js): the registry of commands under
    their lower-cased names and aliases, the `_create` flattener that turns
    what `register` is given into commands, `unregister`, `process`, the
    help listing and the iterator.

    The registry is a `Collection` (a JavaScript `Map`): `commands` holds its
    entries and `order` its keys in insertion order, which the help listing
    and the iterator follow. */
module Handler {
  import opened Common
  import opened Commands
  import opened Messages
  import opened Dispatcher

  // ----- `_create` -----

  /** What `_create` can be given. A class is the instance `new i(...d)`
      yields when that is a `Command`, `None` otherwise. An object that is
      neither a command nor an array is the list of its own values, in key
      order. `null` is kept apart because `Object.keys(null)` throws. */
  datatype Item =
    | CommandItem(command: Command)
    | ClassItem(made: Option<Command>)
    | ArrayItem(elems: seq<Item>)
    | ObjectItem(values: seq<Item>)
    | NullItem
    | OtherItem

  /** `_create`'s result: `null`, an array of commands, or a `TypeError`. */
  datatype Created = NoCommands | Made(list: seq<Command>) | Threw

  /** How many entries the collection loop has pushed (a `null` counts, an
      empty array adds none) and which of them are commands. */
  datatype Pushed = Pushed(count: nat, list: seq<Command>)

  function Children(item: Item): seq<Item> {
    match item
    case ArrayItem(elems) => elems
    case ObjectItem(values) => values
    case _ => []
  }

  /** `_create(item)`. */
  function Flatten(item: Item): Created
    decreases item, 1, 0
  {
    match item
    case CommandItem(c) => Made([c])
    case ClassItem(made) => if made.Some? then Made([made.value]) else NoCommands
    case NullItem => Threw
    case OtherItem => NoCommands
    case _ =>
      match PushPrefix(item, |Children(item)|)
      case None => Threw
      case Some(p) => if p.count == 0 then NoCommands else Made(p.list)
  }

  /** The collection loop of `_create` over the first `k` children; `None`
      when one of them throws. */
  function PushPrefix(item: Item, k: nat): Option<Pushed>
    requires k <= |Children(item)|
    decreases item, 0, k
  {
    if k == 0 then Some(Pushed(0, []))
    else
      match PushPrefix(item, k - 1)
      case None => None
      case Some(p) =>
        assert Children(item)[k - 1] in Children(item);
        match Flatten(Children(item)[k - 1])
        case Threw => None
        case NoCommands => Some(Pushed(p.count + 1, p.list))
        case Made(l) => Some(Pushed(p.count + |l|, p.list + l))
  }

  /** Whether a `null` is reachable through arrays and objects. */
  predicate HasNull(item: Item)
    decreases item
  {
    item.NullItem? || ((item.ArrayItem? || item.ObjectItem?) && exists e :: e in Children(item) && HasNull(e))
  }

  /** The commands reachable through arrays and objects. */
  function Reachable(item: Item): set<Command>
    decreases item
  {
    match item
    case CommandItem(c) => {c}
    case ClassItem(made) => if made.Some? then {made.value} else {}
    case ArrayItem(elems) => set e, c | e in elems && c in Reachable(e) :: c
    case ObjectItem(values) => set e, c | e in values && c in Reachable(e) :: c
    case _ => {}
  }

  /** The collection loop throws exactly when one of the children does. */
  lemma {:induction false} PushPrefixThrows(item: Item, k: nat)
    requires k <= |Children(item)|
    ensures PushPrefix(item, k).None? <==> exists i :: 0 <= i < k && Flatten(Children(item)[i]).Threw?
    decreases k
  {
    if k > 0 {
      PushPrefixThrows(item, k - 1);
    }
  }

  /** What the collection loop keeps: the commands its children give. */
  lemma {:induction false} PushPrefixList(item: Item, k: nat)
    requires k <= |Children(item)| && PushPrefix(item, k).Some?
    ensures forall c :: c in PushPrefix(item, k).value.list <==>
              exists i :: 0 <= i < k && Flatten(Children(item)[i]).Made? && c in Flatten(Children(item)[i]).list
    decreases k
  {
    if k > 0 {
      var p := PushPrefix(item, k - 1);
      PushPrefixList(item, k - 1);
      var r := Flatten(Children(item)[k - 1]);
      forall c ensures c in PushPrefix(item, k).value.list <==>
                 exists i :: 0 <= i < k && Flatten(Children(item)[i]).Made? && c in Flatten(Children(item)[i]).list
      {
        if r.Made? {
          assert PushPrefix(item, k).value.list == p.value.list + r.list;
        } else {
          assert PushPrefix(item, k).value.list == p.value.list;
        }
      }
    }
  }

  /** The collection loop pushes nothing only when every child gives an
      empty array. */
  lemma {:induction false} PushPrefixCount(item: Item, k: nat)
    requires k <= |Children(item)| && PushPrefix(item, k).Some? && PushPrefix(item, k).value.count == 0
    ensures forall i :: 0 <= i < k ==> Flatten(Children(item)[i]) == Made([])
    decreases k
  {
    if k > 0 {
      PushPrefixCount(item, k - 1);
    }
  }

  lemma HasNullChildren(item: Item)
    requires item.ArrayItem? || item.ObjectItem?
    ensures HasNull(item) <==> exists i :: 0 <= i < |Children(item)| && HasNull(Children(item)[i])
  {
    if HasNull(item) {
      var e :| e in Children(item) && HasNull(e);
      var i :| 0 <= i < |Children(item)| && Children(item)[i] == e;
    }
  }

  lemma ReachableChildren(item: Item, c: Command)
    requires item.ArrayItem? || item.ObjectItem?
    ensures c in Reachable(item) <==> exists i :: 0 <= i < |Children(item)| && c in Reachable(Children(item)[i])
  {
    if c in Reachable(item) {
      var e :| e in Children(item) && c in Reachable(e);
      var i :| 0 <= i < |Children(item)| && Children(item)[i] == e;
    }
  }

  /** `_create` throws exactly when a `null` is reachable. */
  lemma {:induction false} FlattenThrows(item: Item)
    ensures Flatten(item).Threw? <==> HasNull(item)
    decreases item
  {
    if item.ArrayItem? || item.ObjectItem? {
      var ch := Children(item);
      forall i | 0 <= i < |ch| ensures Flatten(ch[i]).Threw? <==> HasNull(ch[i]) {
        assert ch[i] in ch;
        FlattenThrows(ch[i]);
      }
      PushPrefixThrows(item, |ch|);
      HasNullChildren(item);
    }
  }

  /** The commands `_create` returns for `e` are exactly the reachable ones,
      and it returns `null` only when none is reachable. */
  ghost predicate Faithful(e: Item) {
    (Flatten(e).Made? ==> (forall c :: c in Flatten(e).list ==> c in Reachable(e))
                          && (forall c :: c in Reachable(e) ==> c in Flatten(e).list))
    && (Flatten(e).NoCommands? ==> Reachable(e) == {})
  }

  lemma ReachableAreCollected(item: Item, c: Command)
    requires item.ArrayItem? || item.ObjectItem?
    requires forall i :: 0 <= i < |Children(item)| ==> Faithful(Children(item)[i])
    requires PushPrefix(item, |Children(item)|).Some? && c in Reachable(item)
    ensures c in PushPrefix(item, |Children(item)|).value.list
  {
    var ch := Children(item);
    PushPrefixThrows(item, |ch|);
    PushPrefixList(item, |ch|);
    ReachableChildren(item, c);
    var i :| 0 <= i < |ch| && c in Reachable(ch[i]);
    assert Faithful(ch[i]);
  }

  lemma CollectedAreReachable(item: Item, c: Command)
    requires item.ArrayItem? || item.ObjectItem?
    requires forall i :: 0 <= i < |Children(item)| ==> Faithful(Children(item)[i])
    requires PushPrefix(item, |Children(item)|).Some? && c in PushPrefix(item, |Children(item)|).value.list
    ensures c in Reachable(item)
  {
    var ch := Children(item);
    PushPrefixList(item, |ch|);
    var i :| 0 <= i < |ch| && Flatten(ch[i]).Made? && c in Flatten(ch[i]).list;
    assert Faithful(ch[i]);
    ReachableChildren(item, c);
  }

  lemma NothingPushedNothingReachable(item: Item)
    requires item.ArrayItem? || item.ObjectItem?
    requires forall i :: 0 <= i < |Children(item)| ==> Faithful(Children(item)[i])
    requires PushPrefix(item, |Children(item)|).Some? && PushPrefix(item, |Children(item)|).value.count == 0
    ensures Reachable(item) == {}
  {
    var ch := Children(item);
    PushPrefixCount(item, |ch|);
    forall e | e in ch ensures Reachable(e) == {} {
      var i :| 0 <= i < |ch| && ch[i] == e;
      assert Faithful(ch[i]) && Flatten(ch[i]) == Made([]);
    }
  }

  lemma FaithfulFromChildren(item: Item)
    requires item.ArrayItem? || item.ObjectItem?
    requires forall i :: 0 <= i < |Children(item)| ==> Faithful(Children(item)[i])
    ensures Faithful(item)
  {
    var p := PushPrefix(item, |Children(item)|);
    if p.Some? {
      assert Flatten(item) == if p.value.count == 0 then NoCommands else Made(p.value.list);
      forall c | c in Reachable(item) ensures c in p.value.list {
        ReachableAreCollected(item, c);
      }
      forall c | c in p.value.list ensures c in Reachable(item) {
        CollectedAreReachable(item, c);
      }
      if p.value.count == 0 {
        NothingPushedNothingReachable(item);
      }
    }
  }

  /** Without a reachable `null`, the commands `_create` returns are exactly
      the reachable ones, and it returns `null` only when none is reachable. */
  lemma {:induction false} FlattenCommands(item: Item)
    ensures Faithful(item)
    decreases item
  {
    if item.ArrayItem? || item.ObjectItem? {
      var ch := Children(item);
      forall i | 0 <= i < |ch| ensures Faithful(ch[i]) {
        assert ch[i] in ch;
        FlattenCommands(ch[i]);
      }
      FaithfulFromChildren(item);
    }
  }

  /** `_create` on an array of commands returns them; on an array holding
      nothing but non-commands it returns an empty array, not `null`; on an
      empty array it returns `null`. */
  lemma CreateExamples(a: Command, b: Command)
    ensures Flatten(ArrayItem([CommandItem(a), OtherItem, CommandItem(b)])) == Made([a, b])
    ensures Flatten(ArrayItem([OtherItem])) == Made([])
    ensures Flatten(ArrayItem([])) == NoCommands
    ensures Flatten(ObjectItem([ArrayItem([OtherItem])])) == NoCommands
    ensures Flatten(ArrayItem([CommandItem(a), NullItem])) == Threw
  {
    var x := ArrayItem([CommandItem(a), OtherItem, CommandItem(b)]);
    assert Children(x)[0] == CommandItem(a) && Flatten(CommandItem(a)) == Made([a]);
    assert Children(x)[1] == OtherItem && Flatten(OtherItem) == NoCommands;
    assert Children(x)[2] == CommandItem(b) && Flatten(CommandItem(b)) == Made([b]);
    assert PushPrefix(x, 1) == Some(Pushed(1, [a])) by {
      assert [] + [a] == [a];
    }
    assert PushPrefix(x, 2) == Some(Pushed(2, [a]));
    assert PushPrefix(x, 3) == Some(Pushed(3, [a, b])) by {
      assert [a] + [b] == [a, b];
    }
    var o := ArrayItem([OtherItem]);
    assert Children(o)[0] == OtherItem;
    assert PushPrefix(o, 1) == Some(Pushed(1, []));
    assert Flatten(o) == Made([]);
    var w := ObjectItem([o]);
    assert Children(w)[0] == o && Flatten(Children(w)[0]) == Made([]);
    var none: seq<Command> := [];
    assert PushPrefix(w, 0) == Some(Pushed(0, none));
    assert none + none == none;
    assert PushPrefix(w, 1) == Some(Pushed(0, none));
    var y := ArrayItem([CommandItem(a), NullItem]);
    assert Children(y)[0] == CommandItem(a) && Children(y)[1] == NullItem;
    assert PushPrefix(y, 1) == Some(Pushed(1, [a])) by {
      assert [] + [a] == [a];
    }
    assert Flatten(NullItem) == Threw;
    assert PushPrefix(y, 2) == None;
  }

  /** The lower-cased keys under which `register` indexes a command. */
  function Keys(c: Command): (r: seq<string>)
    ensures |r| == |c.aliases| + 1 && r[0] == Lower(c.name)
    ensures forall i :: 0 <= i < |c.aliases| ==> r[i + 1] == Lower(c.aliases[i])
  {
    LowerAll(c.Names())
  }

  /** `m` after `set(k, c)` for each key of `keys`, in order. */
  function Assign(m: map<string, Command>, keys: seq<string>, c: Command): map<string, Command>
    decreases |keys|
  {
    if |keys| == 0 then m else Assign(m, keys[..|keys| - 1], c)[keys[|keys| - 1] := c]
  }

  /** Assigning keys to `c` maps exactly those keys to `c` and leaves every
      other entry as it was. */
  lemma {:induction false} AssignMeaning(m: map<string, Command>, keys: seq<string>, c: Command, k: string)
    ensures k in keys ==> k in Assign(m, keys, c) && Assign(m, keys, c)[k] == c
    ensures k !in keys ==> (k in Assign(m, keys, c) <==> k in m) && (k in m ==> Assign(m, keys, c)[k] == m[k])
    decreases |keys|
  {
    if |keys| > 0 {
      var init := keys[..|keys| - 1];
      assert keys == init + [keys[|keys| - 1]];
      AssignMeaning(m, init, c, k);
    }
  }

  /** The registry after the keys of `c` are set to `c`. */
  function IndexOne(m: map<string, Command>, c: Command): map<string, Command> {
    Assign(m, Keys(c), c)
  }

  /** The registry after the commands `cs` are indexed in turn. */
  function IndexMany(m: map<string, Command>, cs: seq<Command>): map<string, Command>
    decreases |cs|
  {
    if |cs| == 0 then m else IndexOne(IndexMany(m, cs[..|cs| - 1]), cs[|cs| - 1])
  }

  function KeysMany(cs: seq<Command>): seq<string>
    decreases |cs|
  {
    if |cs| == 0 then [] else KeysMany(cs[..|cs| - 1]) + Keys(cs[|cs| - 1])
  }

  lemma IndexManySnoc(m: map<string, Command>, cs: seq<Command>, c: Command)
    ensures IndexMany(m, cs + [c]) == IndexOne(IndexMany(m, cs), c)
  {
    assert (cs + [c])[..|cs|] == cs;
  }

  lemma KeysManySnoc(cs: seq<Command>, c: Command)
    ensures KeysMany(cs + [c]) == KeysMany(cs) + Keys(c)
  {
    assert (cs + [c])[..|cs|] == cs;
  }

  /** Indexing several commands: a key goes to the last command that has
      it. */
  lemma {:induction false} LastIndexWins(m: map<string, Command>, cs: seq<Command>, k: string, i: nat)
    requires i < |cs| && k in Keys(cs[i])
    requires forall j :: i < j < |cs| ==> k !in Keys(cs[j])
    ensures k in IndexMany(m, cs) && IndexMany(m, cs)[k] == cs[i]
    decreases |cs|
  {
    var init, last := cs[..|cs| - 1], cs[|cs| - 1];
    AssignMeaning(IndexMany(m, init), Keys(last), last, k);
    if i < |cs| - 1 {
      LastIndexWins(m, init, k, i);
    }
  }

  /** Indexing several commands: a key none of them has keeps its entry, or
      stays absent. */
  lemma {:induction false} UnclaimedKeyKept(m: map<string, Command>, cs: seq<Command>, k: string)
    requires forall i :: 0 <= i < |cs| ==> k !in Keys(cs[i])
    ensures (k in IndexMany(m, cs) <==> k in m) && (k in m ==> IndexMany(m, cs)[k] == m[k])
    decreases |cs|
  {
    if |cs| > 0 {
      var init, last := cs[..|cs| - 1], cs[|cs| - 1];
      AssignMeaning(IndexMany(m, init), Keys(last), last, k);
      UnclaimedKeyKept(m, init, k);
    }
  }

  lemma {:induction false} IndexManyConcat(m: map<string, Command>, xs: seq<Command>, ys: seq<Command>)
    ensures IndexMany(m, xs + ys) == IndexMany(IndexMany(m, xs), ys)
    decreases |ys|
  {
    if |ys| == 0 {
      assert xs + ys == xs;
    } else {
      var init, last := ys[..|ys| - 1], ys[|ys| - 1];
      IndexManyConcat(m, xs, init);
      SplitLast(xs, ys);
      IndexManySnoc(m, xs + init, last);
      IndexManySnoc(IndexMany(m, xs), init, last);
    }
  }

  lemma {:induction false} KeysManyConcat(xs: seq<Command>, ys: seq<Command>)
    ensures KeysMany(xs + ys) == KeysMany(xs) + KeysMany(ys)
    decreases |ys|
  {
    if |ys| == 0 {
      assert xs + ys == xs;
      assert KeysMany(xs) + [] == KeysMany(xs);
    } else {
      var init, last := ys[..|ys| - 1], ys[|ys| - 1];
      KeysManyConcat(xs, init);
      SplitLast(xs, ys);
      KeysManySnoc(xs + init, last);
      KeysManySnoc(init, last);
      AppendAssoc(KeysMany(xs), KeysMany(init), Keys(last));
    }
  }

  /** Every key of `m` is one of the keys of the command it maps to. */
  ghost predicate IndexedMap(m: map<string, Command>) {
    forall k :: k in m ==> k in Keys(m[k])
  }

  lemma IndexedMinus(m: map<string, Command>, gone: set<string>)
    requires IndexedMap(m)
    ensures IndexedMap(m - gone)
  {
  }

  lemma {:induction false} AssignIndexed(m: map<string, Command>, keys: seq<string>, c: Command)
    requires IndexedMap(m) && forall i :: 0 <= i < |keys| ==> keys[i] in Keys(c)
    ensures IndexedMap(Assign(m, keys, c))
    decreases |keys|
  {
    if |keys| > 0 {
      AssignIndexed(m, keys[..|keys| - 1], c);
    }
  }

  /** Indexing keeps every key among the keys of the command it maps to. */
  lemma {:induction false} IndexManyIndexed(m: map<string, Command>, cs: seq<Command>)
    requires IndexedMap(m)
    ensures IndexedMap(IndexMany(m, cs))
    decreases |cs|
  {
    if |cs| > 0 {
      IndexManyIndexed(m, cs[..|cs| - 1]);
      AssignIndexed(IndexMany(m, cs[..|cs| - 1]), Keys(cs[|cs| - 1]), cs[|cs| - 1]);
    }
  }

  // ----- the registry -----

  /** An `unregister` argument: a `Command`, or anything else (skipped). */
  datatype Unregistered = Given(command: Command) | NotACommand

  function GoneKeys(items: seq<Unregistered>): set<string>
    decreases |items|
  {
    if |items| == 0 then {}
    else
      var last := items[|items| - 1];
      GoneKeys(items[..|items| - 1]) + (if last.Given? then Elems(Keys(last.command)) else {})
  }

  lemma GoneKeysSnoc(items: seq<Unregistered>, i: nat)
    requires i < |items|
    ensures items[i].Given? ==> GoneKeys(items[..i + 1]) == GoneKeys(items[..i]) + Elems(Keys(items[i].command))
    ensures items[i].NotACommand? ==> GoneKeys(items[..i + 1]) == GoneKeys(items[..i])
  {
    assert items[..i + 1][..i] == items[..i];
  }

  /** The commands a `_create` result holds. */
  function Yielded(c: Created): seq<Command> {
    if c.Made? then c.list else []
  }

  /** The commands `register` indexes, in order, as intended: every command
      `_create` yields for each item, up to the first item that throws. */
  datatype Registration = Registration(indexed: seq<Command>, threw: bool)

  function Registered(items: seq<Item>): Registration
    decreases |items|
  {
    if |items| == 0 then Registration([], false)
    else
      var r := Registered(items[..|items| - 1]);
      if r.threw then r
      else
        match Flatten(items[|items| - 1])
        case Threw => Registration(r.indexed, true)
        case NoCommands => r
        case Made(l) => Registration(r.indexed + l, false)
  }

  /** The commands of `xs`, each once, at its first position: a `Set` built
      from them. */
  function Dedup(xs: seq<Command>): (r: seq<Command>)
    ensures Distinct(r)
    ensures (forall i :: 0 <= i < |r| ==> r[i] in xs) && forall i :: 0 <= i < |xs| ==> xs[i] in r
    decreases |xs|
  {
    if |xs| == 0 then []
    else
      var d := Dedup(xs[..|xs| - 1]);
      var last := xs[|xs| - 1];
      if last in d then d else d + [last]
  }

  /** The default help line of a command: `*name* - description | `usage``. */
  function HelpEntry(c: Command): (r: string)
    reads c
    ensures |r| > 0
  {
    "*" + c.name + "* - " + c.description + " | `" + c.UsageStatement() + "`"
  }

  /** `defaultHelpFilter` as written: the entry's key, which is lower-cased,
      is compared with the aliases as they were given. */
  predicate DefaultHelpFilter(key: string, c: Command) {
    key !in c.aliases && c.commandType == "command" && |c.allowedUsers| == 0
  }

  /** The help filter as evidently intended: an entry is left out when its
      key is one of the command's aliases after lower-casing. */
  predicate HelpFilter(key: string, c: Command) {
    key !in LowerAll(c.aliases) && c.commandType == "command" && |c.allowedUsers| == 0
  }

  /** An alias that is not lower-case gets through the filter as written:
      `ping` with alias `P` is listed under `ping` and again under `p`. */
  lemma DefaultHelpFilterListsAliases(c: Command)
    requires c.name == "ping" && c.aliases == ["P"] && c.commandType == "command" && c.allowedUsers == []
    ensures Keys(c) == ["ping", "p"]
    ensures DefaultHelpFilter("ping", c) && DefaultHelpFilter("p", c)
    ensures HelpFilter("ping", c) && !HelpFilter("p", c)
  {
    assert Lower("P") == "p" by {
      assert LowerChar('P') == 'p';
    }
    assert Lower("ping") == "ping";
    assert LowerAll(["P"]) == ["p"];
  }

  class CommandHandler {
    var commands: map<string, Command>
    var order: seq<string>
    const enforceArgLimits: bool

    /** The `Map` invariants: `order` lists each key once, and the keys are
        lower-case because every write lower-cases them. */
    ghost predicate Valid()
      reads this
    {
      Distinct(order) && (forall k :: k in commands <==> k in order) && forall k :: k in commands ==> IsLower(k)
    }

    /** Every key is one of the keys of the command it maps to. */
    ghost predicate Indexed()
      reads this
    {
      IndexedMap(commands)
    }

    /** `new CommandHandler({ enforceArgLimits })`. */
    constructor(enforceArgLimits: bool)
      ensures commands == map[] && order == [] && this.enforceArgLimits == enforceArgLimits
      ensures Valid() && Indexed()
    {
      commands := map[];
      order := [];
      this.enforceArgLimits := enforceArgLimits;
    }

    /** `_add(name, command)`: a `set` under the lower-cased name; a new key
        goes last, an existing one keeps its place. */
    method Add(name: string, command: Command)
      requires Valid()
      modifies this
      ensures Valid()
      ensures commands == old(commands)[Lower(name) := command]
      ensures order == Appended(old(order), [Lower(name)])
    {
      var key := Lower(name);
      assert [key][..0] == [];
      if key !in commands {
        order := order + [key];
      }
      commands := commands[key := command];
    }

    /** `_remove(name)`: a `delete` of the lower-cased name. */
    method Remove(name: string)
      requires Valid()
      modifies this
      ensures Valid()
      ensures commands == old(commands) - {Lower(name)}
      ensures order == Without(old(order), {Lower(name)})
    {
      var key := Lower(name);
      commands := commands - {key};
      order := Without(order, {key});
    }

    /** The body of `register`'s loop for one command: its name and every
        alias, lower-cased, now map to it; every other key is untouched. */
    method Index(command: Command)
      requires Valid()
      modifies this
      ensures Valid()
      ensures commands == IndexOne(old(commands), command)
      ensures order == Appended(old(order), Keys(command))
    {
      var names := command.Names();
      ghost var keys := Keys(command);
      ghost var m0, o0 := commands, order;
      assert keys[..0] == [];
      var i := 0;
      while i < |names|
        invariant 0 <= i <= |names| && Valid()
        invariant commands == Assign(m0, keys[..i], command)
        invariant order == Appended(o0, keys[..i])
      {
        assert keys[i] == Lower(names[i]);
        TakeSnoc(keys, i);
        AppendedConcat(o0, keys[..i], [keys[i]]);
        Add(names[i], command);
        i := i + 1;
      }
      assert keys[..i] == keys;
    }

    /** Each command of `list` indexed in turn. */
    method IndexAll(list: seq<Command>)
      requires Valid()
      modifies this
      ensures Valid()
      ensures commands == IndexMany(old(commands), list)
      ensures order == Appended(old(order), KeysMany(list))
    {
      var j := 0;
      while j < |list|
        invariant 0 <= j <= |list| && Valid()
        invariant commands == IndexMany(old(commands), list[..j])
        invariant order == Appended(old(order), KeysMany(list[..j]))
      {
        TakeSnoc(list, j);
        IndexManySnoc(old(commands), list[..j], list[j]);
        AppendedConcat(old(order), KeysMany(list[..j]), Keys(list[j]));
        Index(list[j]);
        j := j + 1;
      }
      assert list[..j] == list;
    }

    /** `register(...items)` as evidently intended: every command `_create`
        yields for an item is indexed, item after item, until an item makes
        `_create` throw. */
    method Register(items: seq<Item>) returns (threw: bool)
      requires Valid()
      modifies this
      ensures Valid()
      ensures threw == Registered(items).threw
      ensures commands == IndexMany(old(commands), Registered(items).indexed)
      ensures order == Appended(old(order), KeysMany(Registered(items).indexed))
    {
      ghost var m0, o0 := commands, order;
      var i := 0;
      while i < |items|
        invariant 0 <= i <= |items| && Valid()
        invariant !Registered(items[..i]).threw
        invariant commands == IndexMany(m0, Registered(items[..i]).indexed)
        invariant order == Appended(o0, KeysMany(Registered(items[..i]).indexed))
      {
        var failed := RegisterItem(items[i]);
        if failed {
          RegisterThrows(items, i);
          return true;
        }
        RegisterStep(m0, o0, items, i);
        i := i + 1;
      }
      assert items[..i] == items;
      threw := false;
    }

    /** The body of `register`'s loop for one item, as intended: index every
        command `_create` yields for it. */
    method RegisterItem(item: Item) returns (threw: bool)
      requires Valid()
      modifies this
      ensures Valid()
      ensures threw == Flatten(item).Threw?
      ensures threw ==> commands == old(commands) && order == old(order)
      ensures !threw ==> commands == IndexMany(old(commands), Yielded(Flatten(item)))
                         && order == Appended(old(order), KeysMany(Yielded(Flatten(item))))
    {
      var created := Create(item);
      if created.Threw? {
        return true;
      }
      if created.Made? {
        IndexAll(created.list);
      } else {
        assert IndexMany(commands, []) == commands && KeysMany([]) == [];
      }
      threw := false;
    }

    /** `register(...items)` as written: `_create` returns an array, never a
        `Command` instance, so the guard skips every item and nothing is
        indexed; only a throwing `_create` is observable. */
    method RegisterAsWritten(items: seq<Item>) returns (threw: bool)
      ensures threw <==> exists i :: 0 <= i < |items| && HasNull(items[i])
    {
      var i := 0;
      while i < |items|
        invariant 0 <= i <= |items|
        invariant forall j :: 0 <= j < i ==> !HasNull(items[j])
      {
        var created := Create(items[i]);
        FlattenThrows(items[i]);
        if created.Threw? {
          return true;
        }
        i := i + 1;
      }
      threw := false;
    }

    /** The in-memory path of `populate(input)` as written: `_create(input)`,
        then `register(...commands)` when that is an array. The commands
        are spread as items of their own, so `register` as written indexes
        none of them; `populate` rejects exactly when `_create` throws. */
    method PopulateAsWritten(input: Item) returns (threw: bool)
      ensures threw <==> HasNull(input)
    {
      var created := Create(input);
      FlattenThrows(input);
      if created.Threw? {
        return true;
      }
      threw := false;
      if created.Made? {
        var items := AsItems(created.list);
        threw := RegisterAsWritten(items);
      }
    }

    /** The in-memory path of `populate(input)` with `register` as intended:
        every command `_create(input)` yields is indexed, in order, unless
        `_create` throws, and then nothing changes. */
    method Populate(input: Item) returns (threw: bool)
      requires Valid()
      modifies this
      ensures Valid()
      ensures threw <==> HasNull(input)
      ensures commands == IndexMany(old(commands), Yielded(Flatten(input)))
      ensures order == Appended(old(order), KeysMany(Yielded(Flatten(input))))
    {
      var created := Create(input);
      FlattenThrows(input);
      if created.Threw? {
        return true;
      }
      threw := false;
      if created.Made? {
        RegisteredCommands(created.list);
        threw := Register(AsItems(created.list));
      } else {
        assert IndexMany(commands, []) == commands && KeysMany([]) == [];
        assert Appended(order, []) == order;
      }
    }

    /** `_create(item)`: a command gives a one-element array, a class an
        array of its instance when that is a command, and arrays and objects
        the concatenation of what their entries give, or `null` when nothing
        was pushed; `null` makes `Object.keys` throw. */
    method Create(item: Item) returns (r: Created)
      ensures r == Flatten(item)
      decreases item, 1
    {
      match item
      case CommandItem(c) => return Made([c]);
      case ClassItem(made) =>
        if made.Some? {
          return Made([made.value]);
        }
        return NoCommands;
      case NullItem => return Threw;
      case OtherItem => return NoCommands;
      case _ =>
        var entries := Children(item);
        var count: nat, list: seq<Command> := 0, [];
        var i := 0;
        while i < |entries|
          invariant 0 <= i <= |entries|
          invariant PushPrefix(item, i) == Some(Pushed(count, list))
        {
          assert entries[i] in entries;
          var c := Create(entries[i]);
          if c.Threw? {
            assert PushPrefix(item, i + 1) == None;
            PushPrefixStaysNone(item, i + 1);
            return Threw;
          }
          if c.Made? {
            count, list := count + |c.list|, list + c.list;
          } else {
            count := count + 1;
          }
          i := i + 1;
        }
        return if count == 0 then NoCommands else Made(list);
    }

    /** `unregister(...items)`: every key of every given command is deleted,
        whatever command it maps to now; other arguments are skipped. */
    method Unregister(items: seq<Unregistered>)
      requires Valid()
      modifies this
      ensures Valid()
      ensures commands == old(commands) - GoneKeys(items)
      ensures order == Without(old(order), GoneKeys(items))
    {
      ghost var m0, o0 := commands, order;
      assert items[..0] == [];
      WithoutNothing(order);
      var i := 0;
      while i < |items|
        invariant 0 <= i <= |items| && Valid()
        invariant commands == m0 - GoneKeys(items[..i])
        invariant order == Without(o0, GoneKeys(items[..i]))
      {
        GoneKeysSnoc(items, i);
        ghost var before := GoneKeys(items[..i]);
        if items[i].Given? {
          ghost var gone := Elems(Keys(items[i].command));
          WithoutUnion(o0, before, gone);
          MapMinusUnion(m0, before, gone);
          RemoveKeys(items[i].command);
        } else {
          assert GoneKeys(items[..i + 1]) == before;
        }
        i := i + 1;
      }
      assert items[..i] == items;
    }

    /** The name and every alias of `command`, lower-cased, removed in
        turn. */
    method RemoveKeys(command: Command)
      requires Valid()
      modifies this
      ensures Valid()
      ensures commands == old(commands) - Elems(Keys(command))
      ensures order == Without(old(order), Elems(Keys(command)))
    {
      var names := command.Names();
      ghost var keys := Keys(command);
      ghost var m0, o0 := commands, order;
      WithoutNothing(order);
      assert keys[..0] == [];
      var j := 0;
      while j < |names|
        invariant 0 <= j <= |names| && Valid()
        invariant commands == m0 - Elems(keys[..j])
        invariant order == Without(o0, Elems(keys[..j]))
      {
        assert keys[j] == Lower(names[j]);
        TakeSnoc(keys, j);
        assert Elems(keys[..j + 1]) == Elems(keys[..j]) + {keys[j]};
        WithoutUnion(o0, Elems(keys[..j]), {keys[j]});
        MapMinusUnion(m0, Elems(keys[..j]), {keys[j]});
        Remove(names[j]);
        j := j + 1;
      }
      assert keys[..j] == keys;
    }

    /** The gate of the command registered under `key`, if any. */
    function Lookup(key: string): Option<Gate>
      reads this, commands.Values
    {
      if key in commands then
        Some(Gate(commands[key].disabled, commands[key].minArgs, commands[key].maxArgs))
      else None
    }

    /** `process(message)`: nothing without a reply function or a command
        name; otherwise the name is lower-cased in place and `Dispatch`
        decides the events and the arguments left in the message. */
    method Process(msg: Message, canRun: CanRunOutcome, run: RunOutcome, fmt: Notice -> Option<string>)
      returns (trace: seq<Event>)
      modifies msg
      ensures !msg.hasReply || old(msg.commandName) == "" ==>
                trace == [] && msg.commandName == old(msg.commandName) && msg.args == old(msg.args)
      ensures msg.hasReply && old(msg.commandName) != "" ==>
                msg.commandName == Lower(old(msg.commandName))
                && var d := Dispatch(Lookup(msg.commandName), old(msg.args), enforceArgLimits, canRun, run, fmt);
                   trace == d.trace && msg.args == d.args
    {
      if !msg.hasReply || msg.commandName == "" {
        return [];
      }
      msg.commandName := Lower(msg.commandName);
      if msg.commandName !in commands {
        return [Notify(NoCommand, fmt)];
      }
      var command := commands[msg.commandName];
      if command.disabled {
        return [Notify(Disabled, fmt)];
      }
      if |msg.args| < command.minArgs {
        return [Notify(Logger(false), fmt), Notify(MinArgs, fmt)];
      }
      if command.maxArgs.Exceeded(|msg.args|) {
        if enforceArgLimits {
          return [Notify(Logger(false), fmt), Notify(MaxArgs, fmt)];
        }
        msg.args := msg.args[..command.maxArgs.n];
      }
      trace := [PermissionChecked];
      if canRun.Throws? {
        return trace + [Notify(Error(canRun.e), fmt)];
      }
      if !canRun.truthy {
        return trace + [Notify(Logger(false), fmt), Notify(Permission, fmt)];
      }
      trace := trace + [Notify(Logger(true), fmt), Ran];
      if run.Fails? {
        trace := trace + [Notify(Error(run.e), fmt)];
      }
    }

    /** The help text for the keys `keys`, in order, with the default
        formatter and the filter `filter`. */
    function HelpText(keys: seq<string>, filter: (string, Command) -> bool): string
      requires forall k :: k in keys ==> k in commands
      reads this, commands.Values
      decreases |keys|
    {
      if |keys| == 0 then ""
      else
        var k := keys[|keys| - 1];
        HelpText(keys[..|keys| - 1], filter) + (if filter(k, commands[k]) then HelpEntry(commands[k]) else "")
    }

    lemma HelpTextSnoc(keys: seq<string>, i: nat, filter: (string, Command) -> bool)
      requires i < |keys| && forall k :: k in keys ==> k in commands
      ensures HelpText(keys[..i + 1], filter)
              == HelpText(keys[..i], filter) + (if filter(keys[i], commands[keys[i]]) then HelpEntry(commands[keys[i]]) else "")
    {
      assert keys[..i + 1][..i] == keys[..i];
    }

    /** The keys the help listing keeps, in order. */
    function Listed(keys: seq<string>, filter: (string, Command) -> bool): (r: seq<string>)
      requires forall k :: k in keys ==> k in commands
      reads this, commands.Values
      ensures forall k :: k in r ==> k in keys && filter(k, commands[k])
      decreases |keys|
    {
      if |keys| == 0 then []
      else
        var k := keys[|keys| - 1];
        Listed(keys[..|keys| - 1], filter) + (if filter(k, commands[k]) then [k] else [])
    }

    /** The default help line of each key of `keys`, in order. */
    function Entries(keys: seq<string>): (r: seq<string>)
      requires forall k :: k in keys ==> k in commands
      reads this, commands.Values
      ensures |r| == |keys| && forall i :: 0 <= i < |keys| ==> r[i] == HelpEntry(commands[keys[i]])
      decreases |keys|
    {
      if |keys| == 0 then [] else Entries(keys[..|keys| - 1]) + [HelpEntry(commands[keys[|keys| - 1]])]
    }

    /** The help text is the help line of every listed key, in key order,
        with nothing between them. */
    lemma {:induction false} HelpTextOfListed(keys: seq<string>, filter: (string, Command) -> bool)
      requires forall k :: k in keys ==> k in commands
      ensures HelpText(keys, filter) == Join(Entries(Listed(keys, filter)), "")
      decreases |keys|
    {
      if |keys| > 0 {
        var init, k := keys[..|keys| - 1], keys[|keys| - 1];
        HelpTextOfListed(init, filter);
        var before := Listed(init, filter);
        if filter(k, commands[k]) {
          assert Listed(keys, filter) == before + [k];
          EntriesSnoc(before, k);
          JoinNothingSnoc(Entries(before), HelpEntry(commands[k]));
        } else {
          assert Listed(keys, filter) == before;
        }
      }
    }

    lemma EntriesSnoc(keys: seq<string>, k: string)
      requires forall k :: k in keys ==> k in commands
      requires k in commands
      ensures Entries(keys + [k]) == Entries(keys) + [HelpEntry(commands[k])]
    {
      assert (keys + [k])[..|keys|] == keys;
    }

    /** `getHelpStatement(formatter, filter)` with the default formatter: the
        help line of every entry the filter keeps, in key order. The source's
        default filter is `DefaultHelpFilter`; `HelpFilter` is the one it
        evidently means. */
    method GetHelpStatement(filter: (string, Command) -> bool) returns (help: string)
      requires Valid()
      ensures help == HelpText(order, filter)
    {
      help := "";
      var i := 0;
      while i < |order|
        invariant 0 <= i <= |order|
        invariant help == HelpText(order[..i], filter)
      {
        HelpTextSnoc(order, i, filter);
        var key := order[i];
        var command := commands[key];
        if filter(key, command) {
          var usageText := command.GetUsageStatement();
          help := help + ("*" + command.name + "* - " + command.description + " | `" + usageText + "`");
        }
        i := i + 1;
      }
      assert order[..i] == order;
    }

    /** The values in key order. */
    function Values(keys: seq<string>): (r: seq<Command>)
      requires forall k :: k in keys ==> k in commands
      reads this
      ensures |r| == |keys| && forall i :: 0 <= i < |keys| ==> r[i] == commands[keys[i]]
    {
      var m := commands;
      seq(|keys|, i requires 0 <= i < |keys| => m[keys[i]])
    }

    /** The iterator: `new Set(this.commands.values())`, each command once,
        in the order its first key was inserted. */
    method Iterate() returns (cs: seq<Command>)
      requires Valid()
      ensures cs == Dedup(Values(order))
      ensures Distinct(cs) && forall c :: c in cs <==> c in commands.Values
    {
      cs := [];
      var i := 0;
      while i < |order|
        invariant 0 <= i <= |order|
        invariant cs == Dedup(Values(order[..i]))
      {
        assert Values(order[..i + 1])[..i] == Values(order[..i]);
        var command := commands[order[i]];
        if command !in cs {
          cs := cs + [command];
        }
        i := i + 1;
      }
      assert order[..i] == order;
      forall c ensures c in cs <==> c in commands.Values {
        if c in commands.Values {
          var k :| k in commands && commands[k] == c;
          var p :| 0 <= p < |order| && order[p] == k;
          assert Values(order)[p] == c;
        }
      }
    }
  }

  lemma {:induction false} PushPrefixStaysNone(item: Item, k: nat)
    requires k <= |Children(item)| && PushPrefix(item, k).None?
    ensures PushPrefix(item, |Children(item)|).None?
    decreases |Children(item)| - k
  {
    if k < |Children(item)| {
      PushPrefixStaysNone(item, k + 1);
    }
  }

  lemma {:induction false} RegisteredStops(items: seq<Item>, k: nat)
    requires k <= |items| && Registered(items[..k]).threw
    ensures Registered(items) == Registered(items[..k])
    decreases |items| - k
  {
    if k < |items| {
      assert items[..k + 1][..k] == items[..k];
      RegisteredStops(items, k + 1);
    } else {
      assert items[..k] == items;
    }
  }

  /** As written, `register(command)` indexes nothing; as intended it
      indexes the command under its name and aliases. */
  lemma RegisterCommandItem(c: Command)
    ensures Registered([CommandItem(c)]) == Registration([c], false)
    ensures forall k :: k in Keys(c) ==> k in IndexMany(map[], [c]) && IndexMany(map[], [c])[k] == c
  {
    assert [CommandItem(c)][..0] == [];
    assert [c][..0] == [];
    forall k | k in Keys(c) ensures k in IndexMany(map[], [c]) && IndexMany(map[], [c])[k] == c {
      AssignMeaning(map[], Keys(c), c, k);
    }
  }

  /** With the corrected filter no alias is listed: the key of every alias
      fails it, whatever the alias's case. */
  lemma HelpFilterSkipsAliases(c: Command, i: nat)
    requires 1 <= i < |Keys(c)|
    ensures !HelpFilter(Keys(c)[i], c)
  {
    assert LowerAll(c.aliases)[i - 1] == Keys(c)[i];
  }

  /** In a registry where every key is one of its command's keys, each key
      the corrected filter keeps is its command's lower-cased name, so a
      command is listed at most once. */
  lemma ListedUnderName(h: CommandHandler, keys: seq<string>)
    requires IndexedMap(h.commands) && forall k :: k in keys ==> k in h.commands
    ensures forall k :: k in h.Listed(keys, HelpFilter) ==> k == Lower(h.commands[k].name)
  {
    forall k | k in h.Listed(keys, HelpFilter) ensures k == Lower(h.commands[k].name) {
      var c := h.commands[k];
      var p :| 0 <= p < |Keys(c)| && Keys(c)[p] == k;
      if p > 0 {
        HelpFilterSkipsAliases(c, p);
      }
    }
  }

  /** The listing as written and as intended, for `ping` with alias `P`
      registered alone: the default filter lists the command twice, once
      under `ping` and once under `p`; the corrected filter lists it once. */
  lemma DefaultListingRepeats(h: CommandHandler, c: Command)
    requires c.name == "ping" && c.aliases == ["P"] && c.commandType == "command" && c.allowedUsers == []
    requires h.order == ["ping", "p"] && h.commands == map["ping" := c, "p" := c]
    ensures h.HelpText(h.order, DefaultHelpFilter) == HelpEntry(c) + HelpEntry(c)
    ensures h.HelpText(h.order, HelpFilter) == HelpEntry(c)
  {
    DefaultHelpFilterListsAliases(c);
    HelpTextOfTwo(h, DefaultHelpFilter);
    HelpTextOfTwo(h, HelpFilter);
  }

  /** The listing of a registry with two keys. */
  lemma HelpTextOfTwo(h: CommandHandler, filter: (string, Command) -> bool)
    requires |h.order| == 2 && h.order[0] in h.commands && h.order[1] in h.commands
    ensures var a, b := h.order[0], h.order[1];
            h.HelpText(h.order, filter)
            == (if filter(a, h.commands[a]) then HelpEntry(h.commands[a]) else "")
               + (if filter(b, h.commands[b]) then HelpEntry(h.commands[b]) else "")
  {
    h.HelpTextSnoc(h.order, 0, filter);
    h.HelpTextSnoc(h.order, 1, filter);
    assert h.order[..2] == h.order && h.order[..0] == [];
  }

  /** One more item: what `_create` gives for it decides the registration. */
  lemma RegisteredSnoc(items: seq<Item>, i: nat)
    requires i < |items| && !Registered(items[..i]).threw
    ensures Flatten(items[i]).Threw? ==> Registered(items[..i + 1]) == Registration(Registered(items[..i]).indexed, true)
    ensures !Flatten(items[i]).Threw? ==>
              Registered(items[..i + 1]) == Registration(Registered(items[..i]).indexed + Yielded(Flatten(items[i])), false)
  {
    assert items[..i + 1][..i] == items[..i];
    var r := Registered(items[..i]);
    if Flatten(items[i]).NoCommands? {
      assert r.indexed + [] == r.indexed;
    }
  }

  /** The commands of an array spread into `register(...commands)`, each
      an item of its own. */
  function AsItems(list: seq<Command>): (items: seq<Item>)
    ensures |items| == |list|
    ensures forall i :: 0 <= i < |list| ==> items[i] == CommandItem(list[i])
  {
    seq(|list|, i requires 0 <= i < |list| => CommandItem(list[i]))
  }

  /** Registering the commands of an array one by one, as intended, indexes
      exactly those commands, in order, and never throws. */
  lemma {:induction false} RegisteredCommands(list: seq<Command>)
    ensures Registered(AsItems(list)) == Registration(list, false)
    decreases |list|
  {
    if |list| > 0 {
      var items := AsItems(list);
      var k := |list| - 1;
      assert items[..k] == AsItems(list[..k]);
      RegisteredCommands(list[..k]);
      RegisteredSnoc(items, k);
      assert items[..k + 1] == items;
      assert list[..k] + [list[k]] == list;
    }
  }

  /** The loop of `register` keeps its invariant over an item that does
      not throw. */
  lemma RegisterStep(m0: map<string, Command>, o0: seq<string>, items: seq<Item>, i: nat)
    requires i < |items| && !Registered(items[..i]).threw && !Flatten(items[i]).Threw?
    ensures var done, y := Registered(items[..i]).indexed, Yielded(Flatten(items[i]));
            !Registered(items[..i + 1]).threw
            && IndexMany(IndexMany(m0, done), y) == IndexMany(m0, Registered(items[..i + 1]).indexed)
            && Appended(Appended(o0, KeysMany(done)), KeysMany(y)) == Appended(o0, KeysMany(Registered(items[..i + 1]).indexed))
  {
    var done, y := Registered(items[..i]).indexed, Yielded(Flatten(items[i]));
    RegisteredSnoc(items, i);
    IndexManyConcat(m0, done, y);
    KeysManyConcat(done, y);
    AppendedConcat(o0, KeysMany(done), KeysMany(y));
  }

  /** An item that throws ends the registration where it stands. */
  lemma RegisterThrows(items: seq<Item>, i: nat)
    requires i < |items| && !Registered(items[..i]).threw && Flatten(items[i]).Threw?
    ensures Registered(items) == Registration(Registered(items[..i]).indexed, true)
  {
    RegisteredSnoc(items, i);
    RegisteredStops(items, i + 1);
  }

  /** Registration keeps every key among the keys of the command it maps
      to: with `Register`'s postcondition, `Indexed()` survives it. */
  lemma RegisteredIndexed(m: map<string, Command>, items: seq<Item>)
    ensures IndexedMap(m) ==> IndexedMap(IndexMany(m, Registered(items).indexed))
  {
    if IndexedMap(m) {
      IndexManyIndexed(m, Registered(items).indexed);
    }
  }
}
