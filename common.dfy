/** Small shared vocabulary: optional values, results, ASCII lower-casing
    and the joining of string lists. */
module Common {

  datatype Option<T> = None | Some(value: T) {
    function GetOr(default: T): T {
      match this
      case Some(v) => v
      case None => default
    }
  }

  datatype Result<T, E> = Success(value: T) | Failure(error: E)

  /** `toLowerCase` on one character (ASCII letters only). */
  function LowerChar(c: char): char {
    if 'A' <= c <= 'Z' then (c as int + 32) as char else c
  }

  predicate IsLower(s: string) {
    forall i :: 0 <= i < |s| ==> !('A' <= s[i] <= 'Z')
  }

  /** `String.prototype.toLowerCase` (ASCII letters only). */
  function Lower(s: string): (r: string)
    ensures |r| == |s| && IsLower(r)
    ensures forall i :: 0 <= i < |s| ==> r[i] == LowerChar(s[i])
  {
    seq(|s|, i requires 0 <= i < |s| => LowerChar(s[i]))
  }

  /** `toLowerCase` applied to every element. */
  function LowerAll(xs: seq<string>): (r: seq<string>)
    ensures |r| == |xs| && forall i :: 0 <= i < |xs| ==> r[i] == Lower(xs[i])
  {
    seq(|xs|, i requires 0 <= i < |xs| => Lower(xs[i]))
  }

  /** `Array.prototype.join(sep)`: `[]` gives `""`, one element gives itself. */
  function Join(xs: seq<string>, sep: string): string
    decreases |xs|
  {
    if |xs| == 0 then ""
    else if |xs| == 1 then xs[0]
    else Join(xs[..|xs| - 1], sep) + sep + xs[|xs| - 1]
  }

  lemma JoinSnoc(xs: seq<string>, y: string, sep: string)
    requires |xs| > 0
    ensures Join(xs + [y], sep) == Join(xs, sep) + sep + y
  {
    assert (xs + [y])[..|xs|] == xs;
  }

  lemma JoinPair(a: string, b: string, sep: string)
    ensures Join([a, b], sep) == a + sep + b
  {
    assert [a, b][..1] == [a];
  }

  /** Joining with nothing between the parts is concatenation. */
  lemma JoinNothingSnoc(xs: seq<string>, y: string)
    ensures Join(xs + [y], "") == Join(xs, "") + y
  {
    if |xs| == 0 {
      assert xs + [y] == [y];
    } else {
      JoinSnoc(xs, y, "");
    }
  }

  lemma ConcatAssoc(a: string, b: string, c: string, d: string)
    ensures (a + b) + (c + d) == a + ((b + c) + d)
  {
  }

  predicate Distinct<T(==)>(s: seq<T>) {
    forall i, j :: 0 <= i < j < |s| ==> s[i] != s[j]
  }

  /** `keys` appended one by one to `order`, skipping those already present:
      the key order of a JavaScript `Map` after a series of `set` calls. */
  function Appended(order: seq<string>, keys: seq<string>): (r: seq<string>)
    ensures Distinct(order) ==> Distinct(r)
    ensures forall k :: k in r <==> k in order || k in keys
    ensures |order| <= |r| && r[..|order|] == order
    decreases |keys|
  {
    if |keys| == 0 then order
    else
      var a := Appended(order, keys[..|keys| - 1]);
      var k := keys[|keys| - 1];
      if k in a then a else a + [k]
  }

  /** `order` without the keys in `gone`, relative order kept: the key order
      of a JavaScript `Map` after `delete` calls. */
  function Without(order: seq<string>, gone: set<string>): (r: seq<string>)
    ensures Distinct(order) ==> Distinct(r)
    ensures forall k :: k in r <==> k in order && k !in gone
    decreases |order|
  {
    if |order| == 0 then []
    else
      var w := Without(order[..|order| - 1], gone);
      var k := order[|order| - 1];
      if k in gone then w else w + [k]
  }

  lemma {:induction false} AppendedConcat(order: seq<string>, xs: seq<string>, ys: seq<string>)
    ensures Appended(order, xs + ys) == Appended(Appended(order, xs), ys)
    decreases |ys|
  {
    if |ys| == 0 {
      assert xs + ys == xs;
    } else {
      var init := ys[..|ys| - 1];
      assert (xs + ys)[..|xs + ys| - 1] == xs + init;
      AppendedConcat(order, xs, init);
    }
  }

  lemma WithoutSnoc(xs: seq<string>, y: string, gone: set<string>)
    ensures Without(xs + [y], gone) == Without(xs, gone) + (if y in gone then [] else [y])
  {
    assert (xs + [y])[..|xs|] == xs;
  }

  lemma {:induction false} WithoutUnion(order: seq<string>, a: set<string>, b: set<string>)
    ensures Without(Without(order, a), b) == Without(order, a + b)
    decreases |order|
  {
    if |order| > 0 {
      var init, last := order[..|order| - 1], order[|order| - 1];
      WithoutUnion(init, a, b);
      if last !in a {
        WithoutSnoc(Without(init, a), last, b);
      }
    }
  }

  lemma {:induction false} WithoutNothing(order: seq<string>)
    ensures Without(order, {}) == order
    decreases |order|
  {
    if |order| > 0 {
      var init, last := order[..|order| - 1], order[|order| - 1];
      WithoutNothing(init);
      assert Without(order, {}) == Without(init, {}) + [last];
      SplitLast(init, order);
    }
  }

  /** The elements of `xs`, as a set. */
  function Elems(xs: seq<string>): (r: set<string>)
    ensures forall k :: k in r <==> k in xs
    decreases |xs|
  {
    if |xs| == 0 then {} else Elems(xs[..|xs| - 1]) + {xs[|xs| - 1]}
  }

  /** A non-empty sequence is its prefix and its last element. */
  lemma SplitLast<X>(xs: seq<X>, ys: seq<X>)
    requires |ys| > 0
    ensures ys == ys[..|ys| - 1] + [ys[|ys| - 1]]
    ensures xs + ys == (xs + ys[..|ys| - 1]) + [ys[|ys| - 1]]
  {
  }

  /** One more element of a prefix. */
  lemma TakeSnoc<X>(s: seq<X>, i: nat)
    requires i < |s|
    ensures s[..i + 1] == s[..i] + [s[i]] && s[..i + 1][..i] == s[..i]
  {
  }

  lemma AppendAssoc<X>(a: seq<X>, b: seq<X>, c: seq<X>)
    ensures (a + b) + c == a + (b + c)
  {
  }

  lemma MapMinusUnion<K, V>(m: map<K, V>, a: set<K>, b: set<K>)
    ensures (m - a) - b == m - (a + b)
  {
  }
}
