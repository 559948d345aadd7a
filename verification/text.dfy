/**
 * Python's `str.join`, and `str.split` on one separator character, which
 * recovers the parts of a join.
 */
module Text {

  /** `s.startswith(p)`. */
  predicate StartsWith(s: string, p: string)
  {
    |p| <= |s| && s[..|p|] == p
  }

  /** `s.endswith(p)`. */
  predicate EndsWith(s: string, p: string)
  {
    |p| <= |s| && s[|s| - |p|..] == p
  }

  /** `sep.join(xs)`: the parts in order with `sep` between neighbours. */
  function Join(sep: string, xs: seq<string>): string
  {
    if |xs| == 0 then ""
    else if |xs| == 1 then xs[0]
    else Join(sep, xs[..|xs| - 1]) + sep + xs[|xs| - 1]
  }

  /** Position of the first occurrence of `c` in `s`. */
  function IndexOf(c: char, s: string): (i: nat)
    requires c in s
    ensures i < |s| && s[i] == c && c !in s[..i]
  {
    if s[0] == c then 0
    else
      var j := IndexOf(c, s[1..]);
      assert s[..j + 1] == [s[0]] + s[1..][..j];
      j + 1
  }

  /** `s.split(c)`: the maximal runs of `s` between occurrences of `c`. */
  function Split(c: char, s: string): (parts: seq<string>)
    ensures |parts| > 0
    ensures forall k :: 0 <= k < |parts| ==> c !in parts[k]
    decreases |s|
  {
    if c !in s then [s]
    else
      var i := IndexOf(c, s);
      var rest := Split(c, s[i + 1..]);
      assert forall k :: 1 <= k < |rest| + 1 ==> ([s[..i]] + rest)[k] == rest[k - 1];
      [s[..i]] + rest
  }

  /** Joining a list and one more part: the separator goes before the new part. */
  lemma JoinSnoc(sep: string, xs: seq<string>, x: string)
    requires |xs| > 0
    ensures Join(sep, xs + [x]) == Join(sep, xs) + sep + x
  {
  }

  /** `sep.join` of a literal list of two words, written out. */
  lemma JoinTwo(sep: string, a: string, b: string)
    ensures Join(sep, [a, b]) == a + sep + b
  {
    JoinSnoc(sep, [a], b);
  }

  /** `sep.join` of a literal list of four words, written out. */
  lemma JoinFour(sep: string, a: string, b: string, c: string, d: string)
    ensures Join(sep, [a, b, c, d]) == a + sep + b + sep + c + sep + d
  {
    JoinTwo(sep, a, b);
    assert [a, b, c] == [a, b] + [c];
    JoinSnoc(sep, [a, b], c);
    assert [a, b, c, d] == [a, b, c] + [d];
    JoinSnoc(sep, [a, b, c], d);
  }

  /** `sep.join` of a literal list of five words, written out. */
  lemma JoinFive(sep: string, a: string, b: string, c: string, d: string, e: string)
    ensures Join(sep, [a, b, c, d, e]) == a + sep + b + sep + c + sep + d + sep + e
  {
    JoinFour(sep, a, b, c, d);
    assert [a, b, c, d, e] == [a, b, c, d] + [e];
    JoinSnoc(sep, [a, b, c, d], e);
  }

  /** Joining a list with a head: the head, the separator, the rest joined. */
  lemma {:induction false} JoinCons(sep: string, x: string, xs: seq<string>)
    requires |xs| > 0
    ensures Join(sep, [x] + xs) == x + sep + Join(sep, xs)
    decreases |xs|
  {
    if |xs| > 1 {
      var init := xs[..|xs| - 1];
      assert ([x] + xs)[..|xs|] == [x] + init;
      JoinCons(sep, x, init);
    }
  }

  /** Joining a concatenation is joining both halves with one separator between. */
  lemma {:induction false} JoinAppend(sep: string, a: seq<string>, b: seq<string>)
    requires |a| > 0 && |b| > 0
    ensures Join(sep, a + b) == Join(sep, a) + sep + Join(sep, b)
    decreases |b|
  {
    if |b| == 1 {
      assert (a + b)[..|a + b| - 1] == a;
    } else {
      var init := b[..|b| - 1];
      assert (a + b)[..|a + b| - 1] == a + init;
      JoinAppend(sep, a, init);
    }
  }

  /** The first occurrence of `c` in `x + [c] + y` is right after `x` when `x` has none. */
  lemma IndexOfAfter(c: char, x: string, y: string)
    requires c !in x
    ensures c in x + [c] + y && IndexOf(c, x + [c] + y) == |x|
  {
    var s := x + [c] + y;
    assert s[|x|] == c;
    assert forall j :: 0 <= j < |x| ==> s[j] == x[j];
    assert forall j :: |x| < j <= |s| ==> s[..j][|x|] == c;
  }

  /** Splitting undoes joining, provided no part contains the separator. */
  lemma {:induction false} SplitJoin(c: char, xs: seq<string>)
    requires |xs| > 0
    requires forall k :: 0 <= k < |xs| ==> c !in xs[k]
    ensures Split(c, Join([c], xs)) == xs
    decreases |xs|
  {
    if |xs| > 1 {
      var x, rest := xs[0], xs[1..];
      assert xs == [x] + rest;
      JoinCons([c], x, rest);
      var s := Join([c], xs);
      assert s == x + [c] + Join([c], rest);
      IndexOfAfter(c, x, Join([c], rest));
      assert s[..|x|] == x;
      assert s[|x| + 1..] == Join([c], rest);
      SplitJoin(c, rest);
    }
  }
}
