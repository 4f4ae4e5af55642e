/**
 * String utilities the tag builders rely on.
 *
 * `Join` is Ruby's `Array#join(sep)`: the empty array joins to "", a single
 * element joins to itself, and otherwise one separator sits between each
 * pair of neighbours. `Split` and `Count` are independent reference
 * definitions used to state what a join produces: splitting a joined list on
 * its separator gives back the list, and the separator occurs exactly once
 * between neighbours.
 */
module Strings {

  /** Ruby's `Array#join(sep)` on an array of strings. */
  function Join(parts: seq<string>, sep: string): (r: string)
    ensures parts == [] ==> r == ""
    ensures |parts| == 1 ==> r == parts[0]
  {
    if |parts| == 0 then ""
    else if |parts| == 1 then parts[0]
    else parts[0] + sep + Join(parts[1..], sep)
  }

  /** Splits `s` at every occurrence of `c`; the result always has at least one field. */
  function Split(s: string, c: char): (r: seq<string>)
    ensures |r| >= 1
  {
    if s == [] then [""]
    else if s[0] == c then [""] + Split(s[1..], c)
    else
      var rest := Split(s[1..], c);
      [[s[0]] + rest[0]] + rest[1..]
  }

  /** Number of occurrences of `c` in `s`. */
  function Count(s: string, c: char): (n: nat)
    ensures n <= |s|
    ensures n == 0 <==> c !in s
  {
    if s == [] then 0
    else (if s[0] == c then 1 else 0) + Count(s[1..], c)
  }

  /** Joining distributes over concatenation of two non-empty lists. */
  lemma {:induction false} JoinAppend(a: seq<string>, b: seq<string>, sep: string)
    requires a != [] && b != []
    ensures Join(a + b, sep) == Join(a, sep) + sep + Join(b, sep)
  {
    if |a| == 1 {
      assert (a + b)[1..] == b;
    } else {
      assert (a + b)[1..] == a[1..] + b;
      JoinAppend(a[1..], b, sep);
    }
  }

  lemma {:induction false} CountAppend(a: string, b: string, c: char)
    ensures Count(a + b, c) == Count(a, c) + Count(b, c)
  {
    if a == [] {
      assert a + b == b;
    } else {
      assert (a + b)[1..] == a[1..] + b;
      CountAppend(a[1..], b, c);
    }
  }

  /** Joining n separator-free fields with a one-character separator puts exactly n - 1 separators in the output. */
  lemma {:induction false} CountJoin(parts: seq<string>, c: char)
    requires parts != []
    requires forall i :: 0 <= i < |parts| ==> c !in parts[i]
    ensures Count(Join(parts, [c]), c) == |parts| - 1
  {
    if |parts| > 1 {
      CountJoin(parts[1..], c);
      CountAppend(parts[0], [c], c);
      CountAppend(parts[0] + [c], Join(parts[1..], [c]), c);
    }
  }

  lemma {:induction false} SplitField(p: string, c: char)
    requires c !in p
    ensures Split(p, c) == [p]
  {
    if p != [] {
      assert p == [p[0]] + p[1..];
      SplitField(p[1..], c);
    }
  }

  lemma {:induction false} SplitAfterField(p: string, t: string, c: char)
    requires c !in p
    ensures Split(p + [c] + t, c) == [p] + Split(t, c)
  {
    var s := p + [c] + t;
    if p == [] {
      assert s[1..] == t;
    } else {
      assert s[1..] == p[1..] + [c] + t;
      assert p == [p[0]] + p[1..];
      SplitAfterField(p[1..], t, c);
    }
  }

  /** Splitting a join of separator-free fields on the separator gives back the fields. */
  lemma {:induction false} SplitJoin(parts: seq<string>, c: char)
    requires parts != []
    requires forall i :: 0 <= i < |parts| ==> c !in parts[i]
    ensures Split(Join(parts, [c]), c) == parts
  {
    if |parts| == 1 {
      SplitField(parts[0], c);
    } else {
      SplitJoin(parts[1..], c);
      SplitAfterField(parts[0], Join(parts[1..], [c]), c);
      assert [parts[0]] + parts[1..] == parts;
    }
  }
}
