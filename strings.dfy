/** The two string operations of JavaScript the core relies on: `Array.prototype.join` and `String.prototype.split`. */
module Strings {

  /** `parts.join(sep)`: the parts in order with `sep` between neighbours; `""` for no parts. */
  function Join(parts: seq<string>, sep: string): (joined: string)
    ensures |parts| == 0 ==> joined == ""
    ensures |parts| > 0 ==> parts[0] <= joined
    ensures forall i :: 0 <= i < |parts| ==> |parts[i]| <= |joined|
  {
    if |parts| == 0 then ""
    else if |parts| == 1 then parts[0]
    else parts[0] + sep + Join(parts[1..], sep)
  }

  /** Joining one more part appends the separator and that part. */
  lemma {:induction false} JoinSnoc(parts: seq<string>, x: string, sep: string)
    requires |parts| > 0
    ensures Join(parts + [x], sep) == Join(parts, sep) + sep + x
  {
    if |parts| == 1 {
      assert parts + [x] == [parts[0], x];
      assert [parts[0], x][1..] == [x];
    } else {
      assert (parts + [x])[1..] == parts[1..] + [x];
      JoinSnoc(parts[1..], x, sep);
    }
  }

  /** The three parts of a concatenation can be cut back out of it. */
  lemma Enclosed(a: string, b: string, c: string)
    ensures var s := a + b + c;
      && |s| == |a| + |b| + |c|
      && s[..|a|] == a && s[|a|..|s| - |c|] == b && s[|s| - |c|..] == c
  {
  }

  /** `s.split(c)` for a one-character separator: the maximal pieces between occurrences of `c`,
    * so `n` occurrences give `n + 1` pieces, and `""` gives `[""]`. */
  function Split(s: string, c: char): (parts: seq<string>)
    ensures |parts| >= 1
    ensures forall i :: 0 <= i < |parts| ==> c !in parts[i]
    decreases |s|
  {
    if |s| == 0 then [""]
    else if s[0] == c then [""] + Split(s[1..], c)
    else
      var rest := Split(s[1..], c);
      [[s[0]] + rest[0]] + rest[1..]
  }

  /** Splitting and joining back with the same separator gives the original string. */
  lemma {:induction false} SplitJoin(s: string, c: char)
    ensures Join(Split(s, c), [c]) == s
    decreases |s|
  {
    if |s| == 0 {
    } else if s[0] == c {
      var rest := Split(s[1..], c);
      SplitJoin(s[1..], c);
      assert ([""] + rest)[1..] == rest;
      assert s == [c] + s[1..];
    } else {
      var rest := Split(s[1..], c);
      SplitJoin(s[1..], c);
      var parts := [[s[0]] + rest[0]] + rest[1..];
      assert parts[1..] == rest[1..];
      assert s == [s[0]] + s[1..];
      if |rest| == 1 {
        assert parts == [[s[0]] + rest[0]];
      } else {
        assert Join(rest, [c]) == rest[0] + [c] + Join(rest[1..], [c]);
      }
    }
  }

  /** The longest prefix of `s` that does not contain `c`. */
  function TakeUntil(s: string, c: char): (t: string)
    ensures t <= s && c !in t
    ensures |t| < |s| ==> s[|t|] == c
  {
    if |s| == 0 || s[0] == c then "" else [s[0]] + TakeUntil(s[1..], c)
  }

  /** The first piece of a split is the text before the first separator. */
  lemma {:induction false} SplitFirst(s: string, c: char)
    ensures Split(s, c)[0] == TakeUntil(s, c)
    decreases |s|
  {
    if |s| > 0 && s[0] != c {
      SplitFirst(s[1..], c);
    }
  }

  /** A separator-free word followed by the separator splits off as the first piece. */
  lemma {:induction false} SplitAfter(w: string, c: char, t: string)
    requires c !in w
    ensures Split(w + [c] + t, c) == [w] + Split(t, c)
    decreases |w|
  {
    var s := w + [c] + t;
    if |w| == 0 {
      assert s == [c] + t;
      assert s[1..] == t;
    } else {
      assert s[0] == w[0];
      assert s[1..] == w[1..] + [c] + t;
      SplitAfter(w[1..], c, t);
      assert [w[0]] + w[1..] == w;
    }
  }

  /** A string without the separator is its own longest separator-free prefix. */
  lemma {:induction false} TakeUntilWhole(s: string, c: char)
    requires c !in s
    ensures TakeUntil(s, c) == s
  {
    if |s| > 0 {
      assert c !in s[1..];
      TakeUntilWhole(s[1..], c);
    }
  }
}
