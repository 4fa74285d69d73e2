/** PHP's explode('|', s) and implode('|', parts), the two conversions
    remove_rule uses between the string form of a rule list and its
    token sequence. */
module Pipe {

  /** explode('|', s): the pieces between the pipes, in order. An empty
      string gives one empty piece, and so do two adjacent pipes. */
  function Split(s: string): (r: seq<string>)
    ensures |r| >= 1
    ensures forall i :: 0 <= i < |r| ==> '|' !in r[i]
    decreases |s|
  {
    if |s| == 0 then [""]
    else if s[0] == '|' then [""] + Split(s[1..])
    else
      var rest := Split(s[1..]);
      [[s[0]] + rest[0]] + rest[1..]
  }

  /** implode('|', parts): the pieces with one pipe between neighbours. */
  function Join(parts: seq<string>): (r: string)
  {
    if |parts| == 0 then ""
    else if |parts| == 1 then parts[0]
    else parts[0] + "|" + Join(parts[1..])
  }

  /** Number of pipes in s. */
  function Pipes(s: string): (r: nat)
  {
    if |s| == 0 then 0 else (if s[0] == '|' then 1 else 0) + Pipes(s[1..])
  }

  /** explode yields one piece more than there are delimiters. */
  lemma {:induction false} SplitLength(s: string)
    ensures |Split(s)| == Pipes(s) + 1
    decreases |s|
  {
    if |s| > 0 {
      SplitLength(s[1..]);
    }
  }

  /** Prepending text to the first piece prepends it to the joined string. */
  lemma {:induction false} JoinExtendFirst(x: string, parts: seq<string>)
    requires |parts| >= 1
    ensures Join([x + parts[0]] + parts[1..]) == x + Join(parts)
  {
    var q := [x + parts[0]] + parts[1..];
    assert q[0] == x + parts[0];
    assert q[1..] == parts[1..];
    if |parts| == 1 {
      assert Join(q) == q[0];
    } else {
      assert Join(q) == q[0] + "|" + Join(parts[1..]);
      assert Join(parts) == parts[0] + "|" + Join(parts[1..]);
    }
  }

  /** implode undoes explode: joining the pieces gives back the string. */
  lemma {:induction false} JoinSplit(s: string)
    ensures Join(Split(s)) == s
    decreases |s|
  {
    if |s| == 0 {
    } else if s[0] == '|' {
      JoinSplit(s[1..]);
      var r := Split(s[1..]);
      assert ([""] + r)[1..] == r;
      assert Join(Split(s)) == "|" + Join(r);
      assert s == [s[0]] + s[1..];
    } else {
      JoinSplit(s[1..]);
      JoinExtendFirst([s[0]], Split(s[1..]));
      assert s == [s[0]] + s[1..];
    }
  }

  /** A string without pipes explodes to itself alone. */
  lemma {:induction false} SplitNoPipe(a: string)
    requires '|' !in a
    ensures Split(a) == [a]
    decreases |a|
  {
    if |a| > 0 {
      SplitNoPipe(a[1..]);
      assert [a[0]] + a[1..] == a;
    }
  }

  /** Exploding a + "|" + b, with no pipe in a, gives a followed by the pieces of b. */
  lemma {:induction false} SplitAfterPiece(a: string, b: string)
    requires '|' !in a
    ensures Split(a + "|" + b) == [a] + Split(b)
    decreases |a|
  {
    var s := a + "|" + b;
    if |a| == 0 {
      assert s[1..] == b;
    } else {
      assert s[1..] == a[1..] + "|" + b;
      SplitAfterPiece(a[1..], b);
      assert [a[0]] + a[1..] == a;
    }
  }

  /** explode undoes implode on a non-empty list of pipe-free pieces. */
  lemma {:induction false} SplitJoin(parts: seq<string>)
    requires |parts| >= 1
    requires forall i :: 0 <= i < |parts| ==> '|' !in parts[i]
    ensures Split(Join(parts)) == parts
    decreases |parts|
  {
    if |parts| == 1 {
      SplitNoPipe(parts[0]);
    } else {
      SplitJoin(parts[1..]);
      SplitAfterPiece(parts[0], Join(parts[1..]));
      assert [parts[0]] + parts[1..] == parts;
    }
  }
}
