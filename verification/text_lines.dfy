/** Line splitting as Python's file iteration and `readline()` perform it,
    generic over the element type so that the same definition serves the
    byte corpus (split on byte 10) and the text offset file (split on '\n').
    A line keeps its terminator; a final unterminated line is still a line. */
module TextLines {

  /** A byte of the corpus file, which is read in binary mode. */
  newtype byte = x: int | 0 <= x < 256

  /** The byte `b"\n"`, on which binary-mode line iteration splits. */
  const Newline: byte := 10

  /** The length of the first line of `s`: up to and including the first
      `nl`, or all of `s` when there is none. */
  function LineLen<T(==)>(s: seq<T>, nl: T): (n: nat)
    ensures n <= |s|
    ensures |s| > 0 ==> n > 0
    ensures forall k :: 0 <= k < n - 1 ==> s[k] != nl
    ensures n < |s| ==> s[n - 1] == nl
  {
    if |s| == 0 then 0
    else if s[0] == nl then 1
    else 1 + LineLen(s[1..], nl)
  }

  /** `for line in f`: the lines of `s`, in order. */
  function Lines<T(==)>(s: seq<T>, nl: T): seq<seq<T>>
    decreases |s|
  {
    if |s| == 0 then []
    else
      var n := LineLen(s, nl);
      [s[..n]] + Lines(s[n..], nl)
  }

  function Flatten<T>(ls: seq<seq<T>>): seq<T> {
    if |ls| == 0 then [] else ls[0] + Flatten(ls[1..])
  }

  /** A well-formed line: non-empty, and `nl` occurs at most as its last element. */
  predicate IsLine<T(==)>(l: seq<T>, nl: T) {
    |l| > 0 && forall k :: 0 <= k < |l| - 1 ==> l[k] != nl
  }

  /** `f.seek(off); f.readline()`: from byte `off` through the next `nl`
      (or to the end); at or past the end it reads nothing. */
  function ReadLine<T(==)>(s: seq<T>, off: nat, nl: T): (l: seq<T>)
    ensures off < |s| ==> off + |l| <= |s| && IsLine(l, nl) && l == s[off..off + |l|]
    ensures off >= |s| ==> l == []
  {
    if off >= |s| then [] else s[off..off + LineLen(s[off..], nl)]
  }

  /** The position of the first element of every line, given the lines in order. */
  function LineStarts<T>(ls: seq<seq<T>>): (starts: seq<nat>)
    ensures |starts| == |ls|
  {
    seq(|ls|, k requires 0 <= k < |ls| => |Flatten(ls[..k])|)
  }

  lemma {:induction false} FlattenAppend<T>(a: seq<seq<T>>, b: seq<seq<T>>)
    ensures Flatten(a + b) == Flatten(a) + Flatten(b)
    decreases |a|
  {
    if |a| == 0 {
      assert a + b == b;
    } else {
      assert (a + b)[1..] == a[1..] + b;
      FlattenAppend(a[1..], b);
    }
  }

  lemma FlattenSnoc<T>(ls: seq<seq<T>>, l: seq<T>)
    ensures Flatten(ls + [l]) == Flatten(ls) + l
  {
    FlattenAppend(ls, [l]);
    assert Flatten([l]) == l + Flatten([l][1..]);
  }

  /** The lines of `s` are well-formed, every line but the last ends in `nl`,
      and putting them back together gives `s` exactly. */
  lemma LinesPartition<T>(s: seq<T>, nl: T)
    ensures Flatten(Lines(s, nl)) == s
    ensures forall k :: 0 <= k < |Lines(s, nl)| ==> IsLine(Lines(s, nl)[k], nl)
    ensures forall k :: 0 <= k < |Lines(s, nl)| - 1 ==>
              |Lines(s, nl)[k]| > 0 && Lines(s, nl)[k][|Lines(s, nl)[k]| - 1] == nl
  {
    FlattenLines(s, nl);
    LinesWellFormed(s, nl);
  }

  lemma {:induction false} FlattenLines<T>(s: seq<T>, nl: T)
    ensures Flatten(Lines(s, nl)) == s
    decreases |s|
  {
    if |s| > 0 {
      var n := LineLen(s, nl);
      var ls := Lines(s, nl);
      FlattenLines(s[n..], nl);
      assert ls[0] == s[..n];
      assert ls[1..] == Lines(s[n..], nl);
      assert Flatten(ls) == s[..n] + Flatten(Lines(s[n..], nl));
      assert s == s[..n] + s[n..];
    }
  }

  lemma {:induction false} LinesWellFormed<T>(s: seq<T>, nl: T)
    ensures forall k :: 0 <= k < |Lines(s, nl)| ==> IsLine(Lines(s, nl)[k], nl)
    ensures forall k :: 0 <= k < |Lines(s, nl)| - 1 ==>
              |Lines(s, nl)[k]| > 0 && Lines(s, nl)[k][|Lines(s, nl)[k]| - 1] == nl
    decreases |s|
  {
    if |s| > 0 {
      var n := LineLen(s, nl);
      var ls := Lines(s, nl);
      var rest := Lines(s[n..], nl);
      LinesWellFormed(s[n..], nl);
      assert ls == [s[..n]] + rest;
      forall k | 0 <= k < |ls|
        ensures IsLine(ls[k], nl)
      {
        if k > 0 { assert ls[k] == rest[k - 1]; }
      }
      forall k | 0 <= k < |ls| - 1
        ensures |ls[k]| > 0 && ls[k][|ls[k]| - 1] == nl
      {
        if k > 0 { assert ls[k] == rest[k - 1]; }
      }
    }
  }

  /** Dropping the first `k` lines of `s` leaves exactly the lines of the text
      that starts where line `k` starts. */
  lemma LinesSuffix<T>(s: seq<T>, nl: T, k: nat)
    requires k <= |Lines(s, nl)|
    ensures |Flatten(Lines(s, nl)[..k])| <= |s|
    ensures Lines(s, nl)[k..] == Lines(s[|Flatten(Lines(s, nl)[..k])|..], nl)
  {
    var ls := Lines(s, nl);
    LinesSplitAt(s, nl, k);
    LinesTailWellFormed(s, nl, k);
    LinesOfFlatten(ls[k..], nl);
  }

  /** The text from the start of line `k` on is the concatenation of the
      lines from `k` on. */
  lemma LinesSplitAt<T>(s: seq<T>, nl: T, k: nat)
    requires k <= |Lines(s, nl)|
    ensures |Flatten(Lines(s, nl)[..k])| <= |s|
    ensures s[|Flatten(Lines(s, nl)[..k])|..] == Flatten(Lines(s, nl)[k..])
  {
    var ls := Lines(s, nl);
    LinesPartition(s, nl);
    assert ls == ls[..k] + ls[k..];
    FlattenAppend(ls[..k], ls[k..]);
  }

  /** The lines from `k` on are well-formed and all but the last terminated. */
  lemma LinesTailWellFormed<T>(s: seq<T>, nl: T, k: nat)
    requires k <= |Lines(s, nl)|
    ensures var tail := Lines(s, nl)[k..];
            && (forall j :: 0 <= j < |tail| ==> IsLine(tail[j], nl))
            && (forall j :: 0 <= j < |tail| - 1 ==> |tail[j]| > 0 && tail[j][|tail[j]| - 1] == nl)
  {
    var ls := Lines(s, nl);
    LinesPartition(s, nl);
    var tail := ls[k..];
    forall j | 0 <= j < |tail|
      ensures IsLine(tail[j], nl)
    {
      assert tail[j] == ls[k + j];
    }
    forall j | 0 <= j < |tail| - 1
      ensures |tail[j]| > 0 && tail[j][|tail[j]| - 1] == nl
    {
      assert tail[j] == ls[k + j];
    }
  }

  /** Reading from the start position of line `k` reproduces line `k`. */
  lemma ReadLineAtLineStart<T>(s: seq<T>, nl: T, k: nat)
    requires k < |Lines(s, nl)|
    ensures ReadLine(s, LineStarts(Lines(s, nl))[k], nl) == Lines(s, nl)[k]
  {
    var ls := Lines(s, nl);
    LinesSuffix(s, nl, k);
    var start := LineStarts(ls)[k];
    var u := s[start..];
    assert ls[k..] == Lines(u, nl);
    assert |u| > 0;
    assert ls[k] == u[..LineLen(u, nl)];
  }

  /** A well-formed line that is terminated, or has nothing after it, is
      exactly the first line of the text it starts. */
  lemma {:induction false} LineLenOfLine<T>(l: seq<T>, rest: seq<T>, nl: T)
    requires IsLine(l, nl)
    requires l[|l| - 1] == nl || rest == []
    ensures LineLen(l + rest, nl) == |l|
    decreases |l|
  {
    var s := l + rest;
    if |l| > 1 {
      assert s[0] == l[0] != nl;
      assert s[1..] == l[1..] + rest;
      LineLenOfLine(l[1..], rest, nl);
    } else if l[0] != nl {
      assert s == l;
    }
  }

  /** Splitting the concatenation of well-formed lines, all but the last
      terminated, gives the lines back: `Lines` inverts `Flatten`. */
  lemma {:induction false} LinesOfFlatten<T>(ls: seq<seq<T>>, nl: T)
    requires forall k :: 0 <= k < |ls| ==> IsLine(ls[k], nl)
    requires forall k :: 0 <= k < |ls| - 1 ==> |ls[k]| > 0 && ls[k][|ls[k]| - 1] == nl
    ensures Lines(Flatten(ls), nl) == ls
    decreases |ls|
  {
    if |ls| > 0 {
      var rest := Flatten(ls[1..]);
      assert |ls| == 1 ==> rest == [];
      LineLenOfLine(ls[0], rest, nl);
      var s := Flatten(ls);
      assert s == ls[0] + rest;
      assert s[..|ls[0]|] == ls[0];
      assert s[|ls[0]|..] == rest;
      LinesOfFlatten(ls[1..], nl);
    }
  }
}
