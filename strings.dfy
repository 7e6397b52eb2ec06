/**
 * The string primitives the quote converter relies on: joining an array of
 * strings with no separator (`Array.prototype.join("")`), and splitting and
 * joining text on a one-character separator (`String.prototype.split` and
 * `Array.prototype.join` with the separator `"\n"`).
 */
module Strings {

  /** `parts.join("")`: the parts written one after another, in order. */
  function Concat(parts: seq<string>): string
  {
    if parts == [] then [] else Concat(parts[..|parts| - 1]) + parts[|parts| - 1]
  }

  lemma {:induction false} ConcatAppend(p: seq<string>, q: seq<string>)
    ensures Concat(p + q) == Concat(p) + Concat(q)
    decreases |q|
  {
    if q == [] {
      assert p + q == p;
    } else {
      assert (p + q)[..|p + q| - 1] == p + q[..|q| - 1];
      ConcatAppend(p, q[..|q| - 1]);
    }
  }

  /** The one-character strings of `t`, one per position. */
  function Singletons(t: string): seq<string>
  {
    seq(|t|, i requires 0 <= i < |t| => [t[i]])
  }

  /** Joining the characters of `t` one by one gives `t` back. */
  lemma {:induction false} ConcatSingletons(t: string)
    ensures Concat(Singletons(t)) == t
    decreases |t|
  {
    if t != [] {
      var n := |t| - 1;
      assert Singletons(t)[..n] == Singletons(t[..n]);
      ConcatSingletons(t[..n]);
      assert t[..n] + [t[n]] == t;
    }
  }

  /** When every part is one character long, the joined string has the
      parts' characters at the parts' positions. */
  lemma {:induction false} ConcatUnitParts(parts: seq<string>)
    requires forall i :: 0 <= i < |parts| ==> |parts[i]| == 1
    ensures |Concat(parts)| == |parts|
    ensures forall i :: 0 <= i < |parts| ==> Concat(parts)[i] == parts[i][0]
    decreases |parts|
  {
    if parts != [] {
      var n := |parts| - 1;
      ConcatUnitParts(parts[..n]);
    }
  }

  /** A character occurs in the joined string only if it occurs in a part. */
  lemma {:induction false} ConcatMember(parts: seq<string>, c: char)
    requires forall i :: 0 <= i < |parts| ==> c !in parts[i]
    ensures c !in Concat(parts)
    decreases |parts|
  {
    if parts != [] {
      ConcatMember(parts[..|parts| - 1], c);
    }
  }

  /** `t.split(sep)` for a one-character separator: the pieces between the
      separators, in order; there is always at least one piece, and none
      holds the separator. */
  function Split(t: string, sep: char): (r: seq<string>)
    ensures |r| >= 1
    ensures forall k :: 0 <= k < |r| ==> sep !in r[k]
    decreases |t|
  {
    if t == [] then [[]]
    else
      var rest := Split(t[1..], sep);
      if t[0] == sep then [[]] + rest
      else [[t[0]] + rest[0]] + rest[1..]
  }

  /** `lines.join(sep)`: the lines with one separator between neighbours. */
  function Join(lines: seq<string>, sep: char): string
  {
    if |lines| == 0 then []
    else if |lines| == 1 then lines[0]
    else lines[0] + [sep] + Join(lines[1..], sep)
  }

  /** Joining the pieces of a split restores the text. */
  lemma {:induction false} JoinSplit(t: string, sep: char)
    ensures Join(Split(t, sep), sep) == t
    decreases |t|
  {
    if t != [] {
      var rest := Split(t[1..], sep);
      JoinSplit(t[1..], sep);
      if t[0] == sep {
        assert ([[]] + rest)[1..] == rest;
      } else if |rest| > 1 {
        assert ([[t[0]] + rest[0]] + rest[1..])[1..] == rest[1..];
      }
    }
  }

  /** Text without the separator splits into itself alone. */
  lemma {:induction false} SplitNoSeparator(t: string, sep: char)
    requires sep !in t
    ensures Split(t, sep) == [t]
    decreases |t|
  {
    if t != [] {
      SplitNoSeparator(t[1..], sep);
      assert [t[0]] + t[1..] == t;
    }
  }

  /** Splitting `a + sep + b` splits `a` and `b` independently. */
  lemma {:induction false} SplitConcat(a: string, b: string, sep: char)
    ensures Split(a + [sep] + b, sep) == Split(a, sep) + Split(b, sep)
    decreases |a|
  {
    var t := a + [sep] + b;
    if a == [] {
      assert t[1..] == b;
    } else {
      assert t[1..] == a[1..] + [sep] + b;
      SplitConcat(a[1..], b, sep);
    }
  }

  lemma {:induction false} JoinAppend(p: seq<string>, q: seq<string>, sep: char)
    requires |p| >= 1 && |q| >= 1
    ensures Join(p + q, sep) == Join(p, sep) + [sep] + Join(q, sep)
    decreases |p|
  {
    if |p| > 1 {
      assert (p + q)[1..] == p[1..] + q;
      JoinAppend(p[1..], q, sep);
    }
  }

  /** Splitting the join of separator-free lines gives the lines back. */
  lemma {:induction false} SplitJoin(lines: seq<string>, sep: char)
    requires |lines| >= 1
    requires forall k :: 0 <= k < |lines| ==> sep !in lines[k]
    ensures Split(Join(lines, sep), sep) == lines
    decreases |lines|
  {
    SplitNoSeparator(lines[0], sep);
    if |lines| > 1 {
      SplitJoin(lines[1..], sep);
      SplitConcat(lines[0], Join(lines[1..], sep), sep);
      assert [lines[0]] + lines[1..] == lines;
    }
  }
}
