/**
 * Python's `str.split(sep)` and `sep.join(parts)` on strings, the two
 * builtins the date helpers and the query builder are made of.
 */
module PyStr {

  /** Sum of the lengths of the pieces. */
  function TotalLength(parts: seq<string>): nat
  {
    if parts == [] then 0 else |parts[0]| + TotalLength(parts[1..])
  }

  /** `sep.join(parts)`: the pieces in order with `sep` between neighbours. */
  function Join(parts: seq<string>, sep: string): (r: string)
    ensures |parts| > 0 ==> |r| == TotalLength(parts) + (|parts| - 1) * |sep|
  {
    if |parts| == 0 then ""
    else if |parts| == 1 then parts[0]
    else parts[0] + sep + Join(parts[1..], sep)
  }

  /**
   * `s.split(sep)` for a non-empty `sep`: cut at every occurrence of `sep`,
   * found left to right without overlap. Python raises ValueError for an
   * empty separator; callers model that case themselves.
   */
  function Split(s: string, sep: string): (parts: seq<string>)
    requires |sep| > 0
    ensures |parts| >= 1
    decreases |s|
  {
    if |s| < |sep| then [s]
    else if s[..|sep|] == sep then [""] + Split(s[|sep|..], sep)
    else
      var rest := Split(s[1..], sep);
      [[s[0]] + rest[0]] + rest[1..]
  }

  /** Growing the first piece grows the joined text at its front. */
  lemma JoinPrepend(c: string, parts: seq<string>, sep: string)
    requires |parts| >= 1
    ensures Join([c + parts[0]] + parts[1..], sep) == c + Join(parts, sep)
  {
  }

  /** Three pieces joined: first, separator, second, separator, third. */
  lemma JoinThree(a: string, b: string, c: string, sep: string)
    ensures Join([a, b, c], sep) == a + sep + b + sep + c
  {
    var parts := [a, b, c];
    assert parts[1..] == [b, c] && parts[1..][1..] == [c];
    assert Join(parts[1..], sep) == b + sep + c;
    assert a + sep + (b + sep + c) == a + sep + b + sep + c;
  }

  /** Joining two non-empty runs of pieces puts one separator between them. */
  lemma {:induction false} JoinAppend(a: seq<string>, b: seq<string>, sep: string)
    requires |a| >= 1 && |b| >= 1
    ensures Join(a + b, sep) == Join(a, sep) + sep + Join(b, sep)
  {
    if |a| == 1 {
      assert (a + b)[1..] == b;
    } else {
      JoinAppend(a[1..], b, sep);
      assert (a + b)[1..] == a[1..] + b;
    }
  }

  /** Rejoining the pieces of a split with the same separator gives the input back. */
  lemma {:induction false} JoinSplit(s: string, sep: string)
    requires |sep| > 0
    ensures Join(Split(s, sep), sep) == s
    decreases |s|
  {
    if |s| < |sep| {
    } else if s[..|sep|] == sep {
      var tail := s[|sep|..];
      var rest := Split(tail, sep);
      assert Split(s, sep) == [""] + rest;
      JoinSplit(tail, sep);
      assert ([""] + rest)[1..] == rest;
      assert Join([""] + rest, sep) == "" + sep + Join(rest, sep);
      assert s == sep + tail;
    } else {
      var rest := Split(s[1..], sep);
      assert Split(s, sep) == [[s[0]] + rest[0]] + rest[1..];
      JoinSplit(s[1..], sep);
      JoinPrepend([s[0]], rest, sep);
      assert s == [s[0]] + s[1..];
    }
  }

  /** No piece of a split on a one-character separator contains that character. */
  lemma {:induction false} SplitPiecesFree(s: string, sep: string)
    requires |sep| == 1
    ensures forall i :: 0 <= i < |Split(s, sep)| ==> sep[0] !in Split(s, sep)[i]
    decreases |s|
  {
    if |s| < |sep| {
    } else if s[..|sep|] == sep {
      SplitPiecesFree(s[|sep|..], sep);
    } else {
      SplitPiecesFree(s[1..], sep);
      var rest := Split(s[1..], sep);
      assert s[0] != sep[0] by { assert s[..1] == [s[0]]; }
      assert sep[0] !in [s[0]] + rest[0];
    }
  }

  /** A text without the separator character splits into itself alone. */
  lemma {:induction false} SplitNoSeparator(p: string, c: char)
    requires c !in p
    ensures Split(p, [c]) == [p]
    decreases |p|
  {
    if |p| > 0 {
      assert p[..1] == [p[0]];
      SplitNoSeparator(p[1..], c);
      assert p == [p[0]] + p[1..];
    }
  }

  /** A separator-free head followed by the separator splits off as one piece. */
  lemma {:induction false} SplitCons(p: string, c: char, t: string)
    requires c !in p
    ensures Split(p + [c] + t, [c]) == [p] + Split(t, [c])
    decreases |p|
  {
    var s := p + [c] + t;
    if |p| == 0 {
      assert s[..1] == [c];
      assert s[1..] == t;
    } else {
      assert s[..1] == [p[0]];
      assert s[1..] == p[1..] + [c] + t;
      SplitCons(p[1..], c, t);
      assert p == [p[0]] + p[1..];
    }
  }

  /** Splitting a join of separator-free pieces recovers exactly those pieces. */
  lemma {:induction false} SplitJoin(parts: seq<string>, c: char)
    requires |parts| >= 1
    requires forall i :: 0 <= i < |parts| ==> c !in parts[i]
    ensures Split(Join(parts, [c]), [c]) == parts
  {
    if |parts| == 1 {
      SplitNoSeparator(parts[0], c);
    } else {
      SplitJoin(parts[1..], c);
      SplitCons(parts[0], c, Join(parts[1..], [c]));
      assert parts == [parts[0]] + parts[1..];
    }
  }

  /** Three separator-free pieces joined by a one-character separator split back into those three. */
  lemma SplitThree(a: string, b: string, c: string, ch: char)
    requires ch !in a && ch !in b && ch !in c
    ensures Split(a + [ch] + b + [ch] + c, [ch]) == [a, b, c]
  {
    JoinThree(a, b, c, [ch]);
    SplitJoin([a, b, c], ch);
  }

  /** A text without the character `ch` splits into pieces without it. */
  lemma PiecesAvoid(s: string, sep: string, ch: char)
    requires |sep| > 0 && ch !in s
    ensures forall i :: 0 <= i < |Split(s, sep)| ==> ch !in Split(s, sep)[i]
  {
  }

  /** On a one-character separator the split has one piece exactly when the separator is absent. */
  lemma SplitSinglePiece(s: string, sep: string)
    requires |sep| == 1
    ensures |Split(s, sep)| == 1 <==> sep[0] !in s
  {
  }
}
