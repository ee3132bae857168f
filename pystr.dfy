/**
 * `str.split(sep)` with an explicit one-character separator, the only string
 * method the label classifier calls, and `sep.join(...)`, its inverse.
 */
module PyStr {

  /**
   * `s.split(sep)`: the pieces of `s` between the occurrences of `sep`, in
   * order, empty pieces included. There is always at least one piece, and no
   * piece contains the separator.
   */
  function Split(s: string, sep: char): (parts: seq<string>)
    ensures |parts| >= 1
    ensures forall i :: 0 <= i < |parts| ==> sep !in parts[i]
    decreases |s|
  {
    if s == [] then [[]]
    else
      var rest := Split(s[1..], sep);
      if s[0] == sep then [[]] + rest
      else [[s[0]] + rest[0]] + rest[1..]
  }

  /** `sep.join(parts)`: the pieces glued back together with one separator between neighbours. */
  function Join(parts: seq<string>, sep: char): string
    requires |parts| >= 1
    decreases |parts|
  {
    if |parts| == 1 then parts[0] else parts[0] + [sep] + Join(parts[1..], sep)
  }

  /** Joining the pieces gives back the original string. */
  lemma {:induction false} JoinSplit(s: string, sep: char)
    ensures Join(Split(s, sep), sep) == s
    decreases |s|
  {
    if s != [] {
      JoinSplit(s[1..], sep);
      var rest := Split(s[1..], sep);
      if s[0] == sep {
        assert ([[]] + rest)[1..] == rest;
      } else if |rest| > 1 {
        assert ([[s[0]] + rest[0]] + rest[1..])[1..] == rest[1..];
      }
    }
  }

  /** A string without the separator is one piece. */
  lemma {:induction false} SplitWithoutSeparator(p: string, sep: char)
    requires sep !in p
    ensures Split(p, sep) == [p]
    decreases |p|
  {
    if p != [] {
      SplitWithoutSeparator(p[1..], sep);
      assert [p[0]] + p[1..] == p;
    }
  }

  /** A separator-free prefix followed by the separator is the first piece; the rest is split on its own. */
  lemma {:induction false} SplitAfterPiece(p: string, sep: char, t: string)
    requires sep !in p
    ensures Split(p + [sep] + t, sep) == [p] + Split(t, sep)
    decreases |p|
  {
    var s := p + [sep] + t;
    if p == [] {
      assert s[1..] == t;
    } else {
      assert s[1..] == p[1..] + [sep] + t;
      SplitAfterPiece(p[1..], sep, t);
      assert [p[0]] + p[1..] == p;
    }
  }

  /** Splitting the joined pieces gives back the pieces, when none of them holds the separator. */
  lemma {:induction false} SplitJoin(parts: seq<string>, sep: char)
    requires |parts| >= 1
    requires forall i :: 0 <= i < |parts| ==> sep !in parts[i]
    ensures Split(Join(parts, sep), sep) == parts
    decreases |parts|
  {
    if |parts| == 1 {
      SplitWithoutSeparator(parts[0], sep);
    } else {
      SplitJoin(parts[1..], sep);
      SplitAfterPiece(parts[0], sep, Join(parts[1..], sep));
      assert [parts[0]] + parts[1..] == parts;
    }
  }

  /** There is one more piece than there are separators in the string. */
  lemma {:induction false} SplitLength(s: string, sep: char)
    ensures |Split(s, sep)| == multiset(s)[sep] + 1
    decreases |s|
  {
    if s != [] {
      SplitLength(s[1..], sep);
      assert s == [s[0]] + s[1..];
      assert multiset(s) == multiset([s[0]]) + multiset(s[1..]);
    }
  }

  /** In a separator-free `t` followed by nothing or by the separator and more, the first piece is `t`. */
  lemma FirstPiece(t: string, rest: string, sep: char)
    requires sep !in t
    requires rest == [] || rest[0] == sep
    ensures Split(t + rest, sep)[0] == t
  {
    if rest == [] {
      assert t + rest == t;
      SplitWithoutSeparator(t, sep);
    } else {
      assert t + rest == t + [sep] + rest[1..];
      SplitAfterPiece(t, sep, rest[1..]);
    }
  }

  /**
   * In `a` sep `b` sep `t` followed by nothing or by sep and more, where the
   * three pieces are free of sep, there are at least three pieces and the
   * third is `t`.
   */
  lemma ThirdPiece(a: string, b: string, t: string, rest: string, sep: char)
    requires sep !in a && sep !in b && sep !in t
    requires rest == [] || rest[0] == sep
    ensures |Split(a + [sep] + (b + [sep] + (t + rest)), sep)| >= 3
    ensures Split(a + [sep] + (b + [sep] + (t + rest)), sep)[2] == t
  {
    var s3 := t + rest;
    var s2 := b + [sep] + s3;
    FirstPiece(t, rest, sep);
    SplitAfterPiece(b, sep, s3);
    SplitAfterPiece(a, sep, s2);
  }

  /** The pieces after the third, joined and led by the separator; empty when there are only three. */
  function AfterThird(parts: seq<string>, sep: char): (rest: string)
    requires |parts| >= 3
    ensures rest == [] || rest[0] == sep
  {
    if |parts| == 3 then [] else [sep] + Join(parts[3..], sep)
  }

  /** Joining three or more pieces puts the first three in front, each followed by the separator, then the rest. */
  lemma JoinThree(parts: seq<string>, sep: char)
    requires |parts| >= 3
    ensures Join(parts, sep) == parts[0] + [sep] + (parts[1] + [sep] + (parts[2] + AfterThird(parts, sep)))
  {
    var p1, p2 := parts[1..], parts[2..];
    assert p1[1..] == p2;
    var j2 := Join(p2, sep);
    var j1 := Join(p1, sep);
    JoinSecond(p2, sep, AfterThird(parts, sep), parts[3..]);
    assert j2 == parts[2] + AfterThird(parts, sep);
    assert j1 == parts[1] + [sep] + j2;
  }

  /** Joining pieces starting with `p` is `p` followed by `rest`, the separator and the joined remainder. */
  lemma JoinSecond(ps: seq<string>, sep: char, rest: string, more: seq<string>)
    requires |ps| >= 1 && more == ps[1..]
    requires rest == if |ps| == 1 then [] else [sep] + Join(more, sep)
    ensures Join(ps, sep) == ps[0] + rest
  {
  }
}
