/**
 Text operations the extension relies on from JavaScript's String and Array:
 `split` on a one-character separator, `join`, and `includes`.
 Strings are sequences of Unicode scalar values.
 */
module Strings {

  /** `p` occurs in `s` at position `i`. */
  predicate StartsAt(s: string, i: nat, p: string) {
    i + |p| <= |s| && s[i..i + |p|] == p
  }

  /** Reference meaning of `s.includes(p)`: some position of `s` starts a copy of `p`. */
  ghost predicate Occurs(s: string, p: string) {
    exists i: nat :: StartsAt(s, i, p)
  }

  /** `s.includes(p)` as a search from position `from` onwards. */
  function IncludesFrom(s: string, p: string, from: nat): bool
    decreases |s| - from
  {
    from <= |s| && (StartsAt(s, from, p) || IncludesFrom(s, p, from + 1))
  }

  /** `s.includes(p)` */
  function Includes(s: string, p: string): (b: bool)
    ensures b <==> Occurs(s, p)
  {
    IncludesFromSpec(s, p, 0);
    IncludesFrom(s, p, 0)
  }

  lemma {:induction false} IncludesFromSpec(s: string, p: string, from: nat)
    ensures IncludesFrom(s, p, from) <==> exists i: nat :: from <= i && StartsAt(s, i, p)
    decreases |s| - from
  {
    if from <= |s| {
      IncludesFromSpec(s, p, from + 1);
      if IncludesFrom(s, p, from) && !StartsAt(s, from, p) {
        var i: nat :| from + 1 <= i && StartsAt(s, i, p);
      }
      if exists i: nat :: from <= i && StartsAt(s, i, p) {
        var i: nat :| from <= i && StartsAt(s, i, p);
        assert i == from || (from + 1 <= i && StartsAt(s, i, p));
      }
    }
  }

  /**
   `s.split(sep)` for a one-character separator: the maximal pieces of `s`
   between separators, one more piece than there are separators.
   */
  function Split(s: string, sep: char): (parts: seq<string>)
    ensures |parts| >= 1
    ensures forall k | 0 <= k < |parts| :: sep !in parts[k]
  {
    if s == [] then [[]]
    else
      var rest := Split(s[1..], sep);
      if s[0] == sep then [[]] + rest
      else [[s[0]] + rest[0]] + rest[1..]
  }

  /** `parts.join(sep)` */
  function Join(parts: seq<string>, sep: char): string {
    if |parts| == 0 then []
    else if |parts| == 1 then parts[0]
    else parts[0] + [sep] + Join(parts[1..], sep)
  }

  /** Joining the pieces of a split gives back the string. */
  lemma {:induction false} JoinSplit(s: string, sep: char)
    ensures Join(Split(s, sep), sep) == s
  {
    if s != [] {
      JoinSplit(s[1..], sep);
      var rest := Split(s[1..], sep);
      if s[0] == sep {
        assert Split(s, sep) == [[]] + rest;
        assert s == [] + [sep] + s[1..];
      } else {
        var parts := [[s[0]] + rest[0]] + rest[1..];
        assert Split(s, sep) == parts;
        if |rest| == 1 {
          assert Join(parts, sep) == [s[0]] + rest[0];
        } else {
          assert parts[1..] == rest[1..];
          assert Join(rest, sep) == rest[0] + [sep] + Join(rest[1..], sep);
          assert Join(parts, sep) == [s[0]] + rest[0] + [sep] + Join(rest[1..], sep);
        }
      }
    }
  }

  /** A string without the separator splits into itself alone. */
  lemma {:induction false} SplitWithoutSeparator(a: string, sep: char)
    requires sep !in a
    ensures Split(a, sep) == [a]
  {
    if a != [] {
      SplitWithoutSeparator(a[1..], sep);
      assert [a[0]] + a[1..] == a;
    }
  }

  /** The first separator ends the first piece. */
  lemma {:induction false} SplitAtSeparator(a: string, sep: char, b: string)
    requires sep !in a
    ensures Split(a + [sep] + b, sep) == [a] + Split(b, sep)
  {
    var s := a + [sep] + b;
    if a == [] {
      assert s[1..] == b;
    } else {
      assert s[1..] == a[1..] + [sep] + b;
      SplitAtSeparator(a[1..], sep, b);
      assert [a[0]] + a[1..] == a;
    }
  }

  /** Splitting a join gives back the pieces, when no piece holds the separator. */
  lemma {:induction false} SplitJoin(parts: seq<string>, sep: char)
    requires |parts| >= 1
    requires forall k | 0 <= k < |parts| :: sep !in parts[k]
    ensures Split(Join(parts, sep), sep) == parts
  {
    if |parts| == 1 {
      SplitWithoutSeparator(parts[0], sep);
    } else {
      SplitJoin(parts[1..], sep);
      SplitAtSeparator(parts[0], sep, Join(parts[1..], sep));
      assert [parts[0]] + parts[1..] == parts;
    }
  }

  /** Joining one more piece appends the separator and that piece. */
  lemma {:induction false} JoinSnoc(parts: seq<string>, last: string, sep: char)
    requires |parts| >= 1
    ensures Join(parts + [last], sep) == Join(parts, sep) + [sep] + last
  {
    if |parts| > 1 {
      JoinSnoc(parts[1..], last, sep);
      assert (parts + [last])[1..] == parts[1..] + [last];
    }
  }

  /** A join of two or more parts ends with the separator and the last part. */
  lemma JoinLast(parts: seq<string>, sep: char)
    requires |parts| >= 2
    ensures Join(parts, sep) == Join(parts[..|parts| - 1], sep) + [sep] + parts[|parts| - 1]
  {
    var init, last := parts[..|parts| - 1], parts[|parts| - 1];
    assert parts == init + [last];
    JoinSnoc(init, last, sep);
  }

  /** A join of eight parts, written out. */
  lemma JoinEight(p: seq<string>, sep: char)
    requires |p| == 8
    ensures Join(p, sep) ==
      p[0] + [sep] + p[1] + [sep] + p[2] + [sep] + p[3] + [sep] + p[4] + [sep] + p[5] + [sep] + p[6] + [sep] + p[7]
  {
    JoinLast(p, sep);
    JoinLast(p[..7], sep);
    JoinLast(p[..6], sep);
    JoinLast(p[..5], sep);
    JoinLast(p[..4], sep);
    JoinLast(p[..3], sep);
    JoinLast(p[..2], sep);
    assert p[..7][..6] == p[..6] && p[..6][..5] == p[..5] && p[..5][..4] == p[..4];
    assert p[..4][..3] == p[..3] && p[..3][..2] == p[..2] && p[..2][..1] == [p[0]];
  }

  /** Index of the first `c` in `s`, or `|s|` when there is none. */
  function FirstIndex(s: string, c: char): (i: nat)
    ensures i <= |s|
    ensures i < |s| ==> s[i] == c
    ensures c !in s[..i]
  {
    if s == [] then 0
    else if s[0] == c then 0
    else
      var j := FirstIndex(s[1..], c);
      assert s[..1 + j] == [s[0]] + s[1..][..j];
      1 + j
  }
}
