/** The handful of Python `str` operations the gateway relies on, written out
    over `seq<char>` with the facts the rest of the model needs about them. */
module Strings {

  /** `s.startswith(p)` */
  predicate StartsWith(s: string, p: string) {
    |p| <= |s| && s[..|p|] == p
  }

  /** `p in s`, scanning `s` from the left. */
  predicate Contains(s: string, p: string)
    decreases |s|
  {
    StartsWith(s, p) || (|s| > 0 && Contains(s[1..], p))
  }

  /** `p` occurs in `s` starting at index `i`. */
  predicate OccursAt(s: string, p: string, i: int) {
    0 <= i <= |s| - |p| && s[i..i + |p|] == p
  }

  /** `p in s` holds exactly when `p` occurs at some position of `s`. */
  lemma {:induction false} ContainsIffOccurs(s: string, p: string)
    ensures Contains(s, p) <==> exists i :: OccursAt(s, p, i)
    decreases |s|
  {
    assert OccursAt(s, p, 0) <==> StartsWith(s, p);
    if StartsWith(s, p) {
    } else if |s| == 0 {
      assert forall i :: OccursAt(s, p, i) ==> i == 0;
    } else {
      ContainsIffOccurs(s[1..], p);
      if Contains(s[1..], p) {
        var i :| OccursAt(s[1..], p, i);
        assert s[1..][i..i + |p|] == s[i + 1..i + 1 + |p|];
        assert OccursAt(s, p, i + 1);
      }
      forall i | OccursAt(s, p, i)
        ensures OccursAt(s[1..], p, i - 1)
      {
        assert s[1..][i - 1..i - 1 + |p|] == s[i..i + |p|];
      }
    }
  }

  /** ASCII `str.lower()` of one character. */
  function LowerChar(c: char): char {
    if 'A' <= c <= 'Z' then (c as int + 32) as char else c
  }

  /** `s.lower()`, restricted to the ASCII letters. */
  function Lower(s: string): (r: string)
    ensures |r| == |s|
    ensures forall i :: 0 <= i < |s| ==> r[i] == LowerChar(s[i])
  {
    seq(|s|, i requires 0 <= i < |s| => LowerChar(s[i]))
  }

  /** `s.replace(p, "")`: every non-overlapping occurrence of `p`, found
      left to right, is removed. */
  function RemoveAll(s: string, p: string): (r: string)
    requires |p| > 0
    ensures |r| <= |s|
    decreases |s|
  {
    if |s| < |p| then s
    else if s[..|p|] == p then RemoveAll(s[|p|..], p)
    else [s[0]] + RemoveAll(s[1..], p)
  }

  /** A string with no occurrence of `p` is left untouched by `RemoveAll`. */
  lemma {:induction false} RemoveAllAbsent(s: string, p: string)
    requires |p| > 0
    requires !Contains(s, p)
    ensures RemoveAll(s, p) == s
    decreases |s|
  {
    if |s| < |p| {
    } else {
      assert !StartsWith(s, p);
      RemoveAllAbsent(s[1..], p);
      assert [s[0]] + s[1..] == s;
    }
  }

  /** `RemoveAll` changes a string only when `p` occurs in it. */
  lemma RemoveAllOnlyWhenPresent(s: string, p: string)
    requires |p| > 0
    ensures !Contains(s, p) ==> RemoveAll(s, p) == s
  {
    if !Contains(s, p) {
      RemoveAllAbsent(s, p);
    }
  }

  /** `s.split(sep)` for a one-character separator: the pieces between
      separators, always at least one. */
  function Split(s: string, sep: char): (r: seq<string>)
    ensures |r| >= 1
    decreases |s|
  {
    if |s| == 0 then [""]
    else
      var rest := Split(s[1..], sep);
      if s[0] == sep then [""] + rest
      else [[s[0]] + rest[0]] + rest[1..]
  }

  /** `sep.join(xs)` for a one-character separator. */
  function Join(xs: seq<string>, sep: char): (r: string)
    decreases |xs|
  {
    if |xs| == 0 then ""
    else if |xs| == 1 then xs[0]
    else xs[0] + [sep] + Join(xs[1..], sep)
  }

  lemma {:induction false} SplitNoSeparator(s: string, sep: char)
    requires sep !in s
    ensures Split(s, sep) == [s]
    decreases |s|
  {
    if |s| > 0 {
      SplitNoSeparator(s[1..], sep);
      assert [s[0]] + s[1..] == s;
    }
  }

  lemma {:induction false} SplitAfterPiece(a: string, b: string, sep: char)
    requires sep !in a
    ensures Split(a + [sep] + b, sep) == [a] + Split(b, sep)
    decreases |a|
  {
    var s := a + [sep] + b;
    if |a| == 0 {
      assert s[1..] == b;
    } else {
      assert s[1..] == a[1..] + [sep] + b;
      SplitAfterPiece(a[1..], b, sep);
      assert [a[0]] + a[1..] == a;
    }
  }

  /** Joining pieces that hold no separator and splitting again gives the
      pieces back, in order: the join loses nothing. */
  lemma {:induction false} SplitJoin(xs: seq<string>, sep: char)
    requires |xs| > 0
    requires forall i :: 0 <= i < |xs| ==> sep !in xs[i]
    ensures Split(Join(xs, sep), sep) == xs
    decreases |xs|
  {
    if |xs| == 1 {
      SplitNoSeparator(xs[0], sep);
    } else {
      SplitJoin(xs[1..], sep);
      SplitAfterPiece(xs[0], Join(xs[1..], sep), sep);
      assert [xs[0]] + xs[1..] == xs;
    }
  }

  /** The last piece of `s.split(sep)`. */
  function LastPiece(s: string, sep: char): string {
    var parts := Split(s, sep);
    parts[|parts| - 1]
  }

  /** The last piece of a split is the text after the last separator. */
  lemma {:induction false} LastPieceIsTail(s: string, sep: char)
    ensures |LastPiece(s, sep)| <= |s|
    ensures LastPiece(s, sep) == s[|s| - |LastPiece(s, sep)|..]
    ensures sep !in LastPiece(s, sep)
    ensures sep !in s ==> LastPiece(s, sep) == s
    ensures sep in s ==> s[|s| - |LastPiece(s, sep)| - 1] == sep && |Split(s, sep)| >= 2
    decreases |s|
  {
    if sep !in s {
      SplitNoSeparator(s, sep);
    } else {
      var rest := Split(s[1..], sep);
      var parts := Split(s, sep);
      if s[0] == sep {
        assert parts == [""] + rest;
        assert LastPiece(s, sep) == LastPiece(s[1..], sep);
        if sep in s[1..] {
          LastPieceIsTail(s[1..], sep);
        } else {
          SplitNoSeparator(s[1..], sep);
        }
      } else {
        assert sep in s[1..];
        LastPieceIsTail(s[1..], sep);
        assert parts == [[s[0]] + rest[0]] + rest[1..];
        assert LastPiece(s, sep) == LastPiece(s[1..], sep);
      }
      var tail := LastPiece(s, sep);
      assert s[1..][|s| - 1 - |tail|..] == s[|s| - |tail|..];
    }
  }

  /** `s.split(".")[-1]`: the enum-name shortening the response translator
      applies. The result is the text after the last "." of `s`, or all of
      `s` when it has no ".". */
  function ShortName(s: string): (r: string)
    ensures |r| <= |s| && r == s[|s| - |r|..]
    ensures '.' !in r
    ensures '.' !in s ==> r == s
    ensures '.' in s ==> s[|s| - |r| - 1] == '.'
  {
    LastPieceIsTail(s, '.');
    LastPiece(s, '.')
  }

  /** Python's `<` on strings: code-point lexicographic order. */
  predicate Less(a: string, b: string)
    decreases |a|
  {
    if |a| == 0 then |b| > 0
    else if |b| == 0 then false
    else if a[0] != b[0] then a[0] < b[0]
    else Less(a[1..], b[1..])
  }

  lemma {:induction false} LessIrreflexive(a: string)
    ensures !Less(a, a)
    decreases |a|
  {
    if |a| > 0 {
      LessIrreflexive(a[1..]);
    }
  }

  lemma {:induction false} LessTransitive(a: string, b: string, c: string)
    requires Less(a, b) && Less(b, c)
    ensures Less(a, c)
    decreases |a|
  {
    if |a| > 0 && a[0] == b[0] && b[0] == c[0] {
      LessTransitive(a[1..], b[1..], c[1..]);
    }
  }

  /** Any two different strings are ordered one way or the other. */
  lemma {:induction false} LessTotal(a: string, b: string)
    requires a != b
    ensures Less(a, b) || Less(b, a)
    decreases |a|
  {
    if |a| > 0 && |b| > 0 && a[0] == b[0] {
      assert a == [a[0]] + a[1..] && b == [b[0]] + b[1..];
      LessTotal(a[1..], b[1..]);
    }
  }

  lemma {:induction false} LessAsymmetric(a: string, b: string)
    requires Less(a, b)
    ensures !Less(b, a)
    decreases |a|
  {
    if |a| > 0 && |b| > 0 && a[0] == b[0] {
      LessAsymmetric(a[1..], b[1..]);
    }
  }
}
