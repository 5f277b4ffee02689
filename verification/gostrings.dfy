/** Go's `strings.Split` for a one-character separator, and its inverse
    `strings.Join`. Both handlers split strings this way: the media type on
    '/' to obtain the file extension, and the stored video reference on ','
    to recover the bucket and the key. */
module GoStrings {

  /** Position of the first occurrence of `c` in `s`, or -1 (Go's `strings.IndexByte`). */
  function IndexOf(s: string, c: char): (i: int)
    ensures -1 <= i < |s|
    ensures i >= 0 ==> s[i] == c && c !in s[..i]
    ensures i < 0 ==> c !in s
  {
    if |s| == 0 then -1
    else if s[0] == c then 0
    else
      var j := IndexOf(s[1..], c);
      if j < 0 then -1
      else
        assert s[..j + 1] == [s[0]] + s[1..][..j];
        j + 1
  }

  /** Number of occurrences of `c` in `s`. */
  function Count(s: string, c: char): nat
  {
    if |s| == 0 then 0 else (if s[0] == c then 1 else 0) + Count(s[1..], c)
  }

  /** `strings.Split(s, string(c))`: the maximal pieces of `s` between the
      occurrences of `c`. The empty string splits into one empty piece. */
  function Split(s: string, c: char): (parts: seq<string>)
    ensures |parts| >= 1
    ensures forall k :: 0 <= k < |parts| ==> c !in parts[k]
    decreases |s|
  {
    var i := IndexOf(s, c);
    if i < 0 then [s] else [s[..i]] + Split(s[i + 1..], c)
  }

  /** `strings.Join(parts, string(c))`. */
  function Join(parts: seq<string>, c: char): (s: string)
    requires |parts| >= 1
    decreases |parts|
  {
    if |parts| == 1 then parts[0] else parts[0] + [c] + Join(parts[1..], c)
  }

  lemma {:induction false} CountAppend(a: string, b: string, c: char)
    ensures Count(a + b, c) == Count(a, c) + Count(b, c)
    decreases |a|
  {
    if |a| == 0 {
      assert a + b == b;
    } else {
      assert (a + b)[1..] == a[1..] + b;
      CountAppend(a[1..], b, c);
    }
  }

  lemma {:induction false} CountAbsent(s: string, c: char)
    requires c !in s
    ensures Count(s, c) == 0
    decreases |s|
  {
    if |s| > 0 {
      CountAbsent(s[1..], c);
    }
  }

  /** Joining the pieces with the separator gives back the original string. */
  lemma {:induction false} JoinSplit(s: string, c: char)
    ensures Join(Split(s, c), c) == s
    decreases |s|
  {
    var i := IndexOf(s, c);
    if i >= 0 {
      JoinSplit(s[i + 1..], c);
      assert s == s[..i] + [c] + s[i + 1..];
    }
  }

  /** Splitting a join of separator-free pieces gives back the pieces. */
  lemma {:induction false} SplitJoin(parts: seq<string>, c: char)
    requires |parts| >= 1
    requires forall k :: 0 <= k < |parts| ==> c !in parts[k]
    ensures Split(Join(parts, c), c) == parts
    decreases |parts|
  {
    var s := Join(parts, c);
    if |parts| == 1 {
      assert IndexOf(s, c) < 0;
    } else {
      var p := parts[0];
      var rest := Join(parts[1..], c);
      assert s == p + [c] + rest;
      IndexOfAfterFree(p, rest, c);
      assert s[..|p|] == p;
      assert s[|p| + 1..] == rest;
      SplitJoin(parts[1..], c);
    }
  }

  lemma {:induction false} IndexOfAfterFree(p: string, rest: string, c: char)
    requires c !in p
    ensures IndexOf(p + [c] + rest, c) == |p|
    decreases |p|
  {
    if |p| > 0 {
      assert (p + [c] + rest)[1..] == p[1..] + [c] + rest;
      IndexOfAfterFree(p[1..], rest, c);
    }
  }

  /** The number of pieces is one more than the number of separators. */
  lemma {:induction false} SplitLength(s: string, c: char)
    ensures |Split(s, c)| == Count(s, c) + 1
    decreases |s|
  {
    var i := IndexOf(s, c);
    if i < 0 {
      CountAbsent(s, c);
    } else {
      SplitLength(s[i + 1..], c);
      assert s == s[..i] + ([c] + s[i + 1..]);
      CountAppend(s[..i], [c] + s[i + 1..], c);
      CountAbsent(s[..i], c);
      assert ([c] + s[i + 1..])[1..] == s[i + 1..];
    }
  }

  /** Position of the last occurrence of `c` in `s[..n]`, or -1. */
  function LastIndexOf(s: string, c: char, n: nat): (i: int)
    requires n <= |s|
    ensures -1 <= i < n
    ensures i >= 0 ==> s[i] == c
    ensures forall j :: i < j < n ==> s[j] != c
  {
    if n == 0 then -1
    else if s[n - 1] == c then n - 1
    else LastIndexOf(s, c, n - 1)
  }

  /** The part of `s` after its last `c`, or all of `s` when there is none:
      a `c`-free suffix that is either all of `s` or preceded by a `c`. */
  function LastPiece(s: string, c: char): (r: string)
    ensures c !in r
    ensures |r| <= |s| && s[|s| - |r|..] == r
    ensures |r| < |s| ==> s[|s| - |r| - 1] == c
  {
    var i := LastIndexOf(s, c, |s|);
    s[i + 1..]
  }

  /** There is only one `c`-free suffix of `s` that is all of `s` or preceded by a `c`. */
  lemma PieceAfterLastUnique(s: string, c: char, r1: string, r2: string)
    requires |r1| <= |s| && s[|s| - |r1|..] == r1 && c !in r1
    requires |r2| <= |s| && s[|s| - |r2|..] == r2 && c !in r2
    requires |r1| < |s| ==> s[|s| - |r1| - 1] == c
    requires |r2| < |s| ==> s[|s| - |r2| - 1] == c
    ensures r1 == r2
  {
  }

  /** Dropping everything up to a `c` does not change the last piece. */
  lemma LastPieceAfter(s: string, c: char, i: nat)
    requires i < |s| && s[i] == c
    ensures LastPiece(s, c) == LastPiece(s[i + 1..], c)
  {
    var t := s[i + 1..];
    var r := LastPiece(t, c);
    assert s[|s| - |r|..] == t[|t| - |r|..];
    assert |r| < |s|;
    assert s[|s| - |r| - 1] == c by {
      if |r| < |t| {
        assert s[|s| - |r| - 1] == t[|t| - |r| - 1];
      }
    }
    PieceAfterLastUnique(s, c, LastPiece(s, c), r);
  }

  /** `LastPiece` is the last element of `strings.Split(s, string(c))`. */
  lemma {:induction false} LastPieceIsLastOfSplit(s: string, c: char)
    ensures LastPiece(s, c) == Split(s, c)[|Split(s, c)| - 1]
    decreases |s|
  {
    var i := IndexOf(s, c);
    if i < 0 {
      PieceAfterLastUnique(s, c, LastPiece(s, c), s);
    } else {
      var t := s[i + 1..];
      var parts := Split(t, c);
      assert Split(s, c) == [s[..i]] + parts;
      assert Split(s, c)[|Split(s, c)| - 1] == parts[|parts| - 1];
      LastPieceIsLastOfSplit(t, c);
      LastPieceAfter(s, c, i);
    }
  }
}
