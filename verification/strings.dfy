/**
 * The Kotlin standard-library text helpers the core relies on: `takeWhile`,
 * `split` on a literal separator and `joinToString`.
 */
module Strings {

  /** Kotlin's `takeWhile` with a delimiter test: the longest prefix of `s` free of delimiters. */
  function TakeUntil(s: string, delimiters: set<char>): (r: string)
    ensures |r| <= |s| && r == s[..|r|]
    ensures forall i :: 0 <= i < |r| ==> r[i] !in delimiters
    ensures |r| < |s| ==> s[|r|] in delimiters
  {
    if |s| == 0 || s[0] in delimiters then "" else [s[0]] + TakeUntil(s[1..], delimiters)
  }

  /** A delimiter-free prefix followed by nothing or by a delimiter is exactly what TakeUntil returns. */
  lemma TakeUntilPrefix(a: string, rest: string, delimiters: set<char>)
    requires forall i :: 0 <= i < |a| ==> a[i] !in delimiters
    requires rest == [] || rest[0] in delimiters
    ensures TakeUntil(a + rest, delimiters) == a
  {
    var s := a + rest;
    assert forall i :: 0 <= i < |a| ==> s[i] == a[i];
    assert rest != [] ==> s[|a|] == rest[0];
  }

  lemma ConcatAssoc(a: string, b: string, c: string)
    ensures (a + b) + c == a + (b + c)
  {
  }

  /** Reading past the first part of a slice leaves the second part. */
  lemma SliceConcat(s: string, k: nat, a: string, b: string)
    requires k <= |s| && s[k..] == a + b
    ensures k + |a| <= |s| && s[k + |a|..] == b
  {
    assert s[k..][|a|..] == b;
  }

  /** A non-empty slice is its first character followed by the rest. */
  lemma SliceCons(s: string, k: nat)
    requires k < |s|
    ensures s[k..] == [s[k]] + s[k + 1..]
  {
  }

  /** `joinToString(separator)`: the pieces with one separator between neighbours. */
  function Join(pieces: seq<string>, sep: char): string
  {
    if |pieces| == 0 then ""
    else if |pieces| == 1 then pieces[0]
    else pieces[0] + [sep] + Join(pieces[1..], sep)
  }

  /** Appending a piece to a non-empty list appends the separator and the piece. */
  lemma {:induction false} JoinSnoc(pieces: seq<string>, last: string, sep: char)
    requires |pieces| >= 1
    ensures Join(pieces + [last], sep) == Join(pieces, sep) + [sep] + last
  {
    if |pieces| == 1 {
      assert pieces + [last] == [pieces[0], last];
      assert [last][1..] == [];
    } else {
      assert (pieces + [last])[1..] == pieces[1..] + [last];
      JoinSnoc(pieces[1..], last, sep);
    }
  }

  /** A joined text holds only the separator and characters of the pieces. */
  lemma {:induction false} JoinAvoids(pieces: seq<string>, sep: char, bad: set<char>)
    requires sep !in bad
    requires forall i, j :: 0 <= i < |pieces| && 0 <= j < |pieces[i]| ==> pieces[i][j] !in bad
    ensures forall k :: 0 <= k < |Join(pieces, sep)| ==> Join(pieces, sep)[k] !in bad
  {
    if |pieces| > 1 {
      JoinAvoids(pieces[1..], sep, bad);
      var tail := Join(pieces[1..], sep);
      forall k | 0 <= k < |Join(pieces, sep)|
        ensures Join(pieces, sep)[k] !in bad
      {
        if k < |pieces[0]| {
          assert Join(pieces, sep)[k] == pieces[0][k];
        } else if k > |pieces[0]| {
          assert Join(pieces, sep)[k] == tail[k - |pieces[0]| - 1];
        }
      }
    }
  }

  /**
   * `s.split(sep)` as Kotlin's Regex.split does it for a one-character pattern:
   * every occurrence of `sep` cuts, and empty pieces (leading, doubled, trailing) are kept.
   */
  function Split(s: string, sep: char): (r: seq<string>)
    ensures |r| >= 1
    ensures forall i :: 0 <= i < |r| ==> sep !in r[i]
    ensures Join(r, sep) == s
    decreases |s|
  {
    var head := TakeUntil(s, {sep});
    if |head| == |s| then [s]
    else
      var tail := Split(s[|head| + 1..], sep);
      assert s == head + [sep] + s[|head| + 1..];
      [head] + tail
  }

  /** Splitting a join of separator-free pieces gives the pieces back. */
  lemma {:induction false} SplitJoin(pieces: seq<string>, sep: char)
    requires |pieces| >= 1
    requires forall i :: 0 <= i < |pieces| ==> sep !in pieces[i]
    ensures Split(Join(pieces, sep), sep) == pieces
    decreases |pieces|
  {
    var s := Join(pieces, sep);
    if |pieces| == 1 {
      TakeUntilPrefix(pieces[0], [], {sep});
      assert pieces[0] + [] == pieces[0];
    } else {
      var rest := [sep] + Join(pieces[1..], sep);
      assert s == pieces[0] + rest;
      TakeUntilPrefix(pieces[0], rest, {sep});
      assert s[|pieces[0]| + 1..] == Join(pieces[1..], sep);
      SplitJoin(pieces[1..], sep);
    }
  }
}
