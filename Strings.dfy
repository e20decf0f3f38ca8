/** The JavaScript string built-ins the comparison code relies on:
    `split` with a string separator (with `IndexOfFrom`, the search for
    the separator that `split` performs), `join`, `startsWith`,
    `toLowerCase` (on ASCII letters) and the decimal rendering of a
    non-negative integer. Strings are sequences of `char`. */
module Strings {
  import opened Wrappers

  /** `sep` occurs in `s` starting at position `p`. */
  predicate OccursAt(s: string, sep: string, p: nat)
  {
    p + |sep| <= |s| && s[p..p + |sep|] == sep
  }

  /** `s` has no occurrence of `sep` at any position. */
  ghost predicate Avoids(s: string, sep: string)
  {
    forall q: nat :: !OccursAt(s, sep, q)
  }

  predicate StartsWith(s: string, prefix: string)
  {
    OccursAt(s, prefix, 0)
  }

  /** `s.indexOf(sep, from)`: the leftmost occurrence at or after `from`. */
  function IndexOfFrom(s: string, sep: string, from: nat): (r: Option<nat>)
    decreases |s| - from
    ensures r.Some? ==> from <= r.value && OccursAt(s, sep, r.value)
    ensures r.Some? ==> forall q: nat :: from <= q < r.value ==> !OccursAt(s, sep, q)
    ensures r.None? ==> forall q: nat :: from <= q ==> !OccursAt(s, sep, q)
  {
    if from + |sep| > |s| then None
    else if s[from..from + |sep|] == sep then Some(from)
    else IndexOfFrom(s, sep, from + 1)
  }

  /** The leftmost occurrence is the one the search returns. */
  lemma IndexOfLeftmost(s: string, sep: string, p: nat)
    requires OccursAt(s, sep, p)
    requires forall q: nat :: q < p ==> !OccursAt(s, sep, q)
    ensures IndexOfFrom(s, sep, 0) == Some(p)
  {
  }

  /** `s.split(sep)` for a non-empty separator: the pieces between the
      occurrences of `sep` found scanning left to right. */
  function Split(s: string, sep: string): (parts: seq<string>)
    requires |sep| > 0
    decreases |s|
    ensures |parts| >= 1
  {
    match IndexOfFrom(s, sep, 0)
    case None => [s]
    case Some(p) => [s[..p]] + Split(s[p + |sep|..], sep)
  }

  /** `parts.join(sep)`. */
  function Join(parts: seq<string>, sep: string): string
  {
    if |parts| == 0 then ""
    else if |parts| == 1 then parts[0]
    else parts[0] + sep + Join(parts[1..], sep)
  }

  /** Joining the pieces of a split with the same separator gives back the text. */
  lemma {:induction false} JoinSplit(s: string, sep: string)
    requires |sep| > 0
    ensures Join(Split(s, sep), sep) == s
    decreases |s|
  {
    match IndexOfFrom(s, sep, 0)
    case None =>
    case Some(p) =>
      var rest := s[p + |sep|..];
      var tail := Split(rest, sep);
      JoinSplit(rest, sep);
      assert Split(s, sep) == [s[..p]] + tail;
      assert ([s[..p]] + tail)[1..] == tail;
      calc {
        Join(Split(s, sep), sep);
        s[..p] + sep + Join(tail, sep);
        s[..p] + s[p..p + |sep|] + rest;
        s;
      }
  }

  /** No piece of a split contains the separator. */
  lemma {:induction false} SplitPiecesAvoid(s: string, sep: string)
    requires |sep| > 0
    ensures forall i :: 0 <= i < |Split(s, sep)| ==> Avoids(Split(s, sep)[i], sep)
    decreases |s|
  {
    match IndexOfFrom(s, sep, 0)
    case None =>
      assert Split(s, sep) == [s];
    case Some(p) =>
      var rest := s[p + |sep|..];
      SplitPiecesAvoid(rest, sep);
      var head := s[..p];
      forall q: nat ensures !OccursAt(head, sep, q) {
        if OccursAt(head, sep, q) {
          assert s[q..q + |sep|] == head[q..q + |sep|];
          assert OccursAt(s, sep, q);
          assert false;
        }
      }
      assert Split(s, sep) == [head] + Split(rest, sep);
  }

  /** Splitting on a one-character separator yields one more piece than the
      number of times the character occurs. */
  lemma {:induction false} SplitCount(s: string, c: char)
    ensures |Split(s, [c])| == multiset(s)[c] + 1
    decreases |s|
  {
    match IndexOfFrom(s, [c], 0)
    case None =>
      forall i | 0 <= i < |s| ensures s[i] != c {
        assert !OccursAt(s, [c], i);
        assert s[i..i + 1] == [s[i]];
      }
      assert c !in s;
    case Some(p) =>
      var rest := s[p + 1..];
      SplitCount(rest, c);
      forall i | 0 <= i < p ensures s[i] != c {
        assert !OccursAt(s, [c], i);
        assert s[i..i + 1] == [s[i]];
      }
      assert c !in s[..p];
      assert s[p..p + 1] == [c];
      assert s == s[..p] + [c] + rest;
      assert multiset(s) == multiset(s[..p]) + multiset([c]) + multiset(rest);
  }

  /** Splitting the join of pieces that do not contain a one-character
      separator gives back the pieces. */
  lemma {:induction false} SplitJoin(parts: seq<string>, c: char)
    requires |parts| >= 1
    requires forall i :: 0 <= i < |parts| ==> c !in parts[i]
    ensures Split(Join(parts, [c]), [c]) == parts
    decreases |parts|
  {
    var s := Join(parts, [c]);
    if |parts| == 1 {
      forall q: nat | q < |s| ensures !OccursAt(s, [c], q) {
        assert s[q..q + 1] == [s[q]];
      }
      assert IndexOfFrom(s, [c], 0).None?;
    } else {
      var head := parts[0];
      var rest := Join(parts[1..], [c]);
      assert s == head + [c] + rest;
      assert s[|head|..|head| + 1] == [c];
      forall q: nat | q < |head| ensures !OccursAt(s, [c], q) {
        assert s[q..q + 1] == [head[q]];
      }
      IndexOfLeftmost(s, [c], |head|);
      assert s[..|head|] == head;
      assert s[|head| + 1..] == rest;
      SplitJoin(parts[1..], c);
      assert Split(s, [c]) == [head] + parts[1..];
    }
  }

  /** The last piece of a split. */
  function LastPiece(s: string, sep: string): string
    requires |sep| > 0
  {
    var parts := Split(s, sep);
    parts[|parts| - 1]
  }

  /** An occurrence in a suffix is an occurrence in the whole text. */
  lemma OccursInSuffix(s: string, j: nat, sep: string, k: nat)
    requires j <= |s| && OccursAt(s[j..], sep, k)
    ensures OccursAt(s, sep, j + k)
  {
    assert s[j + k..j + k + |sep|] == s[j..][k..k + |sep|];
  }

  /** A suffix of a suffix is a suffix. */
  lemma SuffixOfSuffix(s: string, j: nat, m: nat)
    requires j <= |s| && m <= |s| - j
    ensures s[|s| - m..] == s[j..][|s| - j - m..]
  {
  }

  /** The last piece of a split is a suffix of the text. */
  lemma {:induction false} LastPieceIsSuffix(s: string, sep: string)
    requires |sep| > 0
    ensures |LastPiece(s, sep)| <= |s| && s[|s| - |LastPiece(s, sep)|..] == LastPiece(s, sep)
    decreases |s|
  {
    var r := IndexOfFrom(s, sep, 0);
    if r.Some? {
      var j := r.value + |sep|;
      LastPieceIsSuffix(s[j..], sep);
      LastPieceOfRest(s, sep, r.value);
      SuffixOfSuffix(s, j, |LastPiece(s, sep)|);
    } else {
      assert Split(s, sep) == [s];
    }
  }

  /** When the separator does not occur, the last piece is the whole text. */
  lemma LastPieceWhole(s: string, sep: string)
    requires |sep| > 0
    requires IndexOfFrom(s, sep, 0).None?
    ensures LastPiece(s, sep) == s
  {
    assert Split(s, sep) == [s];
  }

  /** When the separator occurs, the last piece is preceded by it. */
  lemma {:induction false} LastPiecePreceded(s: string, sep: string)
    requires |sep| > 0
    requires IndexOfFrom(s, sep, 0).Some?
    ensures |LastPiece(s, sep)| + |sep| <= |s| && OccursAt(s, sep, |s| - |LastPiece(s, sep)| - |sep|)
    decreases |s|
  {
    var p := IndexOfFrom(s, sep, 0).value;
    var j := p + |sep|;
    var rest := s[j..];
    LastPieceOfRest(s, sep, p);
    var last := LastPiece(rest, sep);
    assert LastPiece(s, sep) == last;
    if IndexOfFrom(rest, sep, 0).Some? {
      LastPiecePreceded(rest, sep);
      OccursInSuffix(s, j, sep, |rest| - |last| - |sep|);
    } else {
      LastPieceWhole(rest, sep);
      assert |s| - |last| - |sep| == p;
    }
  }

  /** The last piece, like every piece, avoids the separator. */
  lemma LastPieceAvoids(s: string, sep: string)
    requires |sep| > 0
    ensures Avoids(LastPiece(s, sep), sep)
  {
    SplitPiecesAvoid(s, sep);
  }

  lemma LastPieceOfRest(s: string, sep: string, p: nat)
    requires |sep| > 0
    requires IndexOfFrom(s, sep, 0) == Some(p)
    ensures LastPiece(s, sep) == LastPiece(s[p + |sep|..], sep)
  {
    var tail := Split(s[p + |sep|..], sep);
    assert Split(s, sep) == [s[..p]] + tail;
  }

  /** `c.toLowerCase()` for ASCII letters; every other character is kept. */
  function LowerChar(c: char): char
  {
    if 'A' <= c <= 'Z' then (c as int + 32) as char else c
  }

  function ToLower(s: string): (r: string)
    ensures |r| == |s|
  {
    seq(|s|, i requires 0 <= i < |s| => LowerChar(s[i]))
  }

  predicate IsDigit(c: char)
  {
    '0' <= c <= '9'
  }

  function DigitChar(d: nat): (c: char)
    requires d < 10
    ensures IsDigit(c)
  {
    ('0' as int + d) as char
  }

  /** The decimal rendering JavaScript gives a non-negative integer when it
      is concatenated to a string. */
  function NatToString(n: nat): (s: string)
    ensures |s| >= 1
    ensures forall i :: 0 <= i < |s| ==> IsDigit(s[i])
    decreases n
  {
    if n < 10 then [DigitChar(n)] else NatToString(n / 10) + [DigitChar(n % 10)]
  }
}
