/**
 * Sequence search and splitting, shared by the byte-level framing and the
 * text-level request parsing, plus the text conventions the model adopts:
 * Foundation's `components(separatedBy:)`, UTF-8 decoding restricted to
 * one byte per character, and ASCII letter-case folding.
 */
module Text {
  import opened Base

  /** `pat` occurs in `s` starting at index `i`. */
  ghost predicate OccursAt<T>(s: seq<T>, pat: seq<T>, i: int) {
    0 <= i && i + |pat| <= |s| && s[i..i + |pat|] == pat
  }

  ghost predicate Contains<T>(s: seq<T>, pat: seq<T>) {
    exists i :: OccursAt(s, pat, i)
  }

  /** The first index at or after `from` where `pat` occurs, as `firstRange(of:)` finds it. */
  function IndexFrom<T(==)>(s: seq<T>, pat: seq<T>, from: nat): (r: Option<nat>)
    ensures r.Some? ==> from <= r.value && OccursAt(s, pat, r.value)
    ensures forall j :: from <= j && OccursAt(s, pat, j) ==> r.Some? && r.value <= j
    decreases |s| - from
  {
    if from + |pat| > |s| then None
    else if s[from..from + |pat|] == pat then Some(from)
    else IndexFrom(s, pat, from + 1)
  }

  function IndexOf<T(==)>(s: seq<T>, pat: seq<T>): (r: Option<nat>)
  {
    IndexFrom(s, pat, 0)
  }

  /** `IndexOf` finds an occurrence exactly when there is one. */
  lemma IndexOfContains<T>(s: seq<T>, pat: seq<T>)
    ensures IndexOf(s, pat).Some? <==> Contains(s, pat)
  {
    if Contains(s, pat) {
      var j :| OccursAt(s, pat, j);
    }
  }

  /** The first occurrence in `s` is still the first once more elements are appended. */
  lemma IndexOfExtend<T>(s: seq<T>, pat: seq<T>, more: seq<T>)
    requires IndexOf(s, pat).Some?
    ensures IndexOf(s + more, pat) == IndexOf(s, pat)
  {
    var i := IndexOf(s, pat).value;
    assert (s + more)[i..i + |pat|] == s[i..i + |pat|];
    assert OccursAt(s + more, pat, i);
    var k := IndexOf(s + more, pat).value;
    assert k <= i;
    assert (s + more)[k..k + |pat|] == s[k..k + |pat|];
    assert OccursAt(s, pat, k);
  }

  /** Exhaustive search: an occurrence is the first one when nothing occurs before it. */
  lemma IndexOfIsFirst<T>(s: seq<T>, pat: seq<T>, i: nat)
    requires OccursAt(s, pat, i)
    requires forall j :: 0 <= j < i ==> !OccursAt(s, pat, j)
    ensures IndexOf(s, pat) == Some(i)
  {
  }

  /**
   * `components(separatedBy:)`: the pieces between the leftmost non-overlapping
   * occurrences of `sep`. There is always at least one piece.
   */
  function Split<T(==)>(s: seq<T>, sep: seq<T>): (parts: seq<seq<T>>)
    requires |sep| > 0
    ensures |parts| >= 1
    decreases |s|
  {
    match IndexOf(s, sep)
    case None => [s]
    case Some(i) => [s[..i]] + Split(s[i + |sep|..], sep)
  }

  /** The pieces laid end to end with `sep` between them. */
  function Join<T>(parts: seq<seq<T>>, sep: seq<T>): seq<T>
    requires |parts| >= 1
    decreases |parts|
  {
    if |parts| == 1 then parts[0] else parts[0] + sep + Join(parts[1..], sep)
  }

  /** Three pieces joined: the first, the separator, the second, the separator, the third. */
  lemma JoinThree<T>(parts: seq<seq<T>>, sep: seq<T>)
    requires |parts| == 3
    ensures Join(parts, sep) == parts[0] + sep + parts[1] + sep + parts[2]
  {
    var tail := parts[1..];
    assert tail[1..] == [parts[2]];
    assert Join(tail, sep) == parts[1] + sep + parts[2];
  }

  /** Splitting loses nothing: joining the pieces back gives the original. */
  lemma {:induction false} SplitJoin<T>(s: seq<T>, sep: seq<T>)
    requires |sep| > 0
    ensures Join(Split(s, sep), sep) == s
    decreases |s|
  {
    match IndexOf(s, sep)
    case None =>
    case Some(i) =>
      var rest := s[i + |sep|..];
      var parts := Split(s, sep);
      assert parts == [s[..i]] + Split(rest, sep);
      assert parts[0] == s[..i] && parts[1..] == Split(rest, sep);
      SplitJoin(rest, sep);
      calc {
        Join(parts, sep);
        parts[0] + sep + Join(parts[1..], sep);
        s[..i] + sep + rest;
        { assert s[i..i + |sep|] == sep; }
        s;
      }
  }

  /** No piece contains the separator. */
  lemma {:induction false} SplitPiecesFree<T>(s: seq<T>, sep: seq<T>, k: nat)
    requires |sep| > 0 && k < |Split(s, sep)|
    ensures !Contains(Split(s, sep)[k], sep)
    decreases |s|
  {
    match IndexOf(s, sep)
    case None =>
      IndexOfContains(s, sep);
    case Some(i) =>
      var rest := s[i + |sep|..];
      assert Split(s, sep) == [s[..i]] + Split(rest, sep);
      if k == 0 {
        if Contains(s[..i], sep) {
          var j :| OccursAt(s[..i], sep, j);
          assert s[..i][j..j + |sep|] == s[j..j + |sep|];
          assert OccursAt(s, sep, j);
        }
      } else {
        assert Split(s, sep)[k] == Split(rest, sep)[k - 1];
        SplitPiecesFree(rest, sep, k - 1);
      }
  }

  /** There is exactly one piece exactly when the separator does not occur. */
  lemma SplitSingle<T>(s: seq<T>, sep: seq<T>)
    requires |sep| > 0
    ensures |Split(s, sep)| == 1 <==> !Contains(s, sep)
    ensures !Contains(s, sep) ==> Split(s, sep) == [s]
  {
    IndexOfContains(s, sep);
  }

  /** When the first separator follows `a`, the first piece is `a` and the rest splits on. */
  lemma SplitAtFirst<T>(a: seq<T>, sep: seq<T>, b: seq<T>)
    requires |sep| > 0
    requires IndexOf(a + sep + b, sep) == Some(|a|)
    ensures Split(a + sep + b, sep) == [a] + Split(b, sep)
  {
    var s := a + sep + b;
    assert s[..|a|] == a;
    assert s[|a| + |sep|..] == b;
  }

  /** The number of elements of `s` equal to `c`. */
  function Count<T(==)>(s: seq<T>, c: T): nat
    decreases |s|
  {
    if s == [] then 0 else (if s[0] == c then 1 else 0) + Count(s[1..], c)
  }

  lemma {:induction false} CountAppend<T>(a: seq<T>, b: seq<T>, c: T)
    ensures Count(a + b, c) == Count(a, c) + Count(b, c)
    decreases |a|
  {
    if a == [] {
      assert a + b == b;
    } else {
      assert (a + b)[1..] == a[1..] + b;
      CountAppend(a[1..], b, c);
    }
  }

  lemma {:induction false} CountZero<T>(s: seq<T>, c: T)
    ensures Count(s, c) == 0 <==> c !in s
    decreases |s|
  {
    if s != [] {
      CountZero(s[1..], c);
      assert s == [s[0]] + s[1..];
    }
  }

  lemma ContainsSingle<T>(s: seq<T>, c: T)
    ensures Contains(s, [c]) <==> c in s
  {
    if c in s {
      var i :| 0 <= i < |s| && s[i] == c;
      assert s[i..i + 1] == [c];
      assert OccursAt(s, [c], i);
    }
    if Contains(s, [c]) {
      var i :| OccursAt(s, [c], i);
      assert s[i] == s[i..i + 1][0];
    }
  }

  /** Splitting on one element gives one piece more than there are occurrences of it. */
  lemma {:induction false} SplitOnElementCount<T>(s: seq<T>, c: T)
    ensures |Split(s, [c])| == Count(s, c) + 1
    decreases |s|
  {
    IndexOfContains(s, [c]);
    ContainsSingle(s, c);
    match IndexOf(s, [c])
    case None =>
      CountZero(s, c);
    case Some(i) =>
      var rest := s[i + 1..];
      SplitOnElementCount(rest, c);
      SplitPiecesFree(s, [c], 0);
      ContainsSingle(s[..i], c);
      CountZero(s[..i], c);
      assert s[i..i + 1] == [c];
      assert s == s[..i] + [c] + rest;
      CountAppend(s[..i] + [c], rest, c);
      CountAppend(s[..i], [c], c);
      assert Split(s, [c])[1..] == Split(rest, [c]);
  }

  // ---------------------------------------------------------------------------
  // Text encoding and letter case

  /**
   * `String(decoding:as: UTF8.self)` restricted to text in which every byte is one
   * character (ASCII): byte `b` becomes the character with code `b`.
   */
  function Decode(data: seq<byte>): (text: string)
    ensures |text| == |data| && IsOctetText(text) && Encode(text) == data
  {
    seq(|data|, i requires 0 <= i < |data| => data[i] as char)
  }

  predicate IsOctetText(s: string) {
    forall i :: 0 <= i < |s| ==> s[i] as int < 0x100
  }

  /** The bytes of a text whose characters all fit in one byte. */
  function Encode(s: string): (data: seq<byte>)
    requires IsOctetText(s)
  {
    seq(|s|, i requires 0 <= i < |s| => s[i] as int)
  }

  lemma DecodeEncode(s: string)
    requires IsOctetText(s)
    ensures Decode(Encode(s)) == s
  {
  }

  /** Decoding commutes with concatenation. */
  lemma DecodeAppend(a: seq<byte>, b: seq<byte>)
    ensures Decode(a + b) == Decode(a) + Decode(b)
  {
  }

  predicate IsUpper(c: char) { 'A' <= c <= 'Z' }

  /** ASCII `lowercased()` of one character. */
  function LowerChar(c: char): char {
    if IsUpper(c) then (c as int + 32) as char else c
  }

  /**
   * ASCII `lowercased()`: a text of the same length without upper-case letters,
   * equal to `s` ignoring case, and `s` itself when `s` has none.
   */
  function Lowercased(s: string): (lower: string)
    ensures |lower| == |s| && IsLowercase(lower) && EqualIgnoringCase(lower, s)
    ensures IsLowercase(s) ==> lower == s
  {
    seq(|s|, i requires 0 <= i < |s| => LowerChar(s[i]))
  }

  predicate IsLowercase(s: string) {
    forall i :: 0 <= i < |s| ==> !IsUpper(s[i])
  }

  /** Two texts that differ at most in the case of their letters. */
  predicate EqualIgnoringCase(a: string, b: string) {
    |a| == |b| && forall i :: 0 <= i < |a| ==> LowerChar(a[i]) == LowerChar(b[i])
  }

  /** Lowercasing twice is lowercasing once. */
  lemma LowercasedIdempotent(s: string)
    ensures Lowercased(Lowercased(s)) == Lowercased(s)
  {
  }

  /** Two texts lowercase to the same text exactly when they differ only in letter case. */
  lemma LowercasedEqual(a: string, b: string)
    ensures Lowercased(a) == Lowercased(b) <==> EqualIgnoringCase(a, b)
  {
    if Lowercased(a) == Lowercased(b) {
      forall i | 0 <= i < |a| ensures LowerChar(a[i]) == LowerChar(b[i]) {
        assert Lowercased(a)[i] == Lowercased(b)[i];
      }
    }
  }
}
