/**
  Middle elision of long log text (`truncate_string` of the runtime's tracing
  module). The size limit is in UTF-8 bytes, while the cut is made on whole
  characters: the first `m - 1` characters and the last `m` characters are kept
  around a marker, where `h` is half the limit and `m` the smaller of `h` and
  the character count.

  A string is a sequence of Unicode scalar values; its byte length is the sum
  of the UTF-8 widths of its characters. Byte offsets that are not the start
  of a character cannot be sliced at (Rust panics there), so the slicing helper
  demands a character boundary and every caller has to prove one.
 */
module Truncation {
  import opened Wrappers
  import opened Strings

  /** The elision marker. Its terminal colouring is not modelled. */
  const LogTrimmed: string := "...[log trimmed]..."

  /** Number of bytes UTF-8 uses for `c`. */
  function Utf8Width(c: char): nat
  {
    if c as int < 0x80 then 1
    else if c as int < 0x800 then 2
    else if c as int < 0x1_0000 then 3
    else 4
  }

  /** Byte length of the UTF-8 encoding of `s` (Rust's `str::len`). */
  function ByteLen(s: string): nat
  {
    if |s| == 0 then 0 else ByteLen(s[..|s| - 1]) + Utf8Width(s[|s| - 1])
  }

  lemma ByteLenStep(s: string, k: nat)
    requires k < |s|
    ensures ByteLen(s[..k + 1]) == ByteLen(s[..k]) + Utf8Width(s[k])
  {
    assert s[..k + 1][..k] == s[..k];
  }

  /** Byte offsets of character starts grow strictly with the character index. */
  lemma {:induction false} ByteLenPrefixStrict(s: string, i: nat, j: nat)
    requires i < j <= |s|
    ensures ByteLen(s[..i]) < ByteLen(s[..j])
    decreases j - i
  {
    ByteLenStep(s, j - 1);
    if i < j - 1 {
      ByteLenPrefixStrict(s, i, j - 1);
    }
  }

  lemma ByteLenPrefixInjective(s: string, i: nat, j: nat)
    requires i <= |s| && j <= |s|
    requires ByteLen(s[..i]) == ByteLen(s[..j])
    ensures i == j
  {
    if i < j {
      ByteLenPrefixStrict(s, i, j);
    } else if j < i {
      ByteLenPrefixStrict(s, j, i);
    }
  }

  /** The byte offset of every character (the first half of `char_indices`). */
  function CharIndices(s: string): (r: seq<nat>)
    ensures |r| == |s|
    ensures forall i :: 0 <= i < |s| ==> r[i] == ByteLen(s[..i])
  {
    seq(|s|, i requires 0 <= i < |s| => ByteLen(s[..i]))
  }

  /** The first `n` elements, or all of them when there are fewer (`Iterator::take`). */
  function Take<T>(xs: seq<T>, n: nat): (r: seq<T>)
    ensures |r| == Min(n, |xs|)
    ensures forall i :: 0 <= i < |r| ==> r[i] == xs[i]
  {
    xs[..Min(n, |xs|)]
  }

  function Min(a: nat, b: nat): nat
  {
    if a <= b then a else b
  }

  /** The last element, if any (`Iterator::last`). */
  function Last<T>(xs: seq<T>): (r: Option<T>)
    ensures r.Some? <==> |xs| > 0
    ensures r.Some? ==> r.value == xs[|xs| - 1]
  {
    if |xs| == 0 then None else Some(xs[|xs| - 1])
  }

  /** The elements back to front (`Iterator::rev`). */
  function Reverse<T>(xs: seq<T>): (r: seq<T>)
    ensures |r| == |xs|
    ensures forall i :: 0 <= i < |xs| ==> r[i] == xs[|xs| - 1 - i]
  {
    if |xs| == 0 then [] else [xs[|xs| - 1]] + Reverse(xs[..|xs| - 1])
  }

  /** `b` is the byte offset of a character start or of the end of `s`. */
  predicate IsCharBoundary(s: string, b: nat)
  {
    exists k :: 0 <= k <= |s| && ByteLen(s[..k]) == b
  }

  /** The number of characters before byte offset `b`; defined only on a boundary. */
  function CharsBefore(s: string, b: nat): (k: nat)
    requires IsCharBoundary(s, b)
    ensures k <= |s| && ByteLen(s[..k]) == b
    decreases |s|
  {
    assert s[..|s|] == s;
    if b == ByteLen(s) then |s|
    else
      var j :| 0 <= j <= |s| && ByteLen(s[..j]) == b;
      assert j < |s|;
      assert s[..|s| - 1][..j] == s[..j];
      var k := CharsBefore(s[..|s| - 1], b);
      assert s[..|s| - 1][..k] == s[..k];
      k
  }

  /** `&s[..b]`: the text before a character boundary. */
  function SliceTo(s: string, b: nat): (r: string)
    requires IsCharBoundary(s, b)
    ensures |r| <= |s| && r == s[..|r|] && ByteLen(r) == b
  {
    s[..CharsBefore(s, b)]
  }

  /** `&s[b..]`: the text from a character boundary on. */
  function SliceFrom(s: string, b: nat): (r: string)
    requires IsCharBoundary(s, b)
    ensures exists k :: 0 <= k <= |s| && ByteLen(s[..k]) == b && r == s[k..]
  {
    s[CharsBefore(s, b)..]
  }

  /** Zero, the end, and every character start are boundaries. */
  lemma OffsetsAreBoundaries(s: string)
    ensures IsCharBoundary(s, 0) && IsCharBoundary(s, ByteLen(s))
    ensures forall i :: 0 <= i < |s| ==> IsCharBoundary(s, ByteLen(s[..i]))
  {
    assert ByteLen(s[..0]) == 0;
    assert s[..|s|] == s;
  }

  /** The two byte offsets at which the text is cut, with `h` half the limit
      and `m` the smaller of `h` and the character count: the start of the
      `m`-th character from the front and of the `m`-th from the back; both
      are character boundaries. */
  function CutPoints(s: string, maxSize: nat): (r: (nat, nat))
    requires maxSize > 0 && ByteLen(s) > maxSize
    ensures IsCharBoundary(s, r.0) && IsCharBoundary(s, r.1)
    ensures var h := maxSize / 2; var m := Min(h, |s|);
      && (h == 0 ==> r == (0, ByteLen(s)))
      && (h > 0 ==> r == (ByteLen(s[..m - 1]), ByteLen(s[..|s| - m])))
  {
    var half := maxSize / 2;
    var idx := CharIndices(s);
    var start := Last(Take(idx, half)).GetOr(0);
    var end := Last(Take(Reverse(idx), half)).GetOr(ByteLen(s));
    OffsetsAreBoundaries(s);
    assert half > 0 ==> |s| > 0 && start == idx[Min(half, |s|) - 1];
    assert half > 0 ==> end == Reverse(idx)[Min(half, |s|) - 1] == idx[|s| - Min(half, |s|)];
    (start, end)
  }

  /** Elides the middle of `s` when it is longer than `maxSize` bytes; a limit
      of 0 disables trimming. */
  function TruncateString(s: string, maxSize: nat): (r: string)
    ensures maxSize == 0 || ByteLen(s) <= maxSize ==> r == s
    ensures maxSize > 0 && ByteLen(s) > maxSize && maxSize / 2 == 0 ==> r == LogTrimmed
    ensures maxSize > 0 && ByteLen(s) > maxSize && maxSize / 2 > 0 ==>
      var m := Min(maxSize / 2, |s|);
      r == s[..m - 1] + LogTrimmed + s[|s| - m..]
  {
    if maxSize > 0 && ByteLen(s) > maxSize then
      var cuts := CutPoints(s, maxSize);
      SlicesAtCuts(s, maxSize);
      SliceTo(s, cuts.0) + LogTrimmed + SliceFrom(s, cuts.1)
    else
      s
  }

  /** Slicing at the offset of the `i`-th character splits after `i` characters. */
  lemma SliceAtCharOffset(s: string, i: nat)
    requires i <= |s|
    ensures IsCharBoundary(s, ByteLen(s[..i]))
    ensures SliceTo(s, ByteLen(s[..i])) == s[..i]
    ensures SliceFrom(s, ByteLen(s[..i])) == s[i..]
  {
    var b := ByteLen(s[..i]);
    var a := SliceTo(s, b);
    ByteLenPrefixInjective(s, |a|, i);
    var k :| 0 <= k <= |s| && ByteLen(s[..k]) == b && SliceFrom(s, b) == s[k..];
    ByteLenPrefixInjective(s, k, i);
  }

  /** The slices taken at the cut points in character terms. */
  lemma SlicesAtCuts(s: string, maxSize: nat)
    requires maxSize > 0 && ByteLen(s) > maxSize
    ensures var cuts := CutPoints(s, maxSize); var h := maxSize / 2; var m := Min(h, |s|);
      && (h == 0 ==> SliceTo(s, cuts.0) == [] && SliceFrom(s, cuts.1) == [])
      && (h > 0 ==> SliceTo(s, cuts.0) == s[..m - 1] && SliceFrom(s, cuts.1) == s[|s| - m..])
  {
    var h := maxSize / 2;
    if h == 0 {
      assert s[..|s|] == s;
      SliceAtCharOffset(s, 0);
      SliceAtCharOffset(s, |s|);
    } else {
      var m := Min(h, |s|);
      SliceAtCharOffset(s, m - 1);
      SliceAtCharOffset(s, |s| - m);
    }
  }

  lemma {:induction false} ByteLenUniform(s: string, w: nat)
    requires forall i :: 0 <= i < |s| ==> Utf8Width(s[i]) == w
    ensures ByteLen(s) == w * |s|
  {
    if |s| > 0 {
      ByteLenUniform(s[..|s| - 1], w);
    }
  }

  const ThumbsUp: char := '\U{1F44D}'

  /** The behaviour the implementation's unit tests pin down. */
  lemma TruncateStringAsciiTests()
    ensures TruncateString("1234567890", 10) == "1234567890"
    ensures TruncateString("12345678901", 0) == "12345678901"
  {
    ByteLenUniform("1234567890", 1);
  }

  lemma TruncateStringElisionTest()
    ensures TruncateString("12345678901", 10) == "1234" + LogTrimmed + "78901"
  {
    var s := "12345678901";
    ByteLenUniform(s, 1);
    assert 10 / 2 == 5 && Min(5, |s|) == 5;
    assert s[..4] == "1234";
    assert s[6..] == "78901";
  }

  lemma TruncateStringUnicodeTest()
    ensures TruncateString([ThumbsUp, ThumbsUp, ThumbsUp, ThumbsUp, ThumbsUp, ThumbsUp, ThumbsUp], 4)
         == [ThumbsUp] + LogTrimmed + [ThumbsUp, ThumbsUp]
  {
    var s := [ThumbsUp, ThumbsUp, ThumbsUp, ThumbsUp, ThumbsUp, ThumbsUp, ThumbsUp];
    ByteLenUniform(s, 4);
    assert 4 / 2 == 2 && Min(2, |s|) == 2;
    assert s[..1] == [ThumbsUp] && s[5..] == [ThumbsUp, ThumbsUp];
  }

  // ---------------------------------------------------------------------
  // Overlapping head and tail
  // ---------------------------------------------------------------------

  /** With fewer than `2h - 1` characters the kept head and tail overlap, so
      the result holds more of the text than the text itself. */
  lemma TruncateStringOverlaps(s: string, maxSize: nat)
    requires maxSize > 0 && ByteLen(s) > maxSize && maxSize / 2 > 0
    requires |s| + 1 < 2 * (maxSize / 2)
    ensures |TruncateString(s, maxSize)| > |s| + |LogTrimmed|
  {
    var m := Min(maxSize / 2, |s|);
    assert |TruncateString(s, maxSize)| == (m - 1) + |LogTrimmed| + m;
    if m < maxSize / 2 {
      ByteLenBound(s);
    }
  }

  /** No character takes more than four bytes. */
  lemma {:induction false} ByteLenBound(s: string)
    ensures ByteLen(s) <= 4 * |s|
  {
    if |s| > 0 {
      ByteLenBound(s[..|s| - 1]);
    }
  }

  /** Three four-byte characters under a ten-byte limit: the first two are kept
      in front of the marker and all three again after it. */
  lemma TruncateStringRepeatsText()
    ensures TruncateString([ThumbsUp, ThumbsUp, ThumbsUp], 10)
         == [ThumbsUp, ThumbsUp] + LogTrimmed + [ThumbsUp, ThumbsUp, ThumbsUp]
  {
    var s := [ThumbsUp, ThumbsUp, ThumbsUp];
    ByteLenUniform(s, 4);
    assert 10 / 2 == 5 && Min(5, |s|) == 3;
    assert s[..2] == [ThumbsUp, ThumbsUp] && s[0..] == s;
  }

  /** The character positions the corrected elision cuts at: the head of
      `TruncateString`, and its tail clipped so that it starts no earlier than
      where the head ends. */
  function DisjointCuts(s: string, maxSize: nat): (r: (nat, nat))
    requires maxSize > 0 && ByteLen(s) > maxSize
    ensures r.0 <= r.1 <= |s|
    ensures var h := maxSize / 2; var m := Min(h, |s|);
      |s| + 1 >= 2 * h ==>
        && (h == 0 ==> r == (0, |s|))
        && (h > 0 ==> r == (m - 1, |s| - m))
  {
    var h := maxSize / 2;
    var m := Min(h, |s|);
    if h == 0 then (0, |s|)
    else
      assert |s| > 0;
      var head := m - 1;
      (head, if |s| - m < head then head else |s| - m)
  }

  /** Middle elision whose head and tail never overlap. */
  function TruncateStringDisjoint(s: string, maxSize: nat): (r: string)
    ensures maxSize == 0 || ByteLen(s) <= maxSize ==> r == s
    ensures maxSize > 0 && ByteLen(s) > maxSize ==> |r| <= |s| + |LogTrimmed|
    ensures maxSize > 0 && ByteLen(s) > maxSize ==>
      exists i, j :: 0 <= i <= j <= |s| && r == s[..i] + LogTrimmed + s[j..]
    ensures |s| + 1 >= 2 * (maxSize / 2) ==> r == TruncateString(s, maxSize)
  {
    if maxSize > 0 && ByteLen(s) > maxSize then
      var cuts := DisjointCuts(s, maxSize);
      var r := s[..cuts.0] + LogTrimmed + s[cuts.1..];
      assert |s| + 1 >= 2 * (maxSize / 2) && maxSize / 2 == 0 ==> r == LogTrimmed by {
        if |s| + 1 >= 2 * (maxSize / 2) && maxSize / 2 == 0 {
          assert s[..0] == [] && s[|s|..] == [];
        }
      }
      r
    else
      s
  }
}
