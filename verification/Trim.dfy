/** Both versions of skip_trailing_space (outheader/m_string.h). A string is the octets from `ptr`
    on; positions are offsets from `ptr`, and `address` is where the string lies in memory. */
module Trim {
  import opened Bytes
  import opened ByteOrder

  /** The naive backward loop: where the string ends once trailing spaces are dropped. */
  function NaiveEnd(s: bytes): (end: nat)
    ensures end <= |s|
    ensures forall k :: end <= k < |s| ==> s[k] == SPACE
    ensures end > 0 ==> s[end - 1] != SPACE
  {
    if s != [] && s[|s| - 1] == SPACE then NaiveEnd(s[..|s| - 1]) else |s|
  }

  /** Every stretch of spaces at the end may be dropped first. */
  lemma {:induction false} NaiveEndSkips(s: bytes, end: nat)
    requires end <= |s| && forall k :: end <= k < |s| ==> s[k] == SPACE
    ensures NaiveEnd(s[..end]) == NaiveEnd(s)
    decreases |s| - end
  {
    if end < |s| {
      NaiveEndSkips(s, end + 1);
      assert s[..end + 1][..end] == s[..end];
    } else {
      assert s[..end] == s;
    }
  }

  /** The last loop of both versions, from any position followed by spaces only. */
  method TrimBytewise(s: bytes, from: nat) returns (end: nat)
    requires from <= |s| && forall k :: from <= k < |s| ==> s[k] == SPACE
    ensures end == NaiveEnd(s)
  {
    end := from;
    while end > 0 && s[end - 1] == SPACE
      invariant end <= |s|
      invariant forall k :: end <= k < |s| ==> s[k] == SPACE
    {
      end := end - 1;
    }
    NaiveEndSkips(s, end);
  }

  /** Eight octets at a time, at any alignment. */
  method SkipTrailingSpace(s: bytes) returns (end: nat)
    ensures end == NaiveEnd(s)
  {
    end := |s|;
    while end >= 8
      invariant end <= |s|
      invariant forall k :: end <= k < |s| ==> s[k] == SPACE
    {
      EightSpacesTest(s[end - 8..end]);
      if Uint8Korr(s[end - 8..end]) != 0x2020_2020_2020_2020 {
        break;
      }
      assert forall k :: end - 8 <= k < end ==> s[k] == s[end - 8..end][k - (end - 8)];
      end := end - 8;
    }
    end := TrimBytewise(s, end);
  }

  /** An aligned word load on a big-endian machine, the only kind the word version is compiled for. */
  function WordAt(w: bytes): nat {
    if w == [] then 0 else 256 * WordAt(w[..|w| - 1]) + w[|w| - 1]
  }

  const SPACE_INT_4: nat := 0x2020_2020
  const SPACE_INT_8: nat := 0x2020_2020_2020_2020

  function Spaces(n: nat): (s: bytes)
    ensures |s| == n && forall k :: 0 <= k < n ==> s[k] == SPACE
  {
    seq(n, _ => SPACE)
  }

  lemma SameDigits(x: nat, c: byte, y: nat, d: byte)
    requires 256 * x + c == 256 * y + d
    ensures x == y && c == d
  {
  }

  lemma {:induction false} WordInjective(a: bytes, b: bytes)
    requires |a| == |b| && WordAt(a) == WordAt(b)
    ensures a == b
  {
    if a != [] {
      var n := |a| - 1;
      SameDigits(WordAt(a[..n]), a[n], WordAt(b[..n]), b[n]);
      WordInjective(a[..n], b[..n]);
      assert a == a[..n] + [a[n]] && b == b[..n] + [b[n]];
    }
  }

  lemma SpaceWords()
    ensures WordAt(Spaces(4)) == SPACE_INT_4 && WordAt(Spaces(8)) == SPACE_INT_8
  {
    assert Spaces(4)[..3] == Spaces(3) && Spaces(3)[..2] == Spaces(2) && Spaces(2)[..1] == Spaces(1);
    assert Spaces(8)[..7] == Spaces(7) && Spaces(7)[..6] == Spaces(6) && Spaces(6)[..5] == Spaces(5);
    assert Spaces(5)[..4] == Spaces(4);
    assert WordAt(Spaces(1)) == 0x20 && WordAt(Spaces(2)) == 0x2020 && WordAt(Spaces(3)) == 0x20_2020;
    assert WordAt(Spaces(5)) == 0x20_2020_2020 && WordAt(Spaces(6)) == 0x2020_2020_2020;
  }

  /** The word comparison succeeds on a word of spaces and on no other. */
  lemma SpaceWordTest(w: bytes)
    requires |w| == 4 || |w| == 8
    ensures WordAt(w) == (if |w| == 4 then SPACE_INT_4 else SPACE_INT_8) <==> w == Spaces(|w|)
  {
    SpaceWords();
    if WordAt(w) == WordAt(Spaces(|w|)) {
      WordInjective(w, Spaces(|w|));
    }
  }

  /** SIZEOF_INT is a compile-time constant, 4 or 8. */
  ghost predicate WordSize(w: nat) {
    w == 4 || w == 8
  }

  ghost predicate Aligned(address: nat, w: nat)
    requires WordSize(w)
  {
    if w == 4 then address == address / 4 * 4 else address == address / 8 * 8
  }

  lemma MultiplesOf4(x: nat, y: nat)
    ensures x / 4 * 4 <= x < x / 4 * 4 + 4 && x / 4 * 4 / 4 == x / 4
    ensures x == x / 4 * 4 && y == y / 4 * 4 && y < x ==> y <= x - 4 && x - 4 == (x - 4) / 4 * 4
  {
  }

  lemma MultiplesOf8(x: nat, y: nat)
    ensures x / 8 * 8 <= x < x / 8 * 8 + 8 && x / 8 * 8 / 8 == x / 8
    ensures x == x / 8 * 8 && y == y / 8 * 8 && y < x ==> y <= x - 8 && x - 8 == (x - 8) / 8 * 8
  {
  }

  /** An address rounded down to a word boundary. */
  function AlignedDown(address: nat, w: nat): (r: nat)
    requires WordSize(w)
    ensures r <= address < r + w && Aligned(r, w)
  {
    MultiplesOf4(address, 0);
    MultiplesOf8(address, 0);
    if w == 4 then address / 4 * 4 else address / 8 * 8
  }

  lemma AlignedStep(high: nat, low: nat, w: nat)
    requires WordSize(w) && low < high && Aligned(low, w) && Aligned(high, w)
    ensures high - low >= w && Aligned(high - w, w)
  {
    MultiplesOf4(high, low);
    MultiplesOf8(high, low);
  }

  /** Octets down to a word boundary, then aligned words, then octets. Every word read is aligned
      and inside the string. */
  method SkipTrailingSpaceAligned(s: bytes, address: nat, sizeofInt: nat) returns (end: nat)
    requires WordSize(sizeofInt)
    ensures end == NaiveEnd(s)
  {
    end := |s|;
    if |s| > 20 {
      var endWords := AlignedDown(address + |s|, sizeofInt) - address;
      var startWords := AlignedDown(address + sizeofInt - 1, sizeofInt) - address;
      while end > endWords && s[end - 1] == SPACE
        invariant endWords <= end <= |s|
        invariant forall k :: end <= k < |s| ==> s[k] == SPACE
      {
        end := end - 1;
      }
      if s[end - 1] == SPACE && startWords < endWords {
        end := TrimWords(s, address, sizeofInt, startWords, end);
      }
    }
    end := TrimBytewise(s, end);
  }

  /** The loop over aligned words. */
  method TrimWords(s: bytes, address: nat, sizeofInt: nat, startWords: nat, from: nat) returns (end: nat)
    requires WordSize(sizeofInt)
    requires startWords <= from <= |s| && forall k :: from <= k < |s| ==> s[k] == SPACE
    requires Aligned(address + startWords, sizeofInt) && Aligned(address + from, sizeofInt)
    ensures startWords <= end <= from
    ensures forall k :: end <= k < |s| ==> s[k] == SPACE
    ensures end == startWords || (end >= sizeofInt && s[end - sizeofInt..end] != Spaces(sizeofInt))
  {
    end := from;
    while end > startWords
      invariant startWords <= end <= from && Aligned(address + end, sizeofInt)
      invariant forall k :: end <= k < |s| ==> s[k] == SPACE
    {
      AlignedStep(address + end, address + startWords, sizeofInt);
      var word := s[end - sizeofInt..end];
      SpaceWordTest(word);
      if WordAt(word) != (if sizeofInt == 4 then SPACE_INT_4 else SPACE_INT_8) {
        return;
      }
      assert forall k :: end - sizeofInt <= k < end ==> s[k] == word[k - (end - sizeofInt)];
      end := end - sizeofInt;
    }
  }
}
