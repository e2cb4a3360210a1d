/**
 * The names of the mask images of the segmentation script: frame idx is saved
 * as mask_{idx:03}.png, its decimal index zero-padded to at least three
 * digits, and read back under the same name when the mask video is built.
 */
module MaskNames {
  import opened Options

  const PREFIX: string := "mask_"
  const SUFFIX: string := ".png"

  /** The narrowest the index is printed. */
  const PAD_WIDTH: nat := 3

  predicate IsDigit(ch: char)
  {
    '0' <= ch <= '9'
  }

  function DigitChar(d: nat): (ch: char)
    requires d < 10
    ensures IsDigit(ch)
    ensures ch as int == '0' as int + d
  {
    ['0', '1', '2', '3', '4', '5', '6', '7', '8', '9'][d]
  }

  function DigitValue(ch: char): (d: nat)
    requires IsDigit(ch)
    ensures d < 10
  {
    (ch as int - '0' as int) as nat
  }

  /** The decimal digits of n, most significant first, with no leading zero (but "0" for zero). */
  function Digits(n: nat): (s: string)
    ensures 1 <= |s|
    ensures forall k :: 0 <= k < |s| ==> IsDigit(s[k])
    ensures s[0] == '0' <==> n == 0
  {
    if n < 10 then [DigitChar(n)] else Digits(n / 10) + [DigitChar(n % 10)]
  }

  /** A string of n zeros. */
  function Zeros(n: nat): (s: string)
    ensures |s| == n
    ensures forall k :: 0 <= k < n ==> s[k] == '0'
  {
    if n == 0 then "" else "0" + Zeros(n - 1)
  }

  /** The index as the format spec 03 prints it: its digits with zeros in front up to three characters. */
  function Padded(idx: nat): (p: string)
    ensures |p| >= PAD_WIDTH
    ensures forall k :: 0 <= k < |p| ==> IsDigit(p[k])
  {
    var digits := Digits(idx);
    (if |digits| < PAD_WIDTH then Zeros(PAD_WIDTH - |digits|) else "") + digits
  }

  /** The file name the mask of frame idx is saved under and read back from: mask_, at least three digits, .png. */
  function MaskFileName(idx: nat): (name: string)
    ensures |name| >= |PREFIX| + PAD_WIDTH + |SUFFIX|
    ensures name[..|PREFIX|] == PREFIX && name[|name| - |SUFFIX|..] == SUFFIX
    ensures forall k :: |PREFIX| <= k < |name| - |SUFFIX| ==> IsDigit(name[k])
  {
    PREFIX + Padded(idx) + SUFFIX
  }

  /** The number a string of decimal digits denotes; leading zeros do not count. */
  function Value(s: string): nat
    requires forall k :: 0 <= k < |s| ==> IsDigit(s[k])
  {
    if s == [] then 0 else 10 * Value(s[..|s| - 1]) + DigitValue(s[|s| - 1])
  }

  /** Recovers the frame index from a mask file name; None for any other name. */
  function ParseMaskFileName(name: string): Option<nat>
  {
    if |name| > |PREFIX| + |SUFFIX| && name[..|PREFIX|] == PREFIX && name[|name| - |SUFFIX|..] == SUFFIX then
      var middle := name[|PREFIX|..|name| - |SUFFIX|];
      if forall k :: 0 <= k < |middle| ==> IsDigit(middle[k]) then Some(Value(middle)) else None
    else None
  }

  /** The digits of n denote n. */
  lemma {:induction false} DigitsDenote(n: nat)
    ensures Value(Digits(n)) == n
  {
    if n >= 10 {
      DigitsDenote(n / 10);
      var s := Digits(n);
      assert s[..|s| - 1] == Digits(n / 10);
    }
  }

  /** Zeros in front do not change the value. */
  lemma {:induction false} LeadingZerosIgnored(z: nat, s: string)
    requires forall k :: 0 <= k < |s| ==> IsDigit(s[k])
    ensures forall k :: 0 <= k < |Zeros(z) + s| ==> IsDigit((Zeros(z) + s)[k])
    ensures Value(Zeros(z) + s) == Value(s)
  {
    if s == [] {
      ZerosDenoteZero(z);
      assert Zeros(z) + s == Zeros(z);
    } else {
      LeadingZerosIgnored(z, s[..|s| - 1]);
      var t := Zeros(z) + s;
      assert t[..|t| - 1] == Zeros(z) + s[..|s| - 1];
    }
  }

  /** A string of zeros denotes zero. */
  lemma {:induction false} ZerosDenoteZero(z: nat)
    ensures Value(Zeros(z)) == 0
  {
    if z > 0 {
      ZerosDenoteZero(z - 1);
      var s := Zeros(z);
      assert s[..|s| - 1] == Zeros(z - 1) by {
        assert s == "0" + Zeros(z - 1);
        if z > 1 {
          assert Zeros(z - 1) == "0" + Zeros(z - 2);
        }
      }
    }
  }

  /** The padded index denotes the index. */
  lemma PaddedDenotes(idx: nat)
    ensures Value(Padded(idx)) == idx
  {
    DigitsDenote(idx);
    var digits := Digits(idx);
    if |digits| < PAD_WIDTH {
      LeadingZerosIgnored(PAD_WIDTH - |digits|, digits);
    } else {
      assert Padded(idx) == digits;
    }
  }

  /** Parsing the name a mask is saved under gives back its frame index. */
  lemma MaskFileNameRoundTrip(idx: nat)
    ensures ParseMaskFileName(MaskFileName(idx)) == Some(idx)
  {
    PaddedDenotes(idx);
    var name := MaskFileName(idx);
    assert name[..|PREFIX|] == PREFIX;
    assert name[|name| - |SUFFIX|..] == SUFFIX;
    assert name[|PREFIX|..|name| - |SUFFIX|] == Padded(idx);
  }

  /** Distinct frames are saved under distinct names, so no mask overwrites another. */
  lemma MaskFileNamesDistinct(i: nat, j: nat)
    requires i != j
    ensures MaskFileName(i) != MaskFileName(j)
  {
    MaskFileNameRoundTrip(i);
    MaskFileNameRoundTrip(j);
  }

  /** An index of three or more digits is printed as it is, without zeros in front. */
  lemma {:induction false} WideIndexNotPadded(idx: nat)
    requires idx >= 100
    ensures Padded(idx) == Digits(idx)
  {
    var tens := idx / 10;
    assert tens >= 10;
    assert |Digits(tens)| == |Digits(tens / 10)| + 1;
    assert |Digits(idx)| == |Digits(tens)| + 1;
  }

  /** Frame 7 is saved as mask_007.png. */
  lemma MaskFileNameExample()
    ensures MaskFileName(7) == "mask_007.png"
  {
  }
}
