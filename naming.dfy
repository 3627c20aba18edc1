/**
 * Segment file names `f'{n:0>5}_{part_n:0>3}.ts'`: the poll number padded
 * with zeros to width 5, the part number to width 3.
 */
module Naming {
  import opened Base
  import Text

  predicate IsDigit(c: char)
  {
    '0' <= c <= '9'
  }

  predicate AllDigits(s: string)
  {
    forall i :: 0 <= i < |s| ==> IsDigit(s[i])
  }

  function DigitChar(d: nat): (c: char)
    requires d < 10
    ensures IsDigit(c)
  {
    (('0' as int) + d) as char
  }

  /** `str(n)` for a non-negative integer. */
  function Decimal(n: nat): (s: string)
    ensures |s| >= 1 && AllDigits(s)
    decreases n
  {
    if n < 10 then [DigitChar(n)] else Decimal(n / 10) + [DigitChar(n % 10)]
  }

  /** The number a digit string denotes. */
  function Value(s: string): nat
    requires AllDigits(s)
    decreases |s|
  {
    if s == [] then 0 else Value(s[..|s| - 1]) * 10 + ((s[|s| - 1] as int) - ('0' as int))
  }

  function Zeros(k: nat): (z: string)
    ensures |z| == k && AllDigits(z)
  {
    seq(k, _ => '0')
  }

  /** `format(s, '0>width')`: zeros in front up to `width` characters; never cut. */
  function PadLeft(s: string, width: nat): string
  {
    if |s| >= width then s else Zeros(width - |s|) + s
  }

  /** `f'{n:0>5}_{part_n:0>3}.ts'`. */
  function FileName(n: nat, partN: nat): string
  {
    PadLeft(Decimal(n), 5) + "_" + PadLeft(Decimal(partN), 3) + ".ts"
  }

  /** Reading a name back: the two numbers around `_`, before `.ts`. */
  function ParseName(name: string): Option<(nat, nat)>
  {
    if |name| < 3 || name[|name| - 3..] != ".ts" then None
    else
      var fields := Text.Split(name[..|name| - 3], '_');
      if |fields| == 2 && AllDigits(fields[0]) && AllDigits(fields[1])
      then Some((Value(fields[0]), Value(fields[1])))
      else None
  }

  /** The name belongs to poll `n`. */
  ghost predicate InPoll(name: string, n: nat)
  {
    exists partN: nat :: name == FileName(n, partN)
  }

  lemma {:induction false} ValueDecimal(n: nat)
    ensures Value(Decimal(n)) == n
    decreases n
  {
    if n >= 10 {
      ValueDecimal(n / 10);
      var s := Decimal(n);
      assert s[..|s| - 1] == Decimal(n / 10);
    }
  }

  lemma {:induction false} ValueZeros(k: nat, s: string)
    requires AllDigits(s)
    ensures Value(Zeros(k) + s) == Value(s)
    decreases |s|
  {
    var t := Zeros(k) + s;
    if s == [] {
      assert t == Zeros(k);
      ValueOfZeros(k);
    } else {
      ValueZeros(k, s[..|s| - 1]);
      assert t[..|t| - 1] == Zeros(k) + s[..|s| - 1];
    }
  }

  lemma {:induction false} ValueOfZeros(k: nat)
    ensures Value(Zeros(k)) == 0
    decreases k
  {
    if k > 0 {
      ValueOfZeros(k - 1);
      assert Zeros(k)[..k - 1] == Zeros(k - 1);
    }
  }

  /**
   * Padding never truncates: the padded string is at least `width` long,
   * ends with the original, and denotes the same number.
   */
  lemma PadLeftSpec(s: string, width: nat)
    requires AllDigits(s)
    ensures var r := PadLeft(s, width);
      && |r| == (if |s| >= width then |s| else width)
      && r[|r| - |s|..] == s
      && AllDigits(r)
      && Value(r) == Value(s)
  {
    if |s| < width {
      ValueZeros(width - |s|, s);
    }
  }

  /** The name gives its two numbers back. */
  lemma ParseFileName(n: nat, partN: nat)
    ensures ParseName(FileName(n, partN)) == Some((n, partN))
  {
    var a, b := PadLeft(Decimal(n), 5), PadLeft(Decimal(partN), 3);
    PadLeftSpec(Decimal(n), 5);
    PadLeftSpec(Decimal(partN), 3);
    ValueDecimal(n);
    ValueDecimal(partN);
    var name := FileName(n, partN);
    assert name[|name| - 3..] == ".ts";
    assert name[..|name| - 3] == a + ['_'] + b;
    assert '_' !in a;
    assert '_' !in b;
    Text.SplitPair(a, b, '_');
  }

  /** Distinct (poll, part) pairs give distinct names. */
  lemma FileNameInjective(n1: nat, p1: nat, n2: nat, p2: nat)
    ensures FileName(n1, p1) == FileName(n2, p2) <==> n1 == n2 && p1 == p2
  {
    ParseFileName(n1, p1);
    ParseFileName(n2, p2);
  }

  /** Within the field widths the names have a fixed length of 12. */
  lemma FileNameLength(n: nat, partN: nat)
    requires n < 100000 && partN < 1000
    ensures |FileName(n, partN)| == 12
  {
    DecimalLength(n, 5);
    DecimalLength(partN, 3);
  }

  lemma {:induction false} DecimalLength(n: nat, width: nat)
    requires width >= 1
    requires n < Pow10(width)
    ensures |Decimal(n)| <= width
    decreases width
  {
    if n >= 10 {
      DecimalLength(n / 10, width - 1);
    }
  }

  function Pow10(k: nat): nat
  {
    if k == 0 then 1 else 10 * Pow10(k - 1)
  }
}
