/**
 * Sequence key codec: a 64-bit sequence number rendered as decimal text left-padded with '0' to
 * width 10 (the row key of journal and snapshot rows, the version part of snapshot blob names),
 * and `long.Parse`, which reads it back.
 */
module SequenceKey {
  import opened Wrappers
  import opened Ordinal

  const INT64_MIN: int := -0x8000_0000_0000_0000
  const INT64_MAX: int := 0x7FFF_FFFF_FFFF_FFFF

  /** C#'s `long`. */
  type Int64 = x: int | INT64_MIN <= x <= INT64_MAX

  /** The width every key is padded to. */
  const KEY_WIDTH: nat := 10

  /** 10^KEY_WIDTH: the first sequence number whose key is wider than KEY_WIDTH. */
  const KEY_CAPACITY: nat := 10_000_000_000

  function Pow10(k: nat): (p: nat)
    ensures p >= 1
  {
    if k == 0 then 1 else 10 * Pow10(k - 1)
  }

  lemma Pow10Monotone(i: nat, j: nat)
    requires i <= j
    ensures Pow10(i) <= Pow10(j)
  {
  }

  predicate IsDigit(c: char) {
    '0' <= c <= '9'
  }

  predicate AllDigits(s: string) {
    forall i :: 0 <= i < |s| ==> IsDigit(s[i])
  }

  function DigitChar(d: nat): (c: char)
    requires d < 10
    ensures IsDigit(c)
  {
    (48 + d) as char
  }

  function DigitValue(c: char): (d: nat)
    requires IsDigit(c)
    ensures d < 10 && DigitChar(d) == c
  {
    c as int - 48
  }

  /** The decimal digits of `n`, most significant first, without leading zeros. */
  function NatToDecimal(n: nat): (s: string)
    ensures 1 <= |s| && AllDigits(s)
    ensures n > 0 ==> s[0] != '0'
    ensures n < Pow10(|s|)
    ensures |s| == 1 || Pow10(|s| - 1) <= n
  {
    if n < 10 then [DigitChar(n)]
    else
      var s := NatToDecimal(n / 10) + [DigitChar(n % 10)];
      assert n < 10 * (n / 10 + 1);
      s
  }

  /** `long.ToString()`: a '-' sign for negative values, then the decimal digits. */
  function LongToString(v: Int64): (s: string)
    ensures 1 <= |s|
  {
    if v < 0 then "-" + NatToDecimal(-(v as int)) else NatToDecimal(v)
  }

  function Repeat(c: char, n: nat): (r: string)
    ensures |r| == n && forall i :: 0 <= i < n ==> r[i] == c
  {
    seq(n, _ => c)
  }

  /** `String.PadLeft(width, c)`: `c` repeated in front until the text is `width` long. */
  function PadLeft(s: string, width: nat, c: char): (r: string)
    ensures |s| >= width ==> r == s
    ensures |s| < width ==> r == Repeat(c, width - |s|) + s
  {
    if |s| >= width then s else Repeat(c, width - |s|) + s
  }

  /**
   * `Event.ToRowKey(long)`, both `Snapshot.ToRowKey` overloads (an `int` converts to the same
   * text as the equal `long`) and `SnapshotVersionHelper.ToVersionKey`.
   */
  function ToRowKey(v: Int64): (k: string)
    ensures |k| >= KEY_WIDTH
  {
    PadLeft(LongToString(v), KEY_WIDTH, '0')
  }

  /** A key of a non-negative number is all digits, exactly ten of them below 10^10. */
  lemma RowKeyShape(v: Int64)
    ensures 0 <= v < KEY_CAPACITY ==> |ToRowKey(v)| == KEY_WIDTH && AllDigits(ToRowKey(v))
    ensures v >= 0 ==> AllDigits(ToRowKey(v))
  {
    if 0 <= v < KEY_CAPACITY {
      DecimalWidth(v, KEY_WIDTH);
    }
  }

  // ---------------------------------------------------------------------------------------------
  // `long.Parse(s)` with the default `NumberStyles.Integer`.

  /** The white space `NumberStyles.AllowLeadingWhite` / `AllowTrailingWhite` accept. */
  predicate IsWhite(c: char) {
    c == ' ' || '\t' <= c <= '\r'
  }

  function TrimWhite(s: string): (r: string)
    ensures |r| <= |s|
    decreases |s|
  {
    if s == [] then s
    else if IsWhite(s[0]) then TrimWhite(s[1..])
    else if IsWhite(s[|s| - 1]) then TrimWhite(s[..|s| - 1])
    else s
  }

  /** The value of a run of decimal digits. */
  function DigitsValue(s: string): nat
    requires AllDigits(s)
  {
    if s == [] then 0 else 10 * DigitsValue(s[..|s| - 1]) + DigitValue(s[|s| - 1])
  }

  /** Optional white space, an optional sign, at least one digit, optional white space. */
  function ParseLong(s: string): (r: Result<Int64>)
    ensures r.Err? ==> r.error == FormatException || r.error == OverflowException
  {
    var t := TrimWhite(s);
    var negative := |t| > 0 && t[0] == '-';
    var digits := if |t| > 0 && (t[0] == '-' || t[0] == '+') then t[1..] else t;
    if digits == [] || !AllDigits(digits) then Err(FormatException)
    else
      var m := DigitsValue(digits);
      var v := if negative then -(m as int) else m;
      if v < INT64_MIN || INT64_MAX < v then Err(OverflowException) else Ok(v)
  }

  // ---------------------------------------------------------------------------------------------
  // Fixed-width keys.

  /** The last `w` decimal digits of `n`, most significant first (zeros in front when `n` is short). */
  function FixedDigits(n: nat, w: nat): (s: string)
    ensures |s| == w && AllDigits(s)
  {
    if w == 0 then [] else FixedDigits(n / 10, w - 1) + [DigitChar(n % 10)]
  }

  lemma {:induction false} FixedDigitsOfZero(w: nat)
    ensures FixedDigits(0, w) == Repeat('0', w)
  {
    if w > 0 {
      FixedDigitsOfZero(w - 1);
    }
  }

  /** Padding the decimal text of `n < 10^w` to width `w` gives its `w` last digits. */
  lemma {:induction false} DecimalWidth(n: nat, w: nat)
    requires 1 <= w && n < Pow10(w)
    ensures PadLeft(NatToDecimal(n), w, '0') == FixedDigits(n, w)
    ensures |NatToDecimal(n)| <= w
  {
    var d := NatToDecimal(n);
    if n < 10 {
      FixedDigitsOfZero(w - 1);
      assert FixedDigits(n, w) == Repeat('0', w - 1) + d;
    } else {
      var d' := NatToDecimal(n / 10);
      assert d == d' + [DigitChar(n % 10)];
      if |d| > w {
        Pow10Monotone(w, |d| - 1);
        assert false;
      }
      assert n / 10 < Pow10(w - 1);
      DecimalWidth(n / 10, w - 1);
      if |d| < w {
        assert Repeat('0', w - |d|) + d == (Repeat('0', w - 1 - |d'|) + d') + [DigitChar(n % 10)];
      }
    }
  }

  /** For equal lengths, the first difference decides, whatever follows. */
  lemma {:induction false} LessExtend(x: string, y: string, p: string, q: string)
    requires |x| == |y| && Less(x, y)
    ensures Less(x + p, y + q)
  {
    assert x != [] && y != [];
    assert (x + p)[0] == x[0] && (y + q)[0] == y[0];
    if x[0] == y[0] {
      assert (x + p)[1..] == x[1..] + p && (y + q)[1..] == y[1..] + q;
      LessExtend(x[1..], y[1..], p, q);
    }
  }

  lemma {:induction false} FixedDigitsOrder(a: nat, b: nat, w: nat)
    requires a < b < Pow10(w)
    ensures Less(FixedDigits(a, w), FixedDigits(b, w))
  {
    var ca, cb := DigitChar(a % 10), DigitChar(b % 10);
    assert FixedDigits(a, w) == FixedDigits(a / 10, w - 1) + [ca];
    assert FixedDigits(b, w) == FixedDigits(b / 10, w - 1) + [cb];
    assert a / 10 <= b / 10 < Pow10(w - 1);
    if a / 10 < b / 10 {
      FixedDigitsOrder(a / 10, b / 10, w - 1);
      LessExtend(FixedDigits(a / 10, w - 1), FixedDigits(b / 10, w - 1), [ca], [cb]);
    } else {
      assert a % 10 < b % 10;
      LessCommonPrefix(FixedDigits(a / 10, w - 1), [ca], [cb]);
    }
  }

  /** Below 10^10 the key is exactly the ten last decimal digits. */
  lemma RowKeyIsFixedDigits(v: Int64)
    requires 0 <= v < KEY_CAPACITY
    ensures ToRowKey(v) == FixedDigits(v, KEY_WIDTH)
  {
    DecimalWidth(v, KEY_WIDTH);
  }

  /** Keys of 0 <= a < b < 10^10 are in the same order as the numbers. */
  lemma RowKeyOrder(a: Int64, b: Int64)
    requires 0 <= a < b < KEY_CAPACITY
    ensures Less(ToRowKey(a), ToRowKey(b))
  {
    RowKeyIsFixedDigits(a);
    RowKeyIsFixedDigits(b);
    FixedDigitsOrder(a, b, KEY_WIDTH);
  }

  /** Within [0, 10^10) comparing keys is comparing numbers, in both directions. */
  lemma RowKeyOrderIff(a: Int64, b: Int64)
    requires 0 <= a < KEY_CAPACITY && 0 <= b < KEY_CAPACITY
    ensures Less(ToRowKey(a), ToRowKey(b)) <==> a < b
    ensures LessEq(ToRowKey(a), ToRowKey(b)) <==> a <= b
  {
    if a < b {
      RowKeyOrder(a, b);
      LessAsymmetric(ToRowKey(a), ToRowKey(b));
    } else if b < a {
      RowKeyOrder(b, a);
      LessAsymmetric(ToRowKey(b), ToRowKey(a));
    } else {
      LessIrreflexive(ToRowKey(a));
    }
  }

  /** At 10^10 the key grows an eleventh digit and sorts before the key of 10^10 - 1. */
  lemma RowKeyOrderBreaksAtCapacity()
    ensures Less(ToRowKey(KEY_CAPACITY), ToRowKey(KEY_CAPACITY - 1))
  {
    var big, small := ToRowKey(KEY_CAPACITY), ToRowKey(KEY_CAPACITY - 1);
    assert NatToDecimal(KEY_CAPACITY) == "10000000000";
    assert NatToDecimal(99999) == "99999";
    assert NatToDecimal(9999999999) == NatToDecimal(99999) + "99999";
    assert big[0] == '1' && small[0] == '9';
    LessAtFirstDifference(big, small, 0);
  }

  /** A negative number's key starts with '-', or with padding '0' when the number is above -10^8. */
  lemma RowKeyOfNegative(v: Int64)
    requires v < 0
    ensures ToRowKey(v)[0] == '-' || (ToRowKey(v)[0] == '0' && -(v as int) < Pow10(8))
  {
    var d := NatToDecimal(-(v as int));
    if |"-" + d| < KEY_WIDTH {
      Pow10Monotone(|d|, 8);
    }
  }

  /** From 10^10 on the key is the unpadded decimal text, led by a non-zero digit. */
  lemma RowKeyOfLarge(v: Int64)
    requires KEY_CAPACITY <= v
    ensures ToRowKey(v) == NatToDecimal(v)
    ensures IsDigit(ToRowKey(v)[0]) && ToRowKey(v)[0] != '0'
  {
    var d := NatToDecimal(v);
    assert Pow10(KEY_WIDTH) == KEY_CAPACITY;
    if |d| < KEY_WIDTH {
      Pow10Monotone(|d|, KEY_WIDTH);
    }
  }

  /** C#'s unchecked `long` subtraction: the difference wrapped modulo 2^64 into the `long` range. */
  function Wrap64(x: int): (r: Int64)
    ensures INT64_MIN <= x <= INT64_MAX ==> r == x
    ensures (r - x) % 0x1_0000_0000_0000_0000 == 0
  {
    (x - INT64_MIN) % 0x1_0000_0000_0000_0000 + INT64_MIN
  }

  // ---------------------------------------------------------------------------------------------
  // Parsing keys back.

  lemma {:induction false} DigitsValueAppend(s: string, c: char)
    requires AllDigits(s) && IsDigit(c)
    ensures DigitsValue(s + [c]) == 10 * DigitsValue(s) + DigitValue(c)
  {
    assert (s + [c])[..|s|] == s;
  }

  lemma {:induction false} DigitsValueOfDecimal(n: nat)
    ensures DigitsValue(NatToDecimal(n)) == n
  {
    if n >= 10 {
      DigitsValueOfDecimal(n / 10);
      DigitsValueAppend(NatToDecimal(n / 10), DigitChar(n % 10));
    } else {
      assert NatToDecimal(n)[..0] == [];
    }
  }

  lemma {:induction false} DigitsValueLeadingZeros(k: nat, s: string)
    requires AllDigits(s)
    ensures DigitsValue(Repeat('0', k) + s) == DigitsValue(s)
    decreases |s|, k
  {
    var z := Repeat('0', k);
    if s == [] {
      assert z + s == z;
      if k > 0 {
        assert z[..k - 1] == Repeat('0', k - 1) + [];
        DigitsValueLeadingZeros(k - 1, []);
      }
    } else {
      var init := s[..|s| - 1];
      assert z + s == (z + init) + [s[|s| - 1]];
      assert s == init + [s[|s| - 1]];
      DigitsValueAppend(z + init, s[|s| - 1]);
      DigitsValueAppend(init, s[|s| - 1]);
      DigitsValueLeadingZeros(k, init);
    }
  }

  lemma {:induction false} TrimDigits(s: string)
    requires s != [] && AllDigits(s)
    ensures TrimWhite(s) == s
  {
  }

  /** A run of digits whose value fits a `long` is read as that value. */
  lemma ParseDigits(s: string)
    requires s != [] && AllDigits(s) && DigitsValue(s) <= INT64_MAX
    ensures ParseLong(s) == Ok(DigitsValue(s))
  {
    TrimDigits(s);
  }

  /** The digits of a non-negative number's key spell that number. */
  lemma RowKeyValue(v: Int64)
    requires 0 <= v
    ensures ToRowKey(v) != [] && AllDigits(ToRowKey(v)) && DigitsValue(ToRowKey(v)) == v
  {
    var d := NatToDecimal(v);
    DigitsValueOfDecimal(v);
    if |d| < KEY_WIDTH {
      DigitsValueLeadingZeros(KEY_WIDTH - |d|, d);
    }
    RowKeyShape(v);
  }

  /** Every non-negative `long` is read back from its key by `long.Parse`. */
  lemma RowKeyRoundTrip(v: Int64)
    requires 0 <= v
    ensures ParseLong(ToRowKey(v)) == Ok(v)
  {
    RowKeyValue(v);
    ParseDigits(ToRowKey(v));
  }

  /** Distinct non-negative numbers have distinct keys. */
  lemma RowKeyInjective(a: Int64, b: Int64)
    requires 0 <= a && 0 <= b && ToRowKey(a) == ToRowKey(b)
    ensures a == b
  {
    RowKeyRoundTrip(a);
    RowKeyRoundTrip(b);
  }

  /** `long.ToString()` is read back by `long.Parse`, negative values included. */
  lemma LongToStringRoundTrip(v: Int64)
    ensures ParseLong(LongToString(v)) == Ok(v)
  {
    var d := if v < 0 then NatToDecimal(-(v as int)) else NatToDecimal(v);
    DigitsValueOfDecimal(if v < 0 then -(v as int) else v);
    if v < 0 {
      assert ("-" + d)[1..] == d;
    }
    TrimLongToString(v);
  }

  lemma TrimLongToString(v: Int64)
    ensures TrimWhite(LongToString(v)) == LongToString(v)
  {
    var s := LongToString(v);
    assert !IsWhite(s[0]) && !IsWhite(s[|s| - 1]);
  }
}
