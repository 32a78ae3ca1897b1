/** Decimal arithmetic of the miner: the integer meaning of the float
    expressions `math.Pow(10, k)`, `math.Ceil(math.Log10(n + 1))`,
    `math.Ceil(math.Log10(x))` and `math.Floor(math.Log10(x))`, and the text
    produced by `strconv.Itoa` and `fmt.Sprintf("%0*d", width, n)`. */
module Decimal {

  /** 10^k. */
  function Pow10(k: nat): (r: nat)
    ensures r >= 1
  {
    if k == 0 then 1 else 10 * Pow10(k - 1)
  }

  /** 2^k. */
  function Pow2(k: nat): (r: nat)
    ensures r >= 1
  {
    if k == 0 then 1 else 2 * Pow2(k - 1)
  }

  lemma {:induction false} Pow10Monotone(i: nat, j: nat)
    requires i <= j
    ensures Pow10(i) <= Pow10(j)
  {
    if i < j {
      Pow10Monotone(i, j - 1);
    }
  }

  /** Number of decimal digits of n, 0 for n == 0: the value of
      `ceil(log10(n + 1))` computed exactly. */
  function Digits(n: nat): nat
  {
    if n == 0 then 0 else 1 + Digits(n / 10)
  }

  /** n needs at most w digits exactly when it is below 10^w. */
  lemma {:induction false} DigitsAtMost(n: nat, w: nat)
    ensures Digits(n) <= w <==> n < Pow10(w)
  {
    if n > 0 && w > 0 {
      DigitsAtMost(n / 10, w - 1);
      assert n / 10 < Pow10(w - 1) <==> n < 10 * Pow10(w - 1);
    }
  }

  /** The digit width of a nonce is w exactly when it lies in the tier
      [10^(w-1), 10^w - 1]. */
  lemma DigitsOfTier(n: nat, w: nat)
    requires w >= 1
    ensures Digits(n) == w <==> Pow10(w - 1) <= n < Pow10(w)
  {
    DigitsAtMost(n, w);
    DigitsAtMost(n, w - 1);
  }

  /** The least k with x <= 10^k: `ceil(log10(x))` computed exactly. */
  function CeilLog10(x: nat): (k: nat)
    requires x >= 1
    ensures x <= Pow10(k)
    ensures k >= 1 ==> Pow10(k - 1) < x
  {
    var k := Digits(x - 1);
    DigitsAtMost(x - 1, k);
    if k >= 1 then DigitsAtMost(x - 1, k - 1); k else k
  }

  /** CeilLog10 stays at most k while x does not exceed 10^k. */
  lemma CeilLog10AtMost(x: nat, k: nat)
    requires 1 <= x <= Pow10(k)
    ensures CeilLog10(x) <= k
  {
    var c := CeilLog10(x);
    if c > k {
      Pow10Monotone(k, c - 1);
    }
  }

  /** The greatest k with 10^k <= x: `floor(log10(x))` computed exactly. */
  function FloorLog10(x: nat): (k: nat)
    requires x >= 1
    ensures Pow10(k) <= x < Pow10(k + 1)
  {
    var k := Digits(x) - 1;
    DigitsAtMost(x, k + 1);
    DigitsAtMost(x, k);
    k
  }

  /** FloorLog10 is at least k once x reaches 10^k. */
  lemma FloorLog10AtLeast(x: nat, k: nat)
    requires Pow10(k) <= x
    ensures FloorLog10(x) >= k
  {
    var f := FloorLog10(x);
    if f < k {
      Pow10Monotone(f + 1, k);
    }
  }

  /** The unique power of ten that FloorLog10 picks. */
  lemma {:induction false} FloorLog10Unique(x: nat, k: nat)
    requires Pow10(k) <= x < Pow10(k + 1)
    ensures FloorLog10(x) == k
  {
    var f := FloorLog10(x);
    if f < k {
      Pow10Monotone(f + 1, k);
    } else if f > k {
      Pow10Monotone(k + 1, f);
    }
  }

  // ---------------------------------------------------------------------
  // Decimal text
  // ---------------------------------------------------------------------

  predicate IsDigitString(s: string)
  {
    forall i :: 0 <= i < |s| ==> '0' <= s[i] <= '9'
  }

  function DigitChar(d: nat): char
    requires d < 10
  {
    ('0' as int + d) as char
  }

  /** The number a string of decimal digits denotes (leading zeros allowed). */
  function ValueOf(s: string): nat
    requires IsDigitString(s)
  {
    if s == [] then 0 else ValueOf(s[..|s| - 1]) * 10 + (s[|s| - 1] as int - '0' as int)
  }

  /** Appending digit d to both a number's text and its tail's. */
  lemma ShiftDigit(x: int, p: int, y: int, d: int, p10: int, y10: int)
    requires p10 == 10 * p && y10 == y * 10 + d
    ensures (x * p + y) * 10 + d == x * p10 + y10
  {
  }

  lemma {:induction false} ValueOfConcat(a: string, b: string)
    requires IsDigitString(a) && IsDigitString(b)
    ensures IsDigitString(a + b)
    ensures ValueOf(a + b) == ValueOf(a) * Pow10(|b|) + ValueOf(b)
  {
    if b != [] {
      var b' := b[..|b| - 1];
      assert (a + b)[..|a + b| - 1] == a + b';
      ValueOfConcat(a, b');
      var va, vb', p', d := ValueOf(a), ValueOf(b'), Pow10(|b'|), b[|b| - 1] as int - '0' as int;
      assert b[..|b| - 1] == b';
      assert ValueOf(b) == vb' * 10 + d;
      assert Pow10(|b|) == 10 * p';
      assert (a + b)[|a + b| - 1] == b[|b| - 1];
      assert ValueOf(a + b) == ValueOf(a + b') * 10 + d;
      ShiftDigit(va, p', vb', d, Pow10(|b|), ValueOf(b));
    } else {
      assert a + b == a;
    }
  }

  /** Go's `strconv.Itoa(n)` (and `%d`) for n >= 0: most significant digit
      first, "0" for zero. */
  function DecimalString(n: nat): (s: string)
    ensures IsDigitString(s)
    ensures |s| == if n == 0 then 1 else Digits(n)
    ensures ValueOf(s) == n
  {
    if n < 10 then
      [DigitChar(n)]
    else
      var prefix := DecimalString(n / 10);
      var s := prefix + [DigitChar(n % 10)];
      assert s[..|s| - 1] == prefix;
      s
  }

  function Zeros(k: nat): (s: string)
    ensures |s| == k && IsDigitString(s)
  {
    seq(k, _ => '0')
  }

  lemma {:induction false} ValueOfZeros(k: nat)
    ensures ValueOf(Zeros(k)) == 0
  {
    if k > 0 {
      assert Zeros(k)[..k - 1] == Zeros(k - 1);
      ValueOfZeros(k - 1);
    }
  }

  /** Go's `fmt.Sprintf("%0*d", width, n)`: the decimal digits of n, left
      padded with '0' up to `width` characters, never truncated. */
  function Pad(n: nat, width: nat): string
  {
    var digits := DecimalString(n);
    if |digits| < width then Zeros(width - |digits|) + digits else digits
  }

  /** Pad yields exactly max(width, |DecimalString(n)|) digits denoting n. */
  lemma PadSpec(n: nat, width: nat)
    ensures IsDigitString(Pad(n, width))
    ensures |Pad(n, width)| == if |DecimalString(n)| < width then width else |DecimalString(n)|
    ensures ValueOf(Pad(n, width)) == n
  {
    var digits := DecimalString(n);
    if |digits| < width {
      var zeros := Zeros(width - |digits|);
      ValueOfConcat(zeros, digits);
      ValueOfZeros(width - |digits|);
      assert ValueOf(zeros) * Pow10(|digits|) == 0;
      assert Pad(n, width) == zeros + digits;
    }
  }

  /** A nonce of the w-digit tier renders as exactly w characters with no
      padding: it fits the w-character placeholder. */
  lemma TierNonceFits(n: nat, w: nat)
    requires w >= 1 && Pow10(w - 1) <= n < Pow10(w)
    ensures Pad(n, w) == DecimalString(n)
    ensures |Pad(n, w)| == w
  {
    DigitsOfTier(n, w);
  }

  /** Two padded renderings of the same number are equal exactly when the
      padded widths agree. */
  lemma {:induction false} PadInjective(n: nat, v: nat, w: nat)
    requires w >= 1 && Pow10(w - 1) <= n < Pow10(w)
    ensures Pad(n, v) == Pad(n, w) <==> v <= w
  {
    TierNonceFits(n, w);
    PadSpec(n, v);
  }

  /** A number's last decimal digit and the rest are unique. */
  lemma LastDigit(x: nat, d: int, y: nat, e: int)
    requires 0 <= d < 10 && 0 <= e < 10 && x * 10 + d == y * 10 + e
    ensures x == y && d == e
  {
  }

  /** Two digit strings of one length denoting the same number are equal. */
  lemma {:induction false} DigitStringsEqual(a: string, b: string)
    requires IsDigitString(a) && IsDigitString(b)
    requires |a| == |b| && ValueOf(a) == ValueOf(b)
    ensures a == b
  {
    if a != [] {
      var a', b' := a[..|a| - 1], b[..|b| - 1];
      LastDigit(ValueOf(a'), a[|a| - 1] as int - '0' as int, ValueOf(b'), b[|b| - 1] as int - '0' as int);
      DigitStringsEqual(a', b');
      assert a == a' + [a[|a| - 1]] && b == b' + [b[|b| - 1]];
    }
  }

  /** "1" followed by k zeros denotes 10^k. */
  lemma OneZerosValue(k: nat)
    ensures IsDigitString(['1'] + Zeros(k))
    ensures ValueOf(['1'] + Zeros(k)) == Pow10(k)
  {
    assert ['1'][..0] == [];
    ValueOfConcat(['1'], Zeros(k));
    ValueOfZeros(k);
  }

  /** The placeholder written into the nonce tag for tier w: the smallest
      w-digit number, "1" followed by w - 1 zeros. */
  function Placeholder(w: nat): (s: string)
    requires w >= 1
    ensures |s| == w && IsDigitString(s) && ValueOf(s) == Pow10(w - 1)
  {
    OneZerosValue(w - 1);
    ['1'] + Zeros(w - 1)
  }

  /** The placeholder is the tier's first nonce zero-padded to w digits,
      the `%0*d` rendering of 10^(w-1). */
  lemma PlaceholderIsPadded(w: nat)
    requires w >= 1
    ensures Placeholder(w) == Pad(Pow10(w - 1), w) == DecimalString(Pow10(w - 1))
  {
    Pow10Monotone(w - 1, w);
    TierNonceFits(Pow10(w - 1), w);
    DigitStringsEqual(Placeholder(w), DecimalString(Pow10(w - 1)));
  }
}
