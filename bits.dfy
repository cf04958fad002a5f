/** Bit strings as the solvers build them: `format(i, '0Nb')` (binary digits,
    most significant first, left-padded with '0' to width N, never truncated),
    `[int(b) for b in s]`, and the integer a bit list stands for. */
module Bits {
  import opened Wrappers
  import opened Vectors

  function Pow2(n: nat): (r: nat)
    ensures r >= 1
  {
    if n == 0 then 1 else 2 * Pow2(n - 1)
  }

  /** The binary digits of i, most significant first, without leading zeros
      ("0" for zero), as Python's format(i, 'b'). */
  function BinaryDigits(i: nat): (b: seq<int>)
    ensures |b| >= 1
    decreases i
  {
    if i < 2 then [i] else BinaryDigits(i / 2) + [i % 2]
  }

  function Zeros(k: nat): (z: seq<int>)
    ensures |z| == k && forall j :: 0 <= j < k ==> z[j] == 0
  {
    seq(k, _ => 0)
  }

  /** `[int(b) for b in format(i, '0{n}b')]`. */
  function BitsOf(i: nat, n: nat): seq<int> {
    var b := BinaryDigits(i);
    if |b| >= n then b else Zeros(n - |b|) + b
  }

  function DigitChar(b: int): char {
    if b == 1 then '1' else '0'
  }

  /** `format(i, '0{n}b')`. */
  function Format(i: nat, n: nat): string {
    var b := BitsOf(i, n);
    seq(|b|, k requires 0 <= k < |b| => DigitChar(b[k]))
  }

  predicate IsDigit(c: char) {
    '0' <= c <= '9'
  }

  /** `[int(b) for b in s]`: None when some character is not a decimal digit
      (Python raises ValueError there). */
  function ParseDigits(s: string): (r: Option<seq<int>>)
    ensures r.Some? <==> forall k :: 0 <= k < |s| ==> IsDigit(s[k])
    ensures r.Some? ==> |r.value| == |s| && NonNegative(r.value)
    ensures r.Some? ==> forall k :: 0 <= k < |s| ==> r.value[k] == s[k] as int - '0' as int
  {
    if forall k :: 0 <= k < |s| ==> IsDigit(s[k])
    then Some(seq(|s|, k requires 0 <= k < |s| => s[k] as int - '0' as int))
    else None
  }

  /** The integer that a most-significant-first bit list stands for. */
  function Value(b: seq<int>): int {
    if |b| == 0 then 0 else 2 * Value(b[..|b| - 1]) + b[|b| - 1]
  }

  lemma {:induction false} BinaryDigitsBinary(i: nat)
    ensures IsBinary(BinaryDigits(i))
    decreases i
  {
    if i >= 2 {
      BinaryDigitsBinary(i / 2);
    }
  }

  lemma {:induction false} BinaryDigitsValue(i: nat)
    ensures Value(BinaryDigits(i)) == i
    decreases i
  {
    if i >= 2 {
      var b := BinaryDigits(i);
      assert b[..|b| - 1] == BinaryDigits(i / 2);
      BinaryDigitsValue(i / 2);
    }
  }

  /** The digits of i fit in n >= 1 places exactly when i < 2^n. */
  lemma {:induction false} BinaryDigitsLength(i: nat, n: nat)
    requires n >= 1
    ensures |BinaryDigits(i)| <= n <==> i < Pow2(n)
    decreases n
  {
    if n > 1 && i >= 2 {
      BinaryDigitsLength(i / 2, n - 1);
    }
  }

  lemma {:induction false} ZerosPrefixValue(k: nat, b: seq<int>)
    ensures Value(Zeros(k) + b) == Value(b)
    decreases |b|
  {
    if |b| == 0 {
      assert Zeros(k) + b == Zeros(k);
      ZerosValue(k);
    } else {
      assert (Zeros(k) + b)[..|Zeros(k) + b| - 1] == Zeros(k) + b[..|b| - 1];
      ZerosPrefixValue(k, b[..|b| - 1]);
    }
  }

  lemma {:induction false} ZerosValue(k: nat)
    ensures Value(Zeros(k)) == 0
  {
    if k > 0 {
      assert Zeros(k)[..k - 1] == Zeros(k - 1);
      ZerosValue(k - 1);
    }
  }

  /** `format(i, '0Nb')` has length N for every i below 2^N, holds only
      0/1 digits, and decodes back to i. */
  lemma {:induction false} BitsOfRoundTrip(i: nat, n: nat)
    ensures IsBinary(BitsOf(i, n)) && Value(BitsOf(i, n)) == i
    ensures n >= 1 && i < Pow2(n) ==> |BitsOf(i, n)| == n
  {
    var b := BinaryDigits(i);
    BinaryDigitsBinary(i);
    BinaryDigitsValue(i);
    if |b| < n {
      ZerosPrefixValue(n - |b|, b);
    }
    if n >= 1 {
      BinaryDigitsLength(i, n);
    }
  }

  lemma {:induction false} BinaryValueBounds(y: seq<int>)
    requires IsBinary(y)
    ensures 0 <= Value(y) < Pow2(|y|)
    ensures Value(y) == 0 ==> y == Zeros(|y|)
  {
    if |y| > 0 {
      var y' := y[..|y| - 1];
      BinaryValueBounds(y');
      if Value(y) == 0 {
        assert y == y' + [y[|y| - 1]];
      }
    }
  }

  /** Every 0/1 list of length N >= 1 is `format(v, '0Nb')` of its own value v,
      which is below 2^N: the exhaustive search over range(2**N) meets every
      bit string of length N. */
  lemma {:induction false} ValueRoundTrip(y: seq<int>)
    requires IsBinary(y) && |y| >= 1
    ensures 0 <= Value(y) < Pow2(|y|)
    ensures BitsOf(Value(y), |y|) == y
    decreases |y|
  {
    BinaryValueBounds(y);
    var n := |y|;
    var y' := y[..n - 1];
    var b := y[n - 1];
    assert y == y' + [b];
    BinaryValueBounds(y');
    var v := Value(y');
    if v == 0 {
      assert y' == Zeros(n - 1);
      SingleBitFormat(b, n);
    } else {
      ValueRoundTrip(y');
      AppendBitFormat(y', b, v);
    }
  }

  /** A single bit b padded to n places is n - 1 zeros and b. */
  lemma {:induction false} SingleBitFormat(b: int, n: nat)
    requires (b == 0 || b == 1) && n >= 1
    ensures BitsOf(b, n) == Zeros(n - 1) + [b]
  {
    assert BinaryDigits(b) == [b];
  }

  /** Appending bit b to the padded digits of v gives the padded digits of 2v + b. */
  lemma {:induction false} AppendBitFormat(y': seq<int>, b: int, v: nat)
    requires (b == 0 || b == 1) && v >= 1 && |y'| >= 1
    requires v < Pow2(|y'|) && BitsOf(v, |y'|) == y'
    ensures BitsOf(2 * v + b, |y'| + 1) == y' + [b]
  {
    var n := |y'|;
    assert (2 * v + b) / 2 == v && (2 * v + b) % 2 == b;
    assert BinaryDigits(2 * v + b) == BinaryDigits(v) + [b];
    BinaryDigitsLength(v, n);
    var d := BinaryDigits(v);
    if |d| < n {
      assert y' == Zeros(n - |d|) + d;
      assert Zeros(n + 1 - |d + [b]|) + (d + [b]) == (Zeros(n - |d|) + d) + [b];
    }
  }

  /** Parsing `format(i, '0Nb')` character by character gives the bit list. */
  lemma {:induction false} FormatParses(i: nat, n: nat)
    ensures ParseDigits(Format(i, n)) == Some(BitsOf(i, n))
  {
    BitsOfRoundTrip(i, n);
    var s := Format(i, n);
    var b := BitsOf(i, n);
    assert forall k :: 0 <= k < |s| ==> IsDigit(s[k]);
    var r := ParseDigits(s).value;
    assert forall k :: 0 <= k < |b| ==> r[k] == b[k] by {
      forall k | 0 <= k < |b| ensures r[k] == b[k] {
        assert s[k] == DigitChar(b[k]);
      }
    }
    assert r == b;
  }

  /** Distinct indices have distinct formatted keys. */
  lemma {:induction false} FormatInjective(i: nat, k: nat, n: nat)
    requires Format(i, n) == Format(k, n)
    ensures i == k
  {
    FormatParses(i, n);
    FormatParses(k, n);
    BitsOfRoundTrip(i, n);
    BitsOfRoundTrip(k, n);
  }
}
