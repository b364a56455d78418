/** Bytes, little-endian numbers and NUL-terminated strings, as the kernel reads and writes them in
    memory. */
module Bytes {
  type byte = x: int | 0 <= x < 256

  /** The size of a page. */
  const PAGE := 4096

  function Min(a: nat, b: nat): nat {
    if a <= b then a else b
  }

  /** The value that 32 bits of x have as a signed number. */
  function ToInt(x: int): (r: int)
    ensures -0x8000_0000 <= r < 0x8000_0000
  {
    var low := x % 0x1_0000_0000;
    if low < 0x8000_0000 then low else low - 0x1_0000_0000
  }

  function Pow256(n: nat): (p: nat)
    ensures p > 0
  {
    if n == 0 then 1 else 256 * Pow256(n - 1)
  }

  /** Byte k of a number stored little-endian. */
  function Digit(v: nat, k: nat): byte {
    if k == 0 then v % 256 else Digit(v / 256, k - 1)
  }

  function SetDigit(v: nat, k: nat, b: byte): nat {
    if k == 0 then v - v % 256 + b else v % 256 + 256 * SetDigit(v / 256, k - 1, b)
  }

  lemma LowDigit(w: nat, b: byte)
    ensures (b + 256 * w) % 256 == b && (b + 256 * w) / 256 == w
  {
  }

  /** Storing one byte of a number changes that byte and no other. */
  lemma {:induction false} SetDigitIsLocal(v: nat, k: nat, b: byte, j: nat)
    ensures Digit(SetDigit(v, k, b), j) == if j == k then b else Digit(v, j)
  {
    if k == 0 {
      LowDigit(v / 256, b);
    } else {
      LowDigit(SetDigit(v / 256, k - 1, b), v % 256);
      if j > 0 { SetDigitIsLocal(v / 256, k - 1, b, j - 1); }
    }
  }

  lemma BelowPower(v: nat, p: nat)
    requires v < 256 * p
    ensures v / 256 < p && v - v % 256 + 255 < 256 * p
  {
  }

  lemma {:induction false} SetDigitBounded(v: nat, k: nat, b: byte, n: nat)
    requires k < n && v < Pow256(n)
    ensures SetDigit(v, k, b) < Pow256(n)
  {
    BelowPower(v, Pow256(n - 1));
    if k > 0 {
      SetDigitBounded(v / 256, k - 1, b, n - 1);
    }
  }

  function Le(v: nat, n: nat): (s: seq<byte>)
    ensures |s| == n
  {
    if n == 0 then [] else [v % 256] + Le(v / 256, n - 1)
  }

  function FromLe(s: seq<byte>): nat {
    if s == [] then 0 else s[0] + 256 * FromLe(s[1..])
  }

  lemma {:induction false} LeRoundTrip(v: nat, n: nat)
    requires v < Pow256(n)
    ensures FromLe(Le(v, n)) == v
  {
    if n > 0 {
      LeRoundTrip(v / 256, n - 1);
      assert Le(v, n)[1..] == Le(v / 256, n - 1);
    }
  }

  /** Byte k is the one of weight 256^k. */
  lemma {:induction false} DigitByWeight(v: nat, k: nat)
    ensures Digit(v, k) == v / Pow256(k) % 256
  {
    if k > 0 {
      DigitByWeight(v / 256, k - 1);
      DivDiv(v, Pow256(k - 1));
    }
  }

  lemma DivDiv(v: nat, p: nat)
    requires p > 0
    ensures v / 256 / p == v / (256 * p)
  {
    var q, r := v / 256 / p, v / 256 % p;
    assert v / 256 == p * q + r && v == 256 * (v / 256) + v % 256;
    assert v == 256 * p * q + (256 * r + v % 256);
    Quotient(v, 256 * p, q, 256 * r + v % 256);
  }

  lemma Quotient(v: int, d: int, q: int, rest: int)
    requires v == d * q + rest && 0 <= rest < d
    ensures v / d == q
  {
    Multiple(d, v / d - q);
  }

  lemma Multiple(d: nat, x: int)
    ensures x == 0 || d * x >= d || d * x + d <= 0
  {
    if x > 0 { AtLeast(d, x); }
    if x < 0 { AtLeast(d, -x); }
  }

  lemma {:induction false} AtLeast(d: nat, x: nat)
    requires x > 0
    ensures d * x >= d
  {
    if x > 1 { AtLeast(d, x - 1); }
  }

  /** A number read from memory has its byte at offset k in place k: the low byte comes first. */
  lemma {:induction false} FromLeDigits(s: seq<byte>, k: nat)
    requires k < |s|
    ensures Digit(FromLe(s), k) == s[k]
  {
    LowDigit(FromLe(s[1..]), s[0]);
    if k > 0 { FromLeDigits(s[1..], k - 1); }
  }

  /** Storing a number puts its byte of place k at offset k. */
  lemma {:induction false} LeDigits(v: nat, n: nat, k: nat)
    requires k < n
    ensures Le(v, n)[k] == Digit(v, k)
  {
    if k > 0 { LeDigits(v / 256, n - 1, k - 1); }
  }

  /** Bytes before the terminator; no terminator among them. */
  ghost predicate Plain(s: seq<byte>) {
    0 !in s
  }

  /** strlen and the copy it bounds: the bytes from `at` up to the first zero byte. */
  function CString(b: seq<byte>, at: nat): (s: seq<byte>)
    decreases |b| - at
  {
    if at >= |b| || b[at] == 0 then [] else [b[at]] + CString(b, at + 1)
  }

  lemma {:induction false} CStringIs(b: seq<byte>, at: nat, s: seq<byte>)
    requires at + |s| < |b| && b[at..at + |s|] == s && Plain(s) && b[at + |s|] == 0
    ensures CString(b, at) == s
    decreases |s|
  {
    if s != [] {
      assert b[at] == s[0];
      assert b[at + 1..at + 1 + |s[1..]|] == s[1..];
      CStringIs(b, at + 1, s[1..]);
      assert s == [s[0]] + s[1..];
    }
  }

  lemma SliceOfSlice(b: seq<byte>, lo: nat, hi: nat, i: nat, j: nat)
    requires lo <= hi <= |b| && i <= j <= hi - lo
    ensures b[lo..hi][i..j] == b[lo + i..lo + j]
  {
    forall k | 0 <= k < j - i
      ensures b[lo..hi][i..j][k] == b[lo + i..lo + j][k]
    {
      assert b[lo..hi][i..j][k] == b[lo..hi][i + k] == b[lo + i + k];
    }
  }
}
