/** Shared value types, 64-bit arithmetic and text helpers. */
module Common {

  datatype Option<+T> = None | Some(value: T)

  datatype Result<+T, +E> = Ok(value: T) | Err(error: E)

  const TWO_64 := 0x1_0000_0000_0000_0000
  const TWO_32 := 0x1_0000_0000

  type byte = x: int | 0 <= x < 256

  /** Go's uint64. */
  type u64 = x: int | 0 <= x < TWO_64

  /** Go's uint64 addition. */
  function Add64(a: u64, b: u64): u64 { (a + b) % TWO_64 }

  /** The bit of weight 2^i. */
  function Bit(v: nat, i: nat): nat { if i == 0 then v % 2 else Bit(v / 2, i - 1) }

  lemma BitIsBinary(v: nat, i: nat)
    ensures Bit(v, i) == 0 || Bit(v, i) == 1
  {}

  function Max(a: int, b: int): int { if a < b then b else a }

  function Min(a: int, b: int): int { if a < b then a else b }

  function HasPrefix(s: string, prefix: string): bool { prefix <= s }

  function LowerChar(c: char): char { if 'A' <= c <= 'Z' then (c as int + 32) as char else c }

  /** strings.ToLower on ASCII text. */
  function Lower(s: string): string { seq(|s|, i requires 0 <= i < |s| => LowerChar(s[i])) }

  /** Go's `<` on strings: lexicographic. */
  predicate Less(a: string, b: string) {
    b != [] && (a == [] || a[0] < b[0] || (a[0] == b[0] && Less(a[1..], b[1..])))
  }

  lemma LessIrreflexive(a: string)
    ensures !Less(a, a)
  {}

  lemma {:induction false} LessTransitive(a: string, b: string, c: string)
    requires Less(a, b) && Less(b, c)
    ensures Less(a, c)
  {
    if a != [] && a[0] == b[0] == c[0] {
      LessTransitive(a[1..], b[1..], c[1..]);
    }
  }

  lemma {:induction false} LessTotal(a: string, b: string)
    ensures a == b || Less(a, b) || Less(b, a)
  {
    if a != [] && b != [] && a[0] == b[0] {
      LessTotal(a[1..], b[1..]);
      assert a == [a[0]] + a[1..] && b == [b[0]] + b[1..];
    }
  }

  /** fmt's %d for non-negative numbers. */
  function Decimal(n: nat): (s: string)
    ensures |s| > 0
  {
    var digit := ('0' as int + n % 10) as char;
    if n < 10 then [digit] else Decimal(n / 10) + [digit]
  }

  /** fmt's %d. */
  function Decimal64(n: int): string { if n < 0 then "-" + Decimal(-n) else Decimal(n) }

  lemma {:induction false} DecimalInjective(m: nat, n: nat)
    requires Decimal(m) == Decimal(n)
    ensures m == n
  {
    var s, t := Decimal(m), Decimal(n);
    assert s[|s| - 1] == t[|t| - 1];
    if m >= 10 && n >= 10 {
      assert s[..|s| - 1] == Decimal(m / 10) && t[..|t| - 1] == Decimal(n / 10);
      DecimalInjective(m / 10, n / 10);
    }
  }
}
