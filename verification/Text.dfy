// Characters and decimal numbers as the C library reads and writes them.
module Text {

  predicate IsDigit(c: char) {
    '0' <= c <= '9'
  }

  predicate IsAlpha(c: char) {
    'a' <= c <= 'z' || 'A' <= c <= 'Z'
  }

  predicate IsSpace(c: char) {
    c == ' ' || '\t' <= c <= '\r'
  }

  predicate StartsWith(s: string, c: char) {
    s != "" && s[0] == c
  }

  function DigitChar(d: int): (c: char)
    requires 0 <= d < 10
    ensures IsDigit(c) && DigitValue(c) == d
  {
    '0' + d as char
  }

  function DigitValue(c: char): (d: int)
    requires IsDigit(c)
    ensures 0 <= d < 10
  {
    (c - '0') as int
  }

  function Decimal(n: nat): (s: string)
    ensures s != "" && forall i :: 0 <= i < |s| ==> IsDigit(s[i])
  {
    if n < 10 then [DigitChar(n)] else Decimal(n / 10) + [DigitChar(n % 10)]
  }

  // "%ld"
  function Integer(n: int): string {
    if n < 0 then "-" + Decimal(-n) else Decimal(n)
  }

  // The digits at the front of s, on top of those already read.
  function ReadDigits(s: string, acc: nat): (r: (nat, string))
    ensures |r.1| <= |s|
  {
    if s != "" && IsDigit(s[0]) then ReadDigits(s[1..], acc * 10 + DigitValue(s[0])) else (acc, s)
  }

  lemma {:induction false} ReadAppended(a: string, b: string, acc: nat)
    requires forall i :: 0 <= i < |a| ==> IsDigit(a[i])
    ensures ReadDigits(a + b, acc) == ReadDigits(b, ReadDigits(a, acc).0)
  {
    if a == "" {
      assert a + b == b;
    } else {
      assert (a + b)[1..] == a[1..] + b;
      ReadAppended(a[1..], b, acc * 10 + DigitValue(a[0]));
    }
  }

  lemma {:induction false} DecimalValue(n: nat)
    ensures ReadDigits(Decimal(n), 0).0 == n
  {
    if n >= 10 {
      DecimalValue(n / 10);
      ReadAppended(Decimal(n / 10), [DigitChar(n % 10)], 0);
      assert [DigitChar(n % 10)][1..] == "";
    }
  }

  // A number is read back whole when no further digit follows it.
  lemma ReadDecimal(n: nat, rest: string)
    requires rest == "" || !IsDigit(rest[0])
    ensures ReadDigits(Decimal(n) + rest, 0) == (n, rest)
  {
    ReadAppended(Decimal(n), rest, 0);
    DecimalValue(n);
  }

  function SkipSpace(s: string): (r: string)
    ensures |r| <= |s|
  {
    if s != "" && IsSpace(s[0]) then SkipSpace(s[1..]) else s
  }

  function Atoi(s: string): int {
    var s := SkipSpace(s);
    if StartsWith(s, '-') then var n: int := ReadDigits(s[1..], 0).0; -n
    else if StartsWith(s, '+') then ReadDigits(s[1..], 0).0
    else ReadDigits(s, 0).0
  }

  // What a signed number of 32 bits makes of n.
  function Wrap(n: int): (r: int)
    ensures Int(r)
  {
    (n + 0x8000_0000) % 0x1_0000_0000 - 0x8000_0000
  }

  predicate Int(n: int) {
    -0x8000_0000 <= n < 0x8000_0000
  }

  const LONG_MAX := 0x7FFF_FFFF_FFFF_FFFF

  // atoi as an int: strtol does not pass the limits of 64 bits, and the lower 32
  // bits are kept.
  function AtoInt(s: string): (r: int)
    ensures Int(r)
  {
    var n := Atoi(s);
    Wrap(if n > LONG_MAX then LONG_MAX else if n < -LONG_MAX - 1 then -LONG_MAX - 1 else n)
  }

  lemma IntegerAtoInt(n: int)
    requires Int(n)
    ensures AtoInt(Integer(n)) == n
  {
    if n >= 0 {
      DecimalAtoi(n);
    } else {
      DecimalAtoi(-n);
      assert ("-" + Decimal(-n))[1..] == Decimal(-n);
    }
  }

  lemma DecimalAtoi(n: nat)
    ensures Atoi(Decimal(n)) == n && ReadDigits(Decimal(n), 0) == (n, "")
  {
    ReadDecimal(n, "");
    assert Decimal(n) + "" == Decimal(n);
  }

  lemma {:induction false} DecimalLength(n: nat, k: nat)
    requires k > 0 && n < Power(k)
    ensures |Decimal(n)| <= k
  {
    if n >= 10 {
      DecimalLength(n / 10, k - 1);
    }
  }

  // Ten to the k-th.
  function Power(k: nat): nat {
    if k == 0 then 1 else 10 * Power(k - 1)
  }

  lemma Regroup(a: string, b: string, c: string)
    ensures a + b + c == a + (b + c)
  {
  }
}
