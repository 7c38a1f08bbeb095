/** Printing and parsing of integers as text, and big-endian byte forms. */
module Numerals {
  import opened Results

  function DigitChar(d: nat): (c: char)
    requires d < 10
    ensures '0' <= c <= '9'
  {
    '0' + d as char
  }

  /** The value of a digit in bases up to 16. */
  function DigitValue(c: char): Option<nat> {
    if '0' <= c <= '9' then Some((c - '0') as nat)
    else if 'a' <= c <= 'f' then Some((c - 'a') as nat + 10)
    else if 'A' <= c <= 'F' then Some((c - 'A') as nat + 10)
    else None
  }

  function Digits(n: nat): string {
    if n < 10 then [DigitChar(n)] else Digits(n / 10) + [DigitChar(n % 10)]
  }

  /** Decimal text of an integer. */
  function ToText(n: int): string {
    if n < 0 then ['-'] + Digits(-n) else Digits(n)
  }

  function FromDigits(s: string, radix: nat): Option<nat> {
    if s == [] then Some(0)
    else
      match (FromDigits(s[..|s| - 1], radix), DigitValue(s[|s| - 1]))
      case (Some(n), Some(d)) => if d < radix then Some(n * radix + d) else None
      case _ => None
  }

  /** Digits with an optional sign; a minus is a digit error for unsigned types, and the range is checked. */
  function ParseRadix(s: string, radix: nat, low: int, high: int): Option<int> {
    if s == [] then None
    else
      var signed := s[0] == '+' || (s[0] == '-' && low < 0);
      var digits := if signed then s[1..] else s;
      if digits == [] then None
      else
        match FromDigits(digits, radix)
        case None => None
        case Some(n) =>
          var v: int := if s[0] == '-' then -(n as int) else n;
          if low <= v < high then Some(v) else None
  }

  /** Hexadecimal after `0x`, decimal otherwise. */
  function ParseNumber(s: string, low: int, high: int): Option<int> {
    if |s| >= 2 && s[0] == '0' && (s[1] == 'x' || s[1] == 'X') then ParseRadix(s[2..], 16, low, high)
    else ParseRadix(s, 10, low, high)
  }

  lemma {:induction false} DigitsInvert(n: nat)
    ensures FromDigits(Digits(n), 10) == Some(n)
    ensures Digits(n) != [] && forall c :: c in Digits(n) ==> '0' <= c <= '9'
  {
    if n < 10 {
      assert Digits(n)[..0] == [];
    } else {
      DigitsInvert(n / 10);
      var s := Digits(n);
      assert s[..|s| - 1] == Digits(n / 10);
    }
  }

  lemma ParsePlain(s: string, n: nat, low: int, high: int)
    requires s != [] && '0' <= s[0] <= '9' && FromDigits(s, 10) == Some(n) && low <= n < high
    ensures ParseRadix(s, 10, low, high) == Some(n)
  {
  }

  lemma ParseMinus(s: string, n: nat, low: int, high: int)
    requires s != [] && FromDigits(s, 10) == Some(n) && low <= -(n as int) < high && low < 0
    ensures ParseRadix(['-'] + s, 10, low, high) == Some(-(n as int))
  {
    assert (['-'] + s)[1..] == s;
  }

  /** Parsing the decimal text of a number in range gives the number back. */
  lemma TextRoundTrip(n: int, low: int, high: int)
    requires low <= n < high && low <= 0
    ensures ParseNumber(ToText(n), low, high) == Some(n)
  {
    if n < 0 {
      DigitsInvert(-n);
      ParseMinus(Digits(-n), -n, low, high);
    } else {
      DigitsInvert(n);
      var s := Digits(n);
      assert s[0] in s && (|s| >= 2 ==> s[1] in s);
      ParsePlain(s, n, low, high);
    }
  }

  // ----- Texts that printing does not produce -----

  function Power(base: nat, k: nat): nat {
    if k == 0 then 1 else base * Power(base, k - 1)
  }

  /** The value of a text of digits: each digit times the weight of its place. */
  ghost function Positional(s: string, radix: nat): nat {
    if s == [] then 0
    else (match DigitValue(s[0]) case None => 0 case Some(d) => d) * Power(radix, |s| - 1) + Positional(s[1..], radix)
  }

  ghost predicate AllDigits(s: string, radix: nat) {
    forall c :: c in s ==> DigitValue(c).Some? && DigitValue(c).value < radix
  }

  /** The sixteen digits, in lower and upper case, and nothing else. */
  lemma DigitsAre(c: char, d: nat)
    ensures DigitValue(c) == Some(d) <==> d < 16 && (c == "0123456789abcdef"[d] || c == "0123456789ABCDEF"[d])
  {
  }

  lemma {:induction false} PositionalSnoc(s: string, c: char, radix: nat)
    requires DigitValue(c).Some?
    ensures Positional(s + [c], radix) == Positional(s, radix) * radix + DigitValue(c).value
  {
    if s == [] {
      assert s + [c] == [c] && [c][1..] == [];
    } else {
      assert (s + [c])[1..] == s[1..] + [c];
      PositionalSnoc(s[1..], c, radix);
      var d := match DigitValue(s[0]) case None => 0 case Some(d) => d;
      ShiftPlace(d, Power(radix, |s| - 1), radix, Positional(s[1..], radix), DigitValue(c).value);
    }
  }

  lemma ShiftPlace(d: nat, p: nat, radix: nat, rest: nat, x: nat)
    ensures d * (radix * p) + (rest * radix + x) == (d * p + rest) * radix + x
  {
    assert d * (radix * p) == (d * p) * radix;
  }

  lemma {:induction false} FromDigitsIsPositional(s: string, radix: nat)
    ensures FromDigits(s, radix) == if AllDigits(s, radix) then Some(Positional(s, radix)) else None
  {
    if s != [] {
      var last := |s| - 1;
      var front, c := s[..last], s[last];
      assert s == front + [c];
      FromDigitsIsPositional(front, radix);
      AllDigitsSnoc(front, c, radix);
      if DigitValue(c).Some? {
        PositionalSnoc(front, c, radix);
      }
    }
  }

  lemma AllDigitsSnoc(s: string, c: char, radix: nat)
    ensures AllDigits(s + [c], radix) <==> AllDigits(s, radix) && DigitValue(c).Some? && DigitValue(c).value < radix
  {
    assert c in s + [c];
    assert forall x :: x in s ==> x in s + [c];
  }

  /**
   A text that starts with `0x` or `0X` denotes the number with the hexadecimal digits that follow, if there
   is at least one, all are digits and the number is in range.
   */
  lemma HexText(x: char, s: string, low: int, high: int)
    requires (x == 'x' || x == 'X') && s != [] && s[0] != '+' && s[0] != '-'
    ensures ParseNumber(['0', x] + s, low, high) ==
            if AllDigits(s, 16) && low <= Positional(s, 16) < high then Some(Positional(s, 16)) else None
  {
    assert (['0', x] + s)[2..] == s;
    FromDigitsIsPositional(s, 16);
  }

  /** A plus sign is allowed, a minus sign only where negative numbers exist. */
  lemma SignedText(sign: char, s: string, low: int, high: int)
    requires (sign == '+' || sign == '-') && s != [] && AllDigits(s, 10)
    ensures var v := if sign == '+' then Positional(s, 10) else -(Positional(s, 10) as int);
            ParseNumber([sign] + s, low, high) == if (sign == '+' || low < 0) && low <= v < high then Some(v) else None
  {
    assert ([sign] + s)[1..] == s;
    FromDigitsIsPositional(s, 10);
    FromDigitsIsPositional([sign] + s, 10);
    assert sign in [sign] + s;
  }

  /** A decimal text without a sign or prefix denotes the number with its digits. */
  lemma DecimalText(s: string, low: int, high: int)
    requires s != [] && s[0] != '+' && s[0] != '-' && (|s| < 2 || (s[1] != 'x' && s[1] != 'X'))
    ensures ParseNumber(s, low, high) ==
            if AllDigits(s, 10) && low <= Positional(s, 10) < high then Some(Positional(s, 10)) else None
  {
    FromDigitsIsPositional(s, 10);
  }

  // ----- Big-endian bytes -----

  function Power256(k: nat): nat {
    if k == 0 then 1 else 256 * Power256(k - 1)
  }

  /** The `k` low bytes of a number, most significant first. */
  function ToBytes(n: nat, k: nat): seq<nat>
    decreases k
  {
    if k == 0 then [] else ToBytes(n / 256, k - 1) + [n % 256]
  }

  function FromBytes(bytes: seq<nat>): nat {
    if bytes == [] then 0 else FromBytes(bytes[..|bytes| - 1]) * 256 + bytes[|bytes| - 1]
  }

  lemma {:induction false} BytesInvert(n: nat, k: nat)
    requires n < Power256(k)
    ensures |ToBytes(n, k)| == k && (forall b :: b in ToBytes(n, k) ==> b < 256)
    ensures FromBytes(ToBytes(n, k)) == n
    decreases k
  {
    if k > 0 {
      BytesInvert(n / 256, k - 1);
      var bytes := ToBytes(n, k);
      assert bytes[..|bytes| - 1] == ToBytes(n / 256, k - 1);
    }
  }

  lemma {:induction false} FromBytesConcat(a: seq<nat>, b: seq<nat>)
    ensures FromBytes(a + b) == FromBytes(a) * Power256(|b|) + FromBytes(b)
  {
    if b == [] {
      assert a + b == a;
    } else {
      var last := |b| - 1;
      assert (a + b)[..|a + b| - 1] == a + b[..last];
      FromBytesConcat(a, b[..last]);
      ShiftSum(FromBytes(a), Power256(last), FromBytes(b[..last]), b[last]);
    }
  }

  lemma {:induction false} FromBytesBound(bytes: seq<nat>)
    requires forall b :: b in bytes ==> b < 256
    ensures FromBytes(bytes) < Power256(|bytes|)
  {
    if bytes != [] {
      var last := |bytes| - 1;
      assert bytes[last] in bytes;
      forall b | b in bytes[..last]
        ensures b < 256
      {
        assert b in bytes;
      }
      FromBytesBound(bytes[..last]);
    }
  }

  /** Cutting the bytes of a number after the first `i` divides it by the weight of the rest. */
  lemma CutBytes(n: nat, k: nat, i: nat)
    requires n < Power256(k) && i <= k
    ensures |ToBytes(n, k)| == k
    ensures var (high, low) := (FromBytes(ToBytes(n, k)[..i]), FromBytes(ToBytes(n, k)[i..]));
            n == high * Power256(k - i) + low && low < Power256(k - i)
  {
    BytesInvert(n, k);
    var bytes := ToBytes(n, k);
    FromBytesConcat(bytes[..i], bytes[i..]);
    assert bytes == bytes[..i] + bytes[i..];
    forall b | b in bytes[i..]
      ensures b < 256
    {
      assert b in bytes;
    }
    FromBytesBound(bytes[i..]);
  }

  lemma ShiftSum(x: nat, p: nat, y: nat, d: nat)
    ensures (x * p + y) * 256 + d == x * (256 * p) + (y * 256 + d)
  {
    assert (x * p) * 256 == x * (256 * p);
  }
}
