/** The pieces of Go's string handling the assembler relies on: the UTF-8 bytes of a string (what
    `len(s)`, `s[0]` and `[]byte(s)` see), `unicode.IsLetter` applied to one byte, and the
    `%x` / `%d` formatting of non-negative numbers. A string here is a sequence of Unicode scalar
    values, so its bytes are always valid UTF-8; a Go string holding other bytes has no
    counterpart. */
module Text {
  import opened Int64

  /** The UTF-8 encoding of one Unicode scalar value. */
  function Utf8Char(c: char): (bs: seq<Byte>)
    ensures 1 <= |bs| <= 4
    ensures (c as int < 0x80) <==> |bs| == 1
    ensures c as int < 0x80 ==> bs == [c as int]
    ensures c as int >= 0x80 ==> 0xC2 <= bs[0] <= 0xF4
  {
    var n := c as int;
    if n < 0x80 then [n]
    else if n < 0x800 then [0xC0 + n / 64, 0x80 + n % 64]
    else if n < 0x1_0000 then [0xE0 + n / 4096, 0x80 + (n / 64) % 64, 0x80 + n % 64]
    else [0xF0 + n / 0x4_0000, 0x80 + (n / 4096) % 64, 0x80 + (n / 64) % 64, 0x80 + n % 64]
  }

  /** The bytes of a Go string holding the characters `s`. */
  function Utf8(s: string): (bs: seq<Byte>)
    ensures |bs| >= |s|
    ensures |s| > 0 ==> |bs| > 0 && bs[0] == Utf8Char(s[0])[0]
  {
    if |s| == 0 then [] else Utf8Char(s[0]) + Utf8(s[1..])
  }

  predicate IsAscii(s: string)
  {
    forall i :: 0 <= i < |s| ==> s[i] as int < 0x80
  }

  /** Pure ASCII text has one byte per character. */
  lemma {:induction false} Utf8Ascii(s: string)
    requires IsAscii(s)
    ensures Utf8(s) == seq(|s|, i requires 0 <= i < |s| => s[i] as int)
  {
    if |s| > 0 {
      Utf8Ascii(s[1..]);
    }
  }

  /** The letters of Latin-1, the code points below 256 in Unicode's letter categories. */
  predicate IsLatin1Letter(b: Byte)
  {
    || 0x41 <= b <= 0x5A || 0x61 <= b <= 0x7A
    || b == 0xAA || b == 0xB5 || b == 0xBA
    || (0xC0 <= b <= 0xFF && b != 0xD7 && b != 0xF7)
  }

  function DigitChar(d: nat): (c: char)
    requires d < 16
  {
    "0123456789abcdef"[d]
  }

  function DigitValue(c: char): nat
  {
    if '0' <= c <= '9' then c as int - '0' as int
    else if 'a' <= c <= 'f' then c as int - 'a' as int + 10
    else 0
  }

  lemma DigitRoundTrip(d: nat)
    requires d < 16
    ensures DigitValue(DigitChar(d)) == d
  {
    var digits := "0123456789abcdef";
    assert digits[0] == '0' && digits[9] == '9' && digits[10] == 'a' && digits[15] == 'f';
  }

  /** `n` written in base 2..16 with lower-case digits and no leading zeros. */
  function Numeral(n: nat, base: nat): (s: string)
    requires 2 <= base <= 16
    ensures |s| >= 1
    decreases n
  {
    if n < base then [DigitChar(n)] else Numeral(n / base, base) + [DigitChar(n % base)]
  }

  /** The value of a numeral, the inverse of `Numeral`. */
  function NumeralValue(s: string, base: nat): nat
  {
    if |s| == 0 then 0 else NumeralValue(s[..|s| - 1], base) * base + DigitValue(s[|s| - 1])
  }

  /** `fmt.Sprintf("%x", n)`. */
  function Hex(n: nat): string { Numeral(n, 16) }

  /** `fmt.Sprintf("%d", n)`. */
  function Decimal(n: nat): string { Numeral(n, 10) }

  lemma DivMod(n: nat, b: nat)
    requires b > 0
    ensures (n / b) * b + n % b == n
  {}

  lemma {:induction false} NumeralRoundTrip(n: nat, base: nat)
    requires 2 <= base <= 16
    ensures NumeralValue(Numeral(n, base), base) == n
    decreases n
  {
    var s := Numeral(n, base);
    if n < base {
      DigitRoundTrip(n);
      assert s[..0] == [];
    } else {
      var q, d := n / base, n % base;
      var t := Numeral(q, base);
      assert s == t + [DigitChar(d)];
      assert s[..|s| - 1] == t;
      DivShrinks(n, base);
      NumeralRoundTrip(q, base);
      DigitRoundTrip(d);
      var vt := NumeralValue(t, base);
      assert vt == q;
      assert NumeralValue(s, base) == vt * base + DigitValue(DigitChar(d));
      DivMod(n, base);
    }
  }

  /** Numerals of positive numbers have no leading zero. */
  lemma {:induction false} NumeralLeadingDigit(n: nat, base: nat)
    requires 2 <= base <= 16
    ensures Numeral(n, base)[0] == '0' <==> n == 0
    decreases n
  {
    if n < base {
      if n > 0 {
        DigitRoundTrip(n);
        assert DigitValue(DigitChar(n)) != DigitValue('0');
      }
    } else {
      DivShrinks(n, base);
      NumeralLeadingDigit(n / base, base);
    }
  }

  /** The hexadecimal token of a character reads back as its code point. */
  lemma HexRoundTrip(n: nat)
    ensures NumeralValue(Hex(n), 16) == n
    ensures Hex(n)[0] == '0' <==> n == 0
  {
    NumeralRoundTrip(n, 16);
    NumeralLeadingDigit(n, 16);
  }

  /** Decimal numerals start with an ASCII digit. */
  lemma {:induction false} DecimalLeadingDigit(n: nat)
    ensures '0' <= Decimal(n)[0] <= '9'
    decreases n
  {
    if n < 10 {
      var digits := "0123456789abcdef";
      assert digits[0] == '0' && digits[1] == '1' && digits[2] == '2' && digits[3] == '3' && digits[4] == '4';
      assert digits[5] == '5' && digits[6] == '6' && digits[7] == '7' && digits[8] == '8' && digits[9] == '9';
    } else {
      DivShrinks(n, 10);
      DecimalLeadingDigit(n / 10);
      assert Decimal(n)[0] == Decimal(n / 10)[0];
    }
  }

  lemma DecimalRoundTrip(n: nat)
    ensures NumeralValue(Decimal(n), 10) == n
    ensures Decimal(n)[0] == '0' <==> n == 0
  {
    NumeralRoundTrip(n, 10);
    NumeralLeadingDigit(n, 10);
  }
}
