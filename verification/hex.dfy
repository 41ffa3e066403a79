/** Python's `hex()` on a non-negative integer, and the parse that reads it back. */
module Hex {
  import opened Wrappers

  function HexDigit(d: nat): char
    requires d < 16
  {
    "0123456789abcdef"[d]
  }

  /** The value of one lower-case hex digit. */
  function DigitValue(ch: char): (r: Option<nat>)
    ensures r.Some? ==> r.value < 16 && HexDigit(r.value) == ch
  {
    if '0' <= ch <= '9' then Some((ch - '0') as nat)
    else if 'a' <= ch <= 'f' then Some((ch - 'a') as nat + 10)
    else None
  }

  /** The digits of `n` in base 16, most significant first and without leading zeros. */
  function HexDigits(n: nat): (s: string)
    ensures |s| >= 1
    decreases n
  {
    if n < 16 then [HexDigit(n)] else HexDigits(n / 16) + [HexDigit(n % 16)]
  }

  /** `hex(n)`: `"0x"` then the digits, so `hex(0) == "0x0"`. */
  function ToHex(n: nat): string
  {
    "0x" + HexDigits(n)
  }

  function ParseDigits(s: string): Option<nat>
  {
    if |s| == 0 then Some(0)
    else
      match (ParseDigits(s[..|s| - 1]), DigitValue(s[|s| - 1]))
      case (Some(high), Some(d)) => Some(16 * high + d)
      case _ => None
  }

  /**
   * `int(s, 16)` on the strings `hex` produces: `"0x"`, then lower-case digits
   * with no leading zero unless the number is 0.
   */
  function ParseHex(s: string): Option<nat>
  {
    if |s| >= 3 && s[..2] == "0x" && (|s| == 3 || s[2] != '0') then ParseDigits(s[2..]) else None
  }

  lemma DigitValueOfHexDigit(d: nat)
    requires d < 16
    ensures DigitValue(HexDigit(d)) == Some(d)
  {
  }

  /** `hex` loses nothing: parsing its output gives the number back. */
  lemma {:induction false} ParseToHex(n: nat)
    ensures ParseHex(ToHex(n)) == Some(n)
  {
    var s := ToHex(n);
    assert s[..2] == "0x" && s[2..] == HexDigits(n);
    if |s| > 3 {
      HexDigitsLead(n);
    }
    ParseHexDigits(n);
  }

  /** The parse accepts only `hex`'s own spelling: a string that parses to `n` is `hex(n)`. */
  lemma ToHexParse(s: string, n: nat)
    requires ParseHex(s) == Some(n)
    ensures s == ToHex(n)
  {
    ParseCanonicalDigits(s[2..], n);
    assert s == s[..2] + s[2..];
  }

  /** `hex` writes a leading zero only for 0. */
  lemma {:induction false} HexDigitsLead(n: nat)
    ensures HexDigits(n)[0] == '0' ==> n == 0
    ensures |HexDigits(n)| > 1 ==> n >= 16
    decreases n
  {
    if n < 16 {
      DigitValueOfHexDigit(n);
    } else {
      HexDigitsLead(n / 16);
    }
  }

  /** Digits without a leading zero (or the single digit `0`) are the digits `hex` writes for their value. */
  lemma {:induction false} ParseCanonicalDigits(t: string, n: nat)
    requires |t| >= 1 && (|t| == 1 || t[0] != '0')
    requires ParseDigits(t) == Some(n)
    ensures t == HexDigits(n)
    decreases |t|
  {
    var init, last := t[..|t| - 1], t[|t| - 1];
    var d := DigitValue(last).value;
    if |t| == 1 {
      assert init == [];
      assert n == d;
    } else {
      var high := ParseDigits(init).value;
      assert init[0] == t[0];
      ParseCanonicalDigits(init, high);
      HexDigitsLead(high);
      assert high != 0;
      assert n == 16 * high + d;
      assert n / 16 == high && n % 16 == d;
      assert t == init + [last];
    }
  }

  lemma {:induction false} ParseHexDigits(n: nat)
    ensures ParseDigits(HexDigits(n)) == Some(n)
    decreases n
  {
    var s := HexDigits(n);
    if n < 16 {
      assert s[..|s| - 1] == [];
      DigitValueOfHexDigit(n);
    } else {
      assert s[..|s| - 1] == HexDigits(n / 16);
      ParseHexDigits(n / 16);
      DigitValueOfHexDigit(n % 16);
    }
  }
}
