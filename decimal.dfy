/**
 * The two number/string conversions the ledger relies on: `Number.prototype.toString()`
 * for integers and `parseInt(value, 10)`. Only integers are modelled.
 */
module Decimal {
  /** A JavaScript number read back from text: an integer, or NaN when no digit was found. */
  datatype Parsed = Number(value: int) | NaN

  predicate IsDigit(c: char) { '0' <= c <= '9' }

  function DigitChar(d: nat): (c: char)
    requires d < 10
    ensures IsDigit(c)
  {
    ('0' as int + d) as char
  }

  function DigitValue(c: char): nat
    requires IsDigit(c)
  {
    c as int - '0' as int
  }

  /** Decimal digits of n, most significant first, without leading zeros. */
  function NatToString(n: nat): (s: string)
    ensures |s| >= 1 && forall i :: 0 <= i < |s| ==> IsDigit(s[i])
    ensures |s| > 1 ==> s[0] != '0'
  {
    if n < 10 then [DigitChar(n)] else NatToString(n / 10) + [DigitChar(n % 10)]
  }

  /** `n.toString()` for an integer n. */
  function IntToString(n: int): string {
    if n < 0 then "-" + NatToString(-n) else NatToString(n)
  }

  /** `IntToString` writes a minus sign exactly for a negative n, then digits only, whose value is |n|. */
  lemma IntToStringDenotes(n: int)
    ensures |IntToString(n)| >= 1 && (IntToString(n)[0] == '-' <==> n < 0)
    ensures var s := IntToString(n); var digits := if n < 0 then s[1..] else s;
      && |digits| >= 1 && (forall i :: 0 <= i < |digits| ==> IsDigit(digits[i]))
      && DigitsValue(digits) == if n < 0 then -n else n
  {
    DigitsValueOfNatToString(if n < 0 then -n else n);
    var s := IntToString(n);
    if n < 0 {
      assert s[1..] == NatToString(-n);
    }
  }

  /** The value of a string of digits. */
  function DigitsValue(s: string): nat
    requires forall i :: 0 <= i < |s| ==> IsDigit(s[i])
  {
    if |s| == 0 then 0 else DigitsValue(s[..|s| - 1]) * 10 + DigitValue(s[|s| - 1])
  }

  /** The longest prefix of s made of digits. */
  function LeadingDigits(s: string): (d: string)
    ensures |d| <= |s| && d == s[..|d|]
    ensures forall i :: 0 <= i < |d| ==> IsDigit(d[i])
    ensures |d| < |s| ==> !IsDigit(s[|d|])
  {
    if |s| == 0 || !IsDigit(s[0]) then [] else [s[0]] + LeadingDigits(s[1..])
  }

  /**
   * The white space `parseInt` skips: tab, vertical tab, form feed, the byte-order mark,
   * the space separators (category Zs) and the line terminators.
   */
  predicate IsSpace(c: char) {
    || c == '\t' || c == '\n' || c == '\U{000B}' || c == '\U{000C}' || c == '\r' || c == ' '
    || c == '\U{00A0}' || c == '\U{1680}' || '\U{2000}' <= c <= '\U{200A}'
    || c == '\U{2028}' || c == '\U{2029}' || c == '\U{202F}' || c == '\U{205F}'
    || c == '\U{3000}' || c == '\U{FEFF}'
  }

  function TrimStart(s: string): (r: string)
    ensures |r| <= |s| && (|r| > 0 ==> !IsSpace(r[0]))
  {
    if |s| > 0 && IsSpace(s[0]) then TrimStart(s[1..]) else s
  }

  /** `TrimStart` removes a prefix made only of white space and keeps the rest as it is. */
  lemma {:induction false} TrimStartStrips(s: string)
    ensures TrimStart(s) == s[|s| - |TrimStart(s)|..]
    ensures forall i :: 0 <= i < |s| - |TrimStart(s)| ==> IsSpace(s[i])
  {
    if |s| > 0 && IsSpace(s[0]) {
      TrimStartStrips(s[1..]);
      assert s[1..][|s| - 1 - |TrimStart(s)|..] == s[|s| - |TrimStart(s)|..];
      forall i | 1 <= i < |s| - |TrimStart(s)|
        ensures IsSpace(s[i])
      {
        assert s[i] == s[1..][i - 1];
      }
    }
  }

  /**
   * `parseInt(s, 10)`: skip leading white space, read an optional sign and then as many
   * digits as there are; NaN when there are none. Trailing text is ignored.
   */
  function ParseInt(s: string): (r: Parsed)
    ensures r.NaN? <==> |LeadingDigits(Unsigned(TrimStart(s)))| == 0
    ensures r.Number? ==> exists k :: 0 <= k < |s| && IsDigit(s[k])
    ensures r.Number? && r.value < 0 ==> |TrimStart(s)| > 0 && TrimStart(s)[0] == '-'
  {
    var t := TrimStart(s);
    TrimStartStrips(s);
    assert forall k :: 0 <= k < |t| ==> t[k] == s[|s| - |t| + k];
    ParseSigned(t)
  }

  /** The text after one leading sign, if there is one. */
  function Unsigned(t: string): string {
    if |t| > 0 && (t[0] == '-' || t[0] == '+') then t[1..] else t
  }

  /** The text after the white space: an optional sign, then the leading digits. */
  function ParseSigned(t: string): (r: Parsed)
    ensures r.NaN? <==> |LeadingDigits(Unsigned(t))| == 0
    ensures r.Number? ==> exists k :: 0 <= k < |t| && IsDigit(t[k])
    ensures r.Number? && r.value < 0 ==> |t| > 0 && t[0] == '-'
  {
    var negative := |t| > 0 && t[0] == '-';
    var body := Unsigned(t);
    var digits := LeadingDigits(body);
    if |digits| == 0 then NaN
    else
      assert IsDigit(t[|t| - |body|]);
      var magnitude: int := DigitsValue(digits);
      Number(if negative then -magnitude else magnitude)
  }

  lemma {:induction false} DigitsValueOfNatToString(n: nat)
    ensures DigitsValue(NatToString(n)) == n
  {
    if n >= 10 {
      DigitsValueOfNatToString(n / 10);
      var s := NatToString(n);
      assert s[..|s| - 1] == NatToString(n / 10);
    }
  }

  lemma {:induction false} LeadingDigitsStop(d: string, rest: string)
    requires forall i :: 0 <= i < |d| ==> IsDigit(d[i])
    requires |rest| > 0 ==> !IsDigit(rest[0])
    ensures LeadingDigits(d + rest) == d
  {
    if |d| > 0 {
      LeadingDigitsStop(d[1..], rest);
      assert (d + rest)[1..] == d[1..] + rest;
    }
  }

  lemma {:induction false} TrimStartSkips(ws: string, t: string)
    requires forall i :: 0 <= i < |ws| ==> IsSpace(ws[i])
    requires |t| > 0 && !IsSpace(t[0])
    ensures TrimStart(ws + t) == t
  {
    if |ws| > 0 {
      TrimStartSkips(ws[1..], t);
      assert (ws + t)[1..] == ws[1..] + t;
    }
  }

  /** `ParseSigned` reads the leading digits after an optional sign, negated after a minus sign. */
  lemma ParseSignedValue(t: string, d: string)
    requires |d| > 0 && LeadingDigits(Unsigned(t)) == d
    ensures ParseSigned(t) == Number(if |t| > 0 && t[0] == '-' then -(DigitsValue(d) as int) else DigitsValue(d))
  {
  }

  /** `ParseInt` skips the white space and reads the rest with `ParseSigned`. */
  lemma ParseIntSkips(ws: string, t: string)
    requires forall i :: 0 <= i < |ws| ==> IsSpace(ws[i])
    requires |t| > 0 && !IsSpace(t[0])
    ensures ParseInt(ws + t) == ParseSigned(t)
  {
    TrimStartSkips(ws, t);
  }

  /** Text that does not start with white space is read by `ParseSigned` as it is. */
  lemma ParseIntUnspaced(t: string)
    requires |t| > 0 && !IsSpace(t[0])
    ensures ParseInt(t) == ParseSigned(t)
  {
  }

  /** After the white space: an optional sign and the digits up to the first non-digit. */
  lemma ParseSignedReads(sign: string, d: string, rest: string)
    requires sign == "" || sign == "+" || sign == "-"
    requires |d| > 0 && forall i :: 0 <= i < |d| ==> IsDigit(d[i])
    requires |rest| > 0 ==> !IsDigit(rest[0])
    ensures ParseSigned(sign + (d + rest)) == Number(if sign == "-" then -(DigitsValue(d) as int) else DigitsValue(d))
  {
    var t := sign + (d + rest);
    var body := Unsigned(t);
    assert body == d + rest && ((|t| > 0 && t[0] == '-') <==> sign == "-") by {
      if sign == "" {
        assert t == d + rest && t[0] == d[0];
      } else {
        assert t[0] == sign[0] && t[1..] == d + rest;
      }
    }
    assert LeadingDigits(body) == d by {
      LeadingDigitsStop(d, rest);
    }
    ParseSignedValue(t, d);
  }

  /** After the (absent) white space, the sign and digits `toString` wrote read back as n. */
  lemma ParseSignedOfIntToString(n: int)
    ensures ParseSigned(IntToString(n)) == Number(n)
  {
    var m := if n < 0 then -n else n;
    var sign := if n < 0 then "-" else "";
    DigitsValueOfNatToString(m);
    assert IntToString(n) == sign + (NatToString(m) + "");
    ParseSignedReads(sign, NatToString(m), "");
  }

  /** Reading back what `toString` wrote gives the same integer. */
  lemma ParseIntOfIntToString(n: int)
    ensures ParseInt(IntToString(n)) == Number(n)
  {
    var t := IntToString(n);
    ParseSignedOfIntToString(n);
    assert |t| > 0 && !IsSpace(t[0]) by {
      assert t[0] == '-' || IsDigit(t[0]);
    }
    ParseIntUnspaced(t);
  }
}
