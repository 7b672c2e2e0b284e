/** `parseInt(s, 10)` of ECMAScript (section 19.2.5 of ECMA-262), as the
    counter applies it to the text of its target field.

    Leading white space and line terminators are skipped, one `+` or `-`
    sign is read, then the longest run of decimal digits; the rest of the
    string is ignored. With no digit the result is NaN, `None` here. The
    result is an exact integer: the rounding of very long digit runs to a
    double is not part of this model, and `-0` is read as 0. */
module JsParseInt {
  import opened Wrappers

  /** The WhiteSpace and LineTerminator code points of sections 12.2 and
      12.3 of ECMA-262, which parseInt trims from the start. */
  predicate IsJsSpace(c: char) {
    || c == '\t' || c == '\U{000B}' || c == '\U{000C}' || c == ' '
    || c == '\U{00A0}' || c == '\U{FEFF}' || c == '\U{1680}'
    || ('\U{2000}' <= c <= '\U{200A}')
    || c == '\U{202F}' || c == '\U{205F}' || c == '\U{3000}'
    || c == '\n' || c == '\r' || c == '\U{2028}' || c == '\U{2029}'
  }

  predicate IsDigit(c: char) {
    '0' <= c <= '9'
  }

  function DigitValue(c: char): nat
    requires IsDigit(c)
  {
    c as int - '0' as int
  }

  function DigitChar(d: nat): char
    requires d < 10
  {
    ('0' as int + d) as char
  }

  /** `s` without its leading white space. */
  function TrimStart(s: string): string {
    if s != [] && IsJsSpace(s[0]) then TrimStart(s[1..]) else s
  }

  /** The longest prefix of `s` made of decimal digits. */
  function DigitPrefix(s: string): string {
    if s != [] && IsDigit(s[0]) then [s[0]] + DigitPrefix(s[1..]) else []
  }

  /** The value of a run of decimal digits, most significant first. */
  function DigitsValue(ds: string): nat
    requires forall i | 0 <= i < |ds| :: IsDigit(ds[i])
  {
    if ds == [] then 0
    else DigitsValue(ds[..|ds| - 1]) * 10 + DigitValue(ds[|ds| - 1])
  }

  lemma {:induction false} DigitPrefixIsDigits(s: string)
    ensures forall i | 0 <= i < |DigitPrefix(s)| :: IsDigit(DigitPrefix(s)[i])
    ensures |DigitPrefix(s)| <= |s|
  {
    if s != [] && IsDigit(s[0]) {
      DigitPrefixIsDigits(s[1..]);
    }
  }

  /** `t` without one leading `+` or `-` sign. */
  function Unsigned(t: string): string {
    if t != [] && (t[0] == '-' || t[0] == '+') then t[1..] else t
  }

  /** `parseInt(s, 10)`, `None` standing for NaN: NaN exactly when no digit
      follows the white space and the optional sign; a negative result
      only after a `-`, a positive one only without it. */
  function ParseInt(s: string): (r: Option<int>)
    ensures r.None? <==> Unsigned(TrimStart(s)) == [] || !IsDigit(Unsigned(TrimStart(s))[0])
    ensures r.Some? && r.value < 0 ==> TrimStart(s)[0] == '-'
    ensures r.Some? && r.value > 0 ==> TrimStart(s)[0] != '-'
  {
    var t := TrimStart(s);
    var negative := t != [] && t[0] == '-';
    var body := Unsigned(t);
    var z := DigitPrefix(body);
    DigitPrefixIsDigits(body);
    var v: int := if z == [] then 0 else DigitsValue(z);
    if z == [] then None
    else if negative then Some(-v)
    else Some(v)
  }

  /** The shortest decimal spelling of `n`. */
  function Decimal(n: nat): (r: string)
    ensures r != [] && forall i | 0 <= i < |r| :: IsDigit(r[i])
  {
    if n < 10 then [DigitChar(n)] else Decimal(n / 10) + [DigitChar(n % 10)]
  }

  lemma {:induction false} DecimalValue(n: nat)
    ensures DigitsValue(Decimal(n)) == n
  {
    var d := Decimal(n);
    if n >= 10 {
      DecimalValue(n / 10);
      assert d[..|d| - 1] == Decimal(n / 10);
    }
  }

  lemma {:induction false} DigitPrefixOfDigits(ds: string, tail: string)
    requires forall i | 0 <= i < |ds| :: IsDigit(ds[i])
    requires tail == [] || !IsDigit(tail[0])
    ensures DigitPrefix(ds + tail) == ds
  {
    if ds != [] {
      assert (ds + tail)[1..] == ds[1..] + tail;
      DigitPrefixOfDigits(ds[1..], tail);
    } else {
      assert ds + tail == tail;
    }
  }

  lemma {:induction false} TrimStartSkipsSpace(ws: string, s: string)
    requires forall i | 0 <= i < |ws| :: IsJsSpace(ws[i])
    ensures TrimStart(ws + s) == TrimStart(s)
  {
    if ws != [] {
      assert (ws + s)[1..] == ws[1..] + s;
      TrimStartSkipsSpace(ws[1..], s);
    } else {
      assert ws + s == s;
    }
  }

  /** parseInt reads back the decimal spelling of a number, with or without
      a sign, after any white space and before any text that does not
      continue the digits: `parseInt(" 30abc", 10)` is 30. */
  lemma ParseIntReadsDecimal(ws: string, negative: bool, n: nat, tail: string)
    requires forall i | 0 <= i < |ws| :: IsJsSpace(ws[i])
    requires tail == [] || !IsDigit(tail[0])
    ensures ParseInt(ws + (if negative then "-" else "") + Decimal(n) + tail)
         == Some(if negative then -(n as int) else n as int)
  {
    var sign: string := if negative then "-" else "";
    var d := Decimal(n);
    var rest := sign + d + tail;
    assert ws + sign + d + tail == ws + rest;
    TrimStartSkipsSpace(ws, rest);
    assert rest[0] == if negative then '-' else d[0];
    assert TrimStart(rest) == rest;
    assert Unsigned(rest) == d + tail;
    DigitPrefixOfDigits(d, tail);
    DecimalValue(n);
  }

  /** Text whose first non-space character is neither a digit nor a sign
      followed by a digit reads as NaN. */
  lemma ParseIntNaN(ws: string, tail: string)
    requires forall i | 0 <= i < |ws| :: IsJsSpace(ws[i])
    requires tail == [] || (!IsDigit(tail[0]) && !IsJsSpace(tail[0]) && tail[0] != '-' && tail[0] != '+')
    ensures ParseInt(ws + tail) == None
  {
    TrimStartSkipsSpace(ws, tail);
  }
}
