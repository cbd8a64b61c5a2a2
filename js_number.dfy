/** The JavaScript number operations the services rely on: `parseInt(s, 10)`
    (section 19.2.5 of ECMA-262), `String(n)` / template interpolation of an
    integer, and `String.prototype.padStart` with a one-character filler.
    Numbers are restricted to integers; NaN is kept as its own value. */
module JsNumber {

  /** The result of `parseInt`: NaN, or an integer. */
  datatype IntOrNaN = NaN | Int(value: int)

  /** StrWhiteSpaceChar of ECMA-262: WhiteSpace and LineTerminator code points. */
  predicate IsWhiteSpace(c: char)
  {
    var k := c as int;
    // TAB, VT, FF, SP, NBSP, ZWNBSP
    k == 0x09 || k == 0x0B || k == 0x0C || k == 0x20 || k == 0xA0 || k == 0xFEFF
    // LF, CR, LS, PS
    || k == 0x0A || k == 0x0D || k == 0x2028 || k == 0x2029
    // the remaining space separators (category Zs)
    || k == 0x1680 || (0x2000 <= k <= 0x200A) || k == 0x202F || k == 0x205F || k == 0x3000
  }

  predicate IsDigit(c: char)
  {
    '0' <= c <= '9'
  }

  function DigitValue(c: char): (d: nat)
    requires IsDigit(c)
    ensures d < 10
  {
    (c as int) - ('0' as int)
  }

  function DigitChar(d: nat): (c: char)
    requires d < 10
    ensures IsDigit(c) && DigitValue(c) == d
  {
    (('0' as int) + d) as char
  }

  predicate AllDigits(s: string)
  {
    forall i :: 0 <= i < |s| ==> IsDigit(s[i])
  }

  /** Drops the leading white space, as step 2 of parseInt does. */
  function TrimStart(s: string): (r: string)
    ensures |r| <= |s| && r == s[|s| - |r|..]
    ensures r == [] || !IsWhiteSpace(r[0])
    ensures forall i :: 0 <= i < |s| - |r| ==> IsWhiteSpace(s[i])
  {
    if s != [] && IsWhiteSpace(s[0]) then TrimStart(s[1..]) else s
  }

  /** The longest prefix made of decimal digits. */
  function DigitPrefix(s: string): (r: string)
    ensures |r| <= |s| && r == s[..|r|] && AllDigits(r)
    ensures |r| < |s| ==> !IsDigit(s[|r|])
  {
    if s != [] && IsDigit(s[0]) then [s[0]] + DigitPrefix(s[1..]) else []
  }

  /** The mathematical value of a decimal digit string, most significant digit first. */
  function DigitsValue(s: string): nat
    requires AllDigits(s)
  {
    if s == [] then 0 else DigitsValue(s[..|s| - 1]) * 10 + DigitValue(s[|s| - 1])
  }

  /** The value of the digit run: NaN when it is empty. */
  function DigitsNumber(digits: string): (r: IntOrNaN)
    requires AllDigits(digits)
    ensures r == NaN <==> digits == []
  {
    if digits == [] then NaN else Int(DigitsValue(digits))
  }

  function Negate(x: IntOrNaN): IntOrNaN
  {
    match x
    case NaN => NaN
    case Int(v) => Int(-v)
  }

  /** Steps 4 to 16 of parseInt, on text that starts after the white space:
      one optional sign, then the longest run of decimal digits. */
  function ParseSigned(t: string): IntOrNaN
  {
    if t != [] && t[0] == '-' then Negate(DigitsNumber(DigitPrefix(t[1..])))
    else if t != [] && t[0] == '+' then DigitsNumber(DigitPrefix(t[1..]))
    else DigitsNumber(DigitPrefix(t))
  }

  /** `parseInt(s, 10)`: skip white space, take one optional sign, then the
      longest run of decimal digits; no digits at all gives NaN. */
  function ParseInt(s: string): IntOrNaN
  {
    ParseSigned(TrimStart(s))
  }

  /** NaN exactly when no digit follows the white space and the optional sign. */
  lemma ParseIntNaNIff(s: string)
    ensures var t := TrimStart(s);
            var u := if t != [] && (t[0] == '-' || t[0] == '+') then t[1..] else t;
            ParseInt(s) == NaN <==> (u == [] || !IsDigit(u[0]))
  {
  }

  /** Decimal digits of a natural number, without leading zeros. */
  function FormatNat(n: nat): (s: string)
    ensures |s| >= 1 && AllDigits(s)
    ensures n >= 10 ==> s[0] != '0'
    decreases n
  {
    if n < 10 then [DigitChar(n)] else FormatNat(n / 10) + [DigitChar(n % 10)]
  }

  /** `String(n)` for an integer `n` (also what a template literal interpolates). */
  function FormatInt(n: int): (s: string)
    ensures |s| >= 1
    ensures s[0] == '-' <==> n < 0
  {
    if n < 0 then "-" + FormatNat(-n) else FormatNat(n)
  }

  lemma {:induction false} DigitsValueOfFormatNat(n: nat)
    ensures DigitsValue(FormatNat(n)) == n
    decreases n
  {
    if n >= 10 {
      DigitsValueOfFormatNat(n / 10);
      var s := FormatNat(n);
      assert s[..|s| - 1] == FormatNat(n / 10);
    }
  }

  lemma {:induction false} DigitPrefixOfDigitsThen(d: string, rest: string)
    requires AllDigits(d)
    requires rest == [] || !IsDigit(rest[0])
    ensures DigitPrefix(d + rest) == d
    decreases |d|
  {
    if d != [] {
      assert (d + rest)[1..] == d[1..] + rest;
      DigitPrefixOfDigitsThen(d[1..], rest);
    }
  }

  /** Digits followed by a non-digit parse to the digits' value. */
  lemma ParseIntUnsigned(d: string, rest: string)
    requires d != [] && AllDigits(d)
    requires rest == [] || !IsDigit(rest[0])
    ensures ParseInt(d + rest) == Int(DigitsValue(d))
  {
    var s := d + rest;
    assert s[0] == d[0];
    DigitIsNotSpaceOrSign(s[0]);
    TrimStartUnspaced(s);
    DigitPrefixOfDigitsThen(d, rest);
    assert ParseSigned(s) == DigitsNumber(DigitPrefix(s));
  }

  lemma DigitIsNotSpaceOrSign(c: char)
    requires IsDigit(c)
    ensures !IsWhiteSpace(c) && c != '-' && c != '+'
  {
  }

  lemma TrimStartUnspaced(s: string)
    requires s != [] && !IsWhiteSpace(s[0])
    ensures TrimStart(s) == s
  {
  }

  /** A minus sign, then digits followed by a non-digit, parse to the negated value. */
  lemma ParseIntNegative(d: string, rest: string)
    requires d != [] && AllDigits(d)
    requires rest == [] || !IsDigit(rest[0])
    ensures ParseInt("-" + (d + rest)) == Int(-(DigitsValue(d) as int))
  {
    var u := d + rest;
    var s := "-" + u;
    assert s[0] == '-' && !IsWhiteSpace(s[0]);
    assert s[1..] == u;
    TrimStartUnspaced(s);
    ParseSignedMinus(s);
    DigitPrefixOfDigitsThen(d, rest);
  }

  lemma ParseSignedMinus(t: string)
    requires t != [] && t[0] == '-'
    ensures ParseSigned(t) == Negate(DigitsNumber(DigitPrefix(t[1..])))
  {
  }

  lemma FormatIntThen(n: int, rest: string)
    ensures n < 0 ==> FormatInt(n) + rest == "-" + (FormatNat(-n) + rest)
    ensures n >= 0 ==> FormatInt(n) + rest == FormatNat(n) + rest
  {
  }

  lemma ParseIntFormatInt(n: int, rest: string)
    requires rest == [] || !IsDigit(rest[0])
    ensures ParseInt(FormatInt(n) + rest) == Int(n)
  {
    FormatIntThen(n, rest);
    var m: nat := if n < 0 then -n else n;
    var d := FormatNat(m);
    var s := FormatInt(n) + rest;
    DigitsValueOfFormatNat(m);
    if n < 0 {
      ParseIntNegative(d, rest);
      assert s == "-" + (d + rest);
    } else {
      ParseIntUnsigned(d, rest);
      assert s == d + rest;
    }
  }

  /** The round trip with nothing after the number. */
  lemma ParseIntFormatIntExact(n: int)
    ensures ParseInt(FormatInt(n)) == Int(n)
  {
    ParseIntFormatInt(n, []);
    assert FormatInt(n) + [] == FormatInt(n);
  }

  /** Distinct integers print differently. */
  lemma FormatIntInjective(a: int, b: int)
    requires FormatInt(a) == FormatInt(b)
    ensures a == b
  {
    ParseIntFormatIntExact(a);
    ParseIntFormatIntExact(b);
  }

  /** `s.padStart(width, fill)` with a single filler character. */
  function PadStart(s: string, width: nat, fill: char): (r: string)
    ensures |r| == if |s| >= width then |s| else width
    ensures r[|r| - |s|..] == s
    ensures forall i :: 0 <= i < |r| - |s| ==> r[i] == fill
  {
    if |s| >= width then s else seq(width - |s|, _ => fill) + s
  }

  /** `String(n).padStart(2, '0')`. */
  function Pad2(n: int): string
  {
    PadStart(FormatInt(n), 2, '0')
  }

  /** For 0..99 the padded form is exactly the two decimal digits. */
  lemma Pad2Digits(n: int)
    requires 0 <= n < 100
    ensures Pad2(n) == [DigitChar(n / 10), DigitChar(n % 10)]
  {
    if n >= 10 {
      assert FormatNat(n / 10) == [DigitChar(n / 10)];
    }
  }

  /** A plain digit string parses to its value. */
  lemma ParseIntOfDigits(d: string)
    requires d != [] && AllDigits(d)
    ensures ParseInt(d) == Int(DigitsValue(d))
  {
    ParseIntUnsigned(d, []);
    assert d + [] == d;
  }

  /** Zero padding is undone by parseInt. */
  lemma ParseIntPad2(n: int)
    requires 0 <= n < 100
    ensures |Pad2(n)| == 2 && ParseInt(Pad2(n)) == Int(n)
  {
    Pad2Digits(n);
    var p := [DigitChar(n / 10), DigitChar(n % 10)];
    assert p[..1] == [DigitChar(n / 10)];
    assert p[..1][..0] == [];
    assert DigitsValue(p[..1]) == n / 10;
    assert DigitsValue(p) == n;
    ParseIntOfDigits(p);
  }
}
