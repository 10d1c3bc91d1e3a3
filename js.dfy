/** The few JavaScript value semantics that the handlers' decisions depend
    on: the whitespace class `\s`, `parseInt` with no radix, `String(n)` for
    an integer, and the property names every plain object inherits. */
module Js {

  /** A number produced by `parseInt`: either `NaN` or an integer. */
  datatype JsInt = NaN | Finite(value: int)

  /** Membership in the regular-expression class `\s` (white space and line
      terminators), which `parseInt` also skips at the front of its input. */
  predicate IsSpace(c: char)
  {
    c == ' ' || c == '\t' || c == '\n' || c == '\U{B}' || c == '\U{C}' || c == '\r'
    || c == '\U{A0}' || c == '\U{1680}' || ('\U{2000}' <= c <= '\U{200A}')
    || c == '\U{2028}' || c == '\U{2029}' || c == '\U{202F}' || c == '\U{205F}'
    || c == '\U{3000}' || c == '\U{FEFF}'
  }

  /** The value of `c` as a digit in base `radix` (10 or 16), if it is one. */
  function DigitValue(c: char, radix: nat): (d: int)
    requires radix == 10 || radix == 16
    ensures -1 <= d < radix
  {
    if '0' <= c <= '9' then c as int - '0' as int
    else if radix == 16 && 'a' <= c <= 'f' then c as int - 'a' as int + 10
    else if radix == 16 && 'A' <= c <= 'F' then c as int - 'A' as int + 10
    else -1
  }

  predicate IsDigit(c: char, radix: nat)
    requires radix == 10 || radix == 16
  {
    DigitValue(c, radix) >= 0
  }

  /** `s` without its leading white space. */
  function TrimStart(s: string): (r: string)
    ensures |r| <= |s| && r == s[|s| - |r|..]
    ensures forall i :: 0 <= i < |s| - |r| ==> IsSpace(s[i])
    ensures r == [] || !IsSpace(r[0])
  {
    if s != [] && IsSpace(s[0]) then TrimStart(s[1..]) else s
  }

  /** The longest prefix of `s` made of digits of base `radix`. */
  function DigitPrefix(s: string, radix: nat): (z: string)
    requires radix == 10 || radix == 16
    ensures |z| <= |s| && z == s[..|z|]
    ensures forall i :: 0 <= i < |z| ==> IsDigit(z[i], radix)
    ensures |z| == |s| || !IsDigit(s[|z|], radix)
  {
    if s != [] && IsDigit(s[0], radix) then [s[0]] + DigitPrefix(s[1..], radix) else []
  }

  /** The value of a string of digits, most significant first. */
  function DigitsValue(z: string, radix: nat): (v: nat)
    requires radix == 10 || radix == 16
    requires forall i :: 0 <= i < |z| ==> IsDigit(z[i], radix)
  {
    if z == [] then 0
    else
      assert IsDigit(z[|z| - 1], radix);
      DigitsValue(z[..|z| - 1], radix) * radix + DigitValue(z[|z| - 1], radix)
  }

  /** `parseInt(s)` with no radix argument: skip leading white space, take an
      optional sign, then read the magnitude. Trailing garbage is ignored. */
  function ParseInt(s: string): JsInt
  {
    var t := TrimStart(s);
    if t != [] && t[0] == '-' then Negate(ParseMagnitude(t[1..]))
    else if t != [] && t[0] == '+' then ParseMagnitude(t[1..])
    else ParseMagnitude(t)
  }

  function Negate(x: JsInt): JsInt
  {
    if x.NaN? then NaN else Finite(-x.value)
  }

  /** Base 16 after a `0x`/`0X` prefix, base 10 otherwise. */
  function ParseMagnitude(u: string): (r: JsInt)
    ensures r.Finite? ==> r.value >= 0
  {
    if |u| >= 2 && u[0] == '0' && (u[1] == 'x' || u[1] == 'X') then ParseDigits(u[2..], 16)
    else ParseDigits(u, 10)
  }

  /** The longest digit prefix read as a number; `NaN` when it is empty. */
  function ParseDigits(w: string, radix: nat): (r: JsInt)
    requires radix == 10 || radix == 16
    ensures r.Finite? ==> r.value >= 0
  {
    var z := DigitPrefix(w, radix);
    if z == [] then NaN else Finite(DigitsValue(z, radix))
  }

  /** Decimal digits of a natural number, most significant first, without
      leading zeros (`"0"` for zero). */
  function NatToString(n: nat): (s: string)
    ensures s != [] && forall i :: 0 <= i < |s| ==> '0' <= s[i] <= '9'
    ensures |s| > 1 ==> s[0] != '0'
  {
    if n < 10 then [('0' as int + n) as char]
    else NatToString(n / 10) + [('0' as int + n % 10) as char]
  }

  /** `String(n)` for an integer `n`, as a client formats `Date.now()`. */
  function IntToString(n: int): (s: string)
  {
    if n < 0 then "-" + NatToString(-n) else NatToString(n)
  }

  lemma {:induction false} DigitsValueOfNat(n: nat)
    ensures forall i :: 0 <= i < |NatToString(n)| ==> IsDigit(NatToString(n)[i], 10)
    ensures DigitsValue(NatToString(n), 10) == n
  {
    var s := NatToString(n);
    if n >= 10 {
      DigitsValueOfNat(n / 10);
      assert s[..|s| - 1] == NatToString(n / 10);
    }
  }

  lemma MagnitudeOfNatToString(m: nat)
    ensures ParseMagnitude(NatToString(m)) == Finite(m)
  {
    var digits := NatToString(m);
    DigitsValueOfNat(m);
    DigitPrefixOfDigits(digits, 10);
    assert !(|digits| >= 2 && digits[0] == '0');
  }

  /** Reading back what `String(n)` wrote gives `n`: a client that sends
      `String(Date.now())` in a header is read by the server as that instant. */
  lemma ParseIntOfIntToString(n: int)
    ensures ParseInt(IntToString(n)) == Finite(n)
  {
    var m: nat := if n < 0 then -n else n;
    var s, digits := IntToString(n), NatToString(m);
    MagnitudeOfNatToString(m);
    assert !IsSpace(s[0]) by {
      assert s[0] == '-' || '0' <= s[0] <= '9';
    }
    assert TrimStart(s) == s;
    if n < 0 {
      assert s[0] == '-' && s[1..] == digits;
    } else {
      assert s == digits && s[0] != '-' && s[0] != '+';
    }
  }

  lemma {:induction false} DigitPrefixOfDigits(z: string, radix: nat)
    requires radix == 10 || radix == 16
    requires forall i :: 0 <= i < |z| ==> IsDigit(z[i], radix)
    ensures DigitPrefix(z, radix) == z
  {
    if z != [] {
      DigitPrefixOfDigits(z[1..], radix);
    }
  }

  /** `parseInt` reads a number only from a string that holds a decimal
      digit. */
  lemma ParseIntNeedsADigit(s: string)
    requires ParseInt(s).Finite?
    ensures exists i :: 0 <= i < |s| && '0' <= s[i] <= '9'
  {
    var t := TrimStart(s);
    var u := if t != [] && (t[0] == '-' || t[0] == '+') then t[1..] else t;
    assert u == s[|s| - |u|..];
    var w := if |u| >= 2 && u[0] == '0' && (u[1] == 'x' || u[1] == 'X') then u[2..] else u;
    if w == u {
      var z := DigitPrefix(u, 10);
      assert z != [] && '0' <= u[0] <= '9';
      assert s[|s| - |u|] == u[0];
    } else {
      assert u[0] == '0' && s[|s| - |u|] == u[0];
    }
  }

  /** A header that is not a number at all reads as `NaN`. */
  lemma ParseIntWithoutDigits(s: string)
    requires forall i :: 0 <= i < |s| ==> !('0' <= s[i] <= '9')
    ensures ParseInt(s) == NaN
  {
  }

  /** The names every plain JavaScript object answers through its prototype
      (`Object.prototype`); looking one of them up in a literal table gives a
      truthy value although the table never declared it. */
  const ObjectPrototypeNames: set<string> :=
    {"constructor", "toString", "toLocaleString", "valueOf", "hasOwnProperty",
     "isPrototypeOf", "propertyIsEnumerable", "__proto__", "__defineGetter__",
     "__defineSetter__", "__lookupGetter__", "__lookupSetter__"}
}
