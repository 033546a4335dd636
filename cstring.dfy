/** The pieces of the C and C++ standard libraries that the tile-name parser relies on:
    `std::toupper`, `std::isspace`, `std::isdigit` in the "C" locale, and `std::stoi`
    in base 10 (which is `strtol` followed by a range check against `int`). */
module CString {
  import opened Wrappers

  const INT_MIN: int := -0x8000_0000
  const INT_MAX: int := 0x7FFF_FFFF

  /** `std::isspace` in the "C" locale. */
  predicate IsSpace(c: char) {
    c == ' ' || c == '\t' || c == '\n' || c == '\U{000B}' || c == '\U{000C}' || c == '\r'
  }

  predicate IsDigit(c: char) {
    '0' <= c <= '9'
  }

  function DigitValue(c: char): (d: nat)
    requires IsDigit(c)
    ensures d < 10
  {
    (c as int) - ('0' as int)
  }

  /** `std::toupper` in the "C" locale: only the 26 lower-case ASCII letters change. */
  function ToUpper(c: char): (u: char)
    ensures 'a' <= c <= 'z' ==> 'A' <= u <= 'Z' && u as int == c as int - 32
    ensures !('a' <= c <= 'z') ==> u == c
  {
    if 'a' <= c <= 'z' then ((c as int) - 32) as char else c
  }

  predicate AllSpaces(s: string) {
    forall i :: 0 <= i < |s| ==> IsSpace(s[i])
  }

  predicate AllDigits(s: string) {
    forall i :: 0 <= i < |s| ==> IsDigit(s[i])
  }

  /** Length of the longest prefix of `s` made of white space. */
  function SpacePrefix(s: string): (n: nat)
    ensures n <= |s| && AllSpaces(s[..n])
    ensures n < |s| ==> !IsSpace(s[n])
  {
    if s != [] && IsSpace(s[0]) then
      var n := 1 + SpacePrefix(s[1..]);
      assert s[..n] == [s[0]] + s[1..][..n - 1];
      n
    else 0
  }

  /** Length of the longest prefix of `s` made of decimal digits. */
  function DigitPrefix(s: string): (n: nat)
    ensures n <= |s| && AllDigits(s[..n])
    ensures n < |s| ==> !IsDigit(s[n])
  {
    if s != [] && IsDigit(s[0]) then
      var n := 1 + DigitPrefix(s[1..]);
      assert s[..n] == [s[0]] + s[1..][..n - 1];
      n
    else 0
  }

  function Pow10(n: nat): (p: nat)
    ensures p >= 1
  {
    if n == 0 then 1 else 10 * Pow10(n - 1)
  }

  /** The number a string of decimal digits denotes, most significant digit first. */
  function DecimalValue(d: string): (v: nat)
    requires AllDigits(d)
    ensures v < Pow10(|d|)
  {
    if d == [] then 0 else DecimalValue(d[..|d| - 1]) * 10 + DigitValue(d[|d| - 1])
  }

  /** The number spelled by the digits at the start of `u`, if there is at least one. */
  function LeadingDigits(u: string): (r: Option<nat>)
    ensures r.None? <==> u == [] || !IsDigit(u[0])
  {
    var n := DigitPrefix(u);
    if n == 0 then None else Some(DecimalValue(u[..n]))
  }

  /** An optional `+` or `-` followed by digits, as `strtol` reads it after the white space. */
  function SignedDigits(t: string): Option<int> {
    if t != [] && (t[0] == '-' || t[0] == '+') then
      match LeadingDigits(t[1..])
      case None => None
      case Some(m) => Some(if t[0] == '-' then -(m as int) else m)
    else
      match LeadingDigits(t)
      case None => None
      case Some(m) => Some(m)
  }

  /** `std::stoi(s)`: skip leading white space, read an optional sign and then as many
      decimal digits as follow. No digit at all is `std::invalid_argument`, a value outside
      the range of `int` is `std::out_of_range`; both exceptions are `None` here. */
  function Stoi(s: string): (r: Option<int>)
    ensures r.Some? ==> INT_MIN <= r.value <= INT_MAX
  {
    InIntRange(SignedDigits(s[SpacePrefix(s)..]))
  }

  /** The range check `std::stoi` adds to `strtol`. */
  function InIntRange(r: Option<int>): Option<int> {
    match r
    case None => None
    case Some(v) => if v < INT_MIN || v > INT_MAX then None else Some(v)
  }

  /** A string of `n` characters never denotes a number of more than `n` digits. */
  lemma {:induction false} StoiBound(s: string)
    ensures Stoi(s).Some? ==> -(Pow10(|s|) as int) < Stoi(s).value < Pow10(|s|)
  {
    var t := s[SpacePrefix(s)..];
    var u := if t != [] && (t[0] == '-' || t[0] == '+') then t[1..] else t;
    Pow10Monotonic(DigitPrefix(u), |s|);
  }

  lemma {:induction false} Pow10Monotonic(m: nat, n: nat)
    requires m <= n
    ensures Pow10(m) <= Pow10(n)
  {
    if m < n {
      Pow10Monotonic(m, n - 1);
    }
  }

  /** The optional sign in front of the digits. */
  datatype Sign = NoSign | Plus | Minus

  function SignText(sign: Sign): (t: string)
    ensures |t| <= 1
  {
    match sign
    case NoSign => []
    case Plus => ['+']
    case Minus => ['-']
  }

  /** White space followed by something that is not white space: the prefix is exactly `ws`. */
  lemma {:induction false} SpacePrefixOf(ws: string, after: string)
    requires AllSpaces(ws)
    requires after != [] ==> !IsSpace(after[0])
    ensures SpacePrefix(ws + after) == |ws|
    ensures (ws + after)[SpacePrefix(ws + after)..] == after
  {
    if ws == [] {
      assert ws + after == after;
    } else {
      assert (ws + after)[1..] == ws[1..] + after;
      SpacePrefixOf(ws[1..], after);
    }
  }

  /** Digits followed by something that is not a digit: they are read as one number. */
  lemma {:induction false} DigitPrefixOf(digits: string, rest: string)
    requires AllDigits(digits)
    requires rest != [] ==> !IsDigit(rest[0])
    ensures DigitPrefix(digits + rest) == |digits|
    ensures (digits + rest)[..|digits|] == digits
  {
    if digits == [] {
      assert digits + rest == rest;
    } else {
      assert (digits + rest)[1..] == digits[1..] + rest;
      DigitPrefixOf(digits[1..], rest);
    }
  }

  /** The grammar `stoi` accepts, stated independently of its definition: white space,
      an optional sign, at least one digit, then anything that does not begin with a digit.
      Up to nine digits always fit in an `int`. */
  lemma {:induction false} StoiAccepts(ws: string, sign: Sign, digits: string, rest: string)
    requires AllSpaces(ws)
    requires 1 <= |digits| <= 9 && AllDigits(digits)
    requires rest == [] || !IsDigit(rest[0])
    ensures Stoi(ws + SignText(sign) + digits + rest)
         == Some(if sign == Minus then -(DecimalValue(digits) as int) else DecimalValue(digits))
  {
    var after := SignText(sign) + digits + rest;
    assert ws + SignText(sign) + digits + rest == ws + after;
    SignedDigitsOf(sign, digits, rest);
    StoiSkipsSpaces(ws, after);
    Pow10Monotonic(|digits|, 9);
    Pow10Nine();
  }

  lemma {:induction false} StoiSkipsSpaces(ws: string, after: string)
    requires AllSpaces(ws)
    requires after != [] ==> !IsSpace(after[0])
    ensures Stoi(ws + after) == InIntRange(SignedDigits(after))
  {
    SpacePrefixOf(ws, after);
  }

  lemma {:induction false} SignedDigitsOf(sign: Sign, digits: string, rest: string)
    requires 1 <= |digits| && AllDigits(digits)
    requires rest == [] || !IsDigit(rest[0])
    ensures var t := SignText(sign) + digits + rest;
      t != [] && !IsSpace(t[0]) &&
      SignedDigits(t) == Some(if sign == Minus then -(DecimalValue(digits) as int) else DecimalValue(digits))
  {
    DigitPrefixOf(digits, rest);
    assert LeadingDigits(digits + rest) == Some(DecimalValue(digits));
    assert SignText(sign) + digits + rest == SignText(sign) + (digits + rest);
    SignedDigitsAfterSign(sign, digits + rest, DecimalValue(digits));
  }

  lemma {:induction false} SignedDigitsAfterSign(sign: Sign, u: string, m: nat)
    requires LeadingDigits(u) == Some(m)
    ensures var t := SignText(sign) + u;
      t != [] && !IsSpace(t[0]) && SignedDigits(t) == Some(if sign == Minus then -(m as int) else m)
  {
    var t := SignText(sign) + u;
    if sign == NoSign {
      assert t == u;
      assert u[0] != '-' && u[0] != '+';
    } else {
      assert t[1..] == u;
    }
  }

  lemma Pow10Nine()
    ensures Pow10(9) == 1_000_000_000
  {
  }

  /** `stoi` throws when no digit follows the white space and the optional sign; after a sign
      that includes white space and a second sign. */
  lemma {:induction false} StoiRejects(ws: string, sign: Sign, rest: string)
    requires AllSpaces(ws)
    requires rest != [] ==> !IsDigit(rest[0]) &&
                            (sign == NoSign ==> !IsSpace(rest[0]) && rest[0] != '+' && rest[0] != '-')
    ensures Stoi(ws + SignText(sign) + rest).None?
  {
    var after := SignText(sign) + rest;
    assert ws + SignText(sign) + rest == ws + after;
    if sign == NoSign {
      assert after == rest;
    } else {
      assert after[1..] == rest;
    }
    SpacePrefixOf(ws, after);
  }
}
