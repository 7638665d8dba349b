/** The slice of JavaScript semantics the backend and frontend rely on:
    JSON values and their truthiness, String.prototype.trim, parseInt,
    Array.prototype.splice, String(int) and padStart(2, '0'). */
module Js {
  import opened Util

  /** A JSON value as it arrives in a request body or sits in a document.
      Numbers are exact reals: NaN and the infinities cannot occur in JSON. */
  datatype JsValue =
    | JNull
    | JBool(b: bool)
    | JNum(n: real)
    | JStr(s: string)
    | JArr(items: seq<JsValue>)
    | JObj(fields: map<string, JsValue>)

  /** ToBoolean of a JSON value. */
  predicate Truthy(v: JsValue) {
    match v
    case JNull => false
    case JBool(b) => b
    case JNum(n) => n != 0.0
    case JStr(s) => s != ""
    case JArr(_) => true
    case JObj(_) => true
  }

  /** Number.isInteger. */
  predicate IsInteger(v: JsValue) {
    v.JNum? && v.n == v.n.Floor as real
  }

  /** The WhiteSpace and LineTerminator code points that trim and parseInt skip. */
  predicate IsSpace(c: char) {
    c == ' ' || c == '\t' || c == '\n' || c == '\r' || c == '\U{000B}' || c == '\U{000C}'
    || c == '\U{00A0}' || c == '\U{FEFF}' || c == '\U{1680}' || ('\U{2000}' <= c <= '\U{200A}')
    || c == '\U{2028}' || c == '\U{2029}' || c == '\U{202F}' || c == '\U{205F}' || c == '\U{3000}'
  }

  function TrimStart(s: string): (r: string)
    ensures |r| <= |s| && r == s[|s| - |r|..]
    ensures |r| > 0 ==> !IsSpace(r[0])
    ensures forall i :: 0 <= i < |s| - |r| ==> IsSpace(s[i])
  {
    if |s| > 0 && IsSpace(s[0]) then TrimStart(s[1..]) else s
  }

  function TrimEnd(s: string): (r: string)
    ensures |r| <= |s| && r == s[..|r|]
    ensures |r| > 0 ==> !IsSpace(r[|r| - 1])
    ensures forall i :: |r| <= i < |s| ==> IsSpace(s[i])
  {
    if |s| > 0 && IsSpace(s[|s| - 1]) then TrimEnd(s[..|s| - 1]) else s
  }

  /** String.prototype.trim. */
  function Trim(s: string): string {
    TrimEnd(TrimStart(s))
  }

  predicate IsBlank(s: string) {
    forall i :: 0 <= i < |s| ==> IsSpace(s[i])
  }

  /** A string trims to the empty string exactly when it is all white space. */
  lemma TrimEmptyIffBlank(s: string)
    ensures Trim(s) == "" <==> IsBlank(s)
  {
    var t := TrimStart(s);
    if Trim(s) == "" {
      assert |t| == 0;
    } else {
      assert !IsSpace(Trim(s)[0]);
      assert TrimEnd(t)[0] == t[0] == s[|s| - |t|];
    }
  }

  /** A trimmed string has no white space at either end. */
  lemma TrimHasNoOuterSpace(s: string)
    ensures var t := Trim(s); |t| > 0 ==> !IsSpace(t[0]) && !IsSpace(t[|t| - 1])
  {
    var t := TrimStart(s);
    var r := TrimEnd(t);
    if |r| > 0 {
      assert r[0] == t[0];
    }
  }

  predicate IsHexDigit(c: char) {
    IsDigit(c) || ('a' <= c <= 'f') || ('A' <= c <= 'F')
  }

  function HexValue(c: char): nat
    requires IsHexDigit(c)
  {
    if IsDigit(c) then DigitValue(c)
    else if 'a' <= c <= 'f' then (c as int) - ('a' as int) + 10
    else (c as int) - ('A' as int) + 10
  }

  predicate IsRadixDigit(c: char, hex: bool) {
    if hex then IsHexDigit(c) else IsDigit(c)
  }

  /** The longest prefix of s made of digits of the radix. */
  function DigitPrefix(s: string, hex: bool): (r: string)
    ensures |r| <= |s| && r == s[..|r|]
    ensures forall i :: 0 <= i < |r| ==> IsRadixDigit(r[i], hex)
    ensures |r| < |s| ==> !IsRadixDigit(s[|r|], hex)
  {
    if |s| > 0 && IsRadixDigit(s[0], hex) then [s[0]] + DigitPrefix(s[1..], hex) else ""
  }

  function RadixValue(s: string, hex: bool): nat
    requires forall i :: 0 <= i < |s| ==> IsRadixDigit(s[i], hex)
  {
    if |s| == 0 then 0
    else
      var last := s[|s| - 1];
      assert IsRadixDigit(last, hex);
      (if hex then 16 else 10) * RadixValue(s[..|s| - 1], hex)
        + (if hex then HexValue(last) else DigitValue(last))
  }

  /** The digits after an optional sign: a "0x"/"0X" prefix selects radix 16,
      otherwise radix 10; None when no digit follows. */
  function ParseUnsigned(u: string): Option<nat>
  {
    var hex := |u| >= 2 && u[0] == '0' && (u[1] == 'x' || u[1] == 'X');
    var digits := DigitPrefix(if hex then u[2..] else u, hex);
    if |digits| == 0 then None else Some(RadixValue(digits, hex))
  }

  /** parseInt(s) with no radix argument; None stands for NaN. */
  function ParseInt(s: string): Option<int>
  {
    var t := TrimStart(s);
    if |t| > 0 && t[0] == '-' then
      match ParseUnsigned(t[1..])
      case None => None
      case Some(m) => Some(-(m as int))
    else if |t| > 0 && t[0] == '+' then
      match ParseUnsigned(t[1..])
      case None => None
      case Some(m) => Some(m as int)
    else
      match ParseUnsigned(t)
      case None => None
      case Some(m) => Some(m as int)
  }

  lemma ParseUnsignedDigitThenRest(c: char, rest: string)
    requires IsDigit(c)
    requires |rest| > 0 ==> !IsDigit(rest[0])
    requires c == '0' ==> |rest| == 0 || (rest[0] != 'x' && rest[0] != 'X')
    ensures ParseUnsigned([c] + rest) == Some(DigitValue(c))
  {
    var u := [c] + rest;
    assert u[1..] == rest;
    assert DigitPrefix(rest, false) == "";
    assert !(|u| >= 2 && u[0] == '0' && (u[1] == 'x' || u[1] == 'X'));
    assert DigitPrefix(u, false) == [c];
    assert [c][..0] == "";
    assert RadixValue([c], false) == DigitValue(c);
  }

  /** parseInt reads a leading decimal digit and ignores what follows a
      non-digit: "2x" parses to 2. */
  lemma ParseIntDigitThenRest(d: nat, rest: string)
    requires d < 10
    requires |rest| > 0 ==> !IsDigit(rest[0])
    requires d == 0 ==> |rest| == 0 || (rest[0] != 'x' && rest[0] != 'X')
    ensures ParseInt([DigitChar(d)] + rest) == Some(d)
  {
    var c := DigitChar(d);
    var s := [c] + rest;
    assert !IsSpace(c);
    assert TrimStart(s) == s;
    ParseUnsignedDigitThenRest(c, rest);
  }

  /** On a string of decimal digits the radix-10 reading is the decimal
      value. */
  lemma {:induction false} RadixValueDecimal(s: string)
    requires AllDigits(s)
    ensures RadixValue(s, false) == DecimalValue(s)
  {
    if |s| > 0 {
      RadixValueDecimal(s[..|s| - 1]);
    }
  }

  /** The digits after the sign: a string of decimal digits reads as its
      value ("0x" cannot occur, since 'x' is not a digit). */
  lemma ParseUnsignedOfDigits(u: string)
    requires AllDigits(u) && |u| >= 1
    ensures ParseUnsigned(u) == Some(DecimalValue(u))
  {
    assert DigitPrefix(u, false) == u;
    RadixValueDecimal(u);
  }

  /** parseInt reads a string of decimal digits as its value. */
  lemma ParseIntOfDigits(s: string)
    requires AllDigits(s) && |s| >= 1
    ensures ParseInt(s) == Some(DecimalValue(s) as int)
  {
    assert !IsSpace(s[0]);
    assert TrimStart(s) == s;
    ParseUnsignedOfDigits(s);
  }

  /** parseInt of a string that starts with anything but white space, a
      sign or a digit is NaN. */
  lemma ParseIntNonNumeric(s: string)
    requires |s| > 0 && !IsSpace(s[0]) && !IsDigit(s[0]) && s[0] != '-' && s[0] != '+'
    ensures ParseInt(s).None?
  {
    assert TrimStart(s) == s;
    assert DigitPrefix(s, false) == "";
  }

  /** String(i) for an integer i. */
  function IntToString(i: int): (s: string)
    ensures |s| >= 1
  {
    if i >= 0 then NatToString(i) else "-" + NatToString(-i)
  }

  /** parseInt(String(i)) == i: the decimal rendering reads back. */
  lemma ParseIntOfIntToString(i: int)
    ensures ParseInt(IntToString(i)) == Some(i)
  {
    if i >= 0 {
      NatToStringRoundTrip(i);
      ParseIntOfDigits(NatToString(i));
    } else {
      ParseIntOfNegative(-i);
    }
  }

  /** parseInt reads a minus sign followed by decimal digits. */
  lemma ParseIntOfNegative(n: nat)
    requires n > 0
    ensures ParseInt(IntToString(-(n as int))) == Some(-(n as int))
  {
    var digits := NatToString(n);
    var t := IntToString(-(n as int));
    assert t == "-" + digits;
    assert TrimStart(t) == t by {
      assert !IsSpace(t[0]);
    }
    assert ParseUnsigned(t[1..]) == Some(n) by {
      assert t[1..] == digits;
      NatToStringRoundTrip(n);
      ParseUnsignedOfDigits(digits);
    }
  }

  /** padStart(2, '0'). */
  function PadStart2(s: string): (r: string)
    ensures |r| == if |s| >= 2 then |s| else 2
    ensures |s| >= 2 ==> r == s
  {
    if |s| >= 2 then s else seq(2 - |s|, _ => '0') + s
  }

  /** Array.prototype.splice(start, 1) on a copy; the deleted element, if
      any, is dropped. */
  function SpliceOne<T>(s: seq<T>, start: int): (r: seq<T>)
    ensures 0 <= start < |s| ==> r == RemoveAt(s, start)
    ensures start >= |s| ==> r == s
    ensures -|s| <= start < 0 ==> r == RemoveAt(s, |s| + start)
  {
    var actual := if start < 0 then (if |s| + start > 0 then |s| + start else 0)
                  else (if start < |s| then start else |s|);
    var deleteCount := if |s| - actual < 1 then |s| - actual else 1;
    s[..actual] + s[actual + deleteCount..]
  }

  /** ASCII lower-casing. For the membership tests the model makes
      (against lower-case ASCII day codes) it agrees with the full
      Unicode toLowerCase, since no other code point lower-cases into one
      of those letters. */
  function ToLowerAscii(s: string): (r: string)
    ensures |r| == |s|
  {
    seq(|s|, i requires 0 <= i < |s| => if 'A' <= s[i] <= 'Z' then (s[i] as int + 32) as char else s[i])
  }
}
