/** The slice of Python semantics the scheduler relies on: truthiness of
    decoded JSON values, the exceptions it can raise, `int(str)`,
    `str.strip`, two-digit `strftime` fields and negative list indexing. */
module Py {
  import opened Util
  import opened Js

  /** The exceptions the modelled code can raise. `NonIntegerCount` marks a
      staffing head count that is not an integer, which Python would carry
      along unchanged but which this model does not represent. */
  datatype PyError = KeyError | ValueError | TypeError | AttributeError | IndexError | NameError
                   | ZeroDivisionError | NonIntegerCount

  /** `bool(v)` for a value decoded from JSON: empty containers are false
      in Python, unlike in JavaScript. */
  predicate PyTruthy(v: JsValue) {
    match v
    case JNull => false
    case JBool(b) => b
    case JNum(n) => n != 0.0
    case JStr(s) => s != ""
    case JArr(items) => items != []
    case JObj(fields) => fields != map[]
  }

  /** The whitespace `str.strip` and `int()` remove: the characters Python
      classes as whitespace. */
  predicate PyIsSpace(c: char) {
    || c == ' ' || c == '\t' || c == '\n' || c == '\r' || c == '\U{000B}' || c == '\U{000C}'
    || ('\U{001C}' <= c <= '\U{001F}') || c == '\U{0085}' || c == '\U{00A0}' || c == '\U{1680}'
    || ('\U{2000}' <= c <= '\U{200A}') || c == '\U{2028}' || c == '\U{2029}' || c == '\U{202F}'
    || c == '\U{205F}' || c == '\U{3000}'
  }

  function StripStart(s: string): (r: string)
    ensures |r| <= |s| && r == s[|s| - |r|..]
    ensures |r| > 0 ==> !PyIsSpace(r[0])
  {
    if |s| > 0 && PyIsSpace(s[0]) then StripStart(s[1..]) else s
  }

  function StripEnd(s: string): (r: string)
    ensures |r| <= |s| && r == s[..|r|]
    ensures |r| > 0 ==> !PyIsSpace(r[|r| - 1])
  {
    if |s| > 0 && PyIsSpace(s[|s| - 1]) then StripEnd(s[..|s| - 1]) else s
  }

  function Strip(s: string): string {
    StripEnd(StripStart(s))
  }

  /** The digit body `int` accepts: decimal digits, with single
      underscores allowed between two digits. */
  predicate DigitBody(u: string) {
    && |u| >= 1 && IsDigit(u[0]) && IsDigit(u[|u| - 1])
    && (forall i :: 0 <= i < |u| ==> IsDigit(u[i]) || u[i] == '_')
    && (forall i :: 0 <= i < |u| - 1 ==> IsDigit(u[i]) || IsDigit(u[i + 1]))
  }

  function DropUnderscores(u: string): (r: string)
    requires forall i :: 0 <= i < |u| ==> IsDigit(u[i]) || u[i] == '_'
    ensures AllDigits(r) && |r| <= |u|
  {
    if |u| == 0 then []
    else DropUnderscores(u[..|u| - 1]) + (if u[|u| - 1] == '_' then [] else [u[|u| - 1]])
  }

  /** The value of a digit body, if the text is one. */
  function Unsigned(u: string): Option<nat> {
    if DigitBody(u) then Some(DecimalValue(DropUnderscores(u))) else None
  }

  /** An optional sign, then a digit body. */
  function SignedValue(t: string): Option<int> {
    if |t| > 0 && (t[0] == '+' || t[0] == '-') then
      match Unsigned(t[1..])
      case None => None
      case Some(v) =>
        var n: int := v;
        Some(if t[0] == '-' then -n else n)
    else
      match Unsigned(t)
      case None => None
      case Some(v) => Some(v as int)
  }

  /** `int(s)` for a string: surrounding whitespace, an optional sign,
      then a digit body. None where Python raises ValueError. */
  function PyInt(s: string): Option<int> {
    SignedValue(Strip(s))
  }

  lemma {:induction false} DropUnderscoresOfDigits(u: string)
    requires AllDigits(u)
    ensures DropUnderscores(u) == u
    decreases |u|
  {
    if |u| > 0 {
      DropUnderscoresOfDigits(u[..|u| - 1]);
      assert u[..|u| - 1] + [u[|u| - 1]] == u;
    }
  }

  lemma StripOfDigits(u: string)
    requires |u| >= 1 && IsDigit(u[0]) && IsDigit(u[|u| - 1])
    ensures Strip(u) == u
  {
    assert !PyIsSpace(u[0]);
    assert StripStart(u) == u;
    assert !PyIsSpace(u[|u| - 1]);
    assert StripEnd(u) == u;
  }

  /** A plain run of decimal digits is read as its decimal value. */
  lemma PyIntOfDigits(u: string)
    requires |u| >= 1 && AllDigits(u)
    ensures PyInt(u) == Some(DecimalValue(u) as int)
  {
    PyIntUnpadded(u);
    UnsignedOfDigits(u);
    SignedOfDigits(u);
  }

  lemma PyIntUnpadded(u: string)
    requires |u| >= 1 && IsDigit(u[0]) && IsDigit(u[|u| - 1])
    ensures PyInt(u) == SignedValue(u)
  {
    StripOfDigits(u);
  }

  lemma SignedOfDigits(u: string)
    requires |u| >= 1 && IsDigit(u[0])
    requires Unsigned(u).Some?
    ensures SignedValue(u) == Some(Unsigned(u).value as int)
  {
  }

  lemma UnsignedOfDigits(u: string)
    requires |u| >= 1 && AllDigits(u)
    ensures Unsigned(u) == Some(DecimalValue(u))
  {
    assert DigitBody(u);
    DropUnderscoresOfDigits(u);
  }

  /** A two-digit field, zero-padded: `%H` and `%M` of strftime. */
  function Pad2(n: nat): (r: string)
    requires n < 100
    ensures |r| == 2 && AllDigits(r) && DecimalValue(r) == n
  {
    var r := [DigitChar(n / 10), DigitChar(n % 10)];
    assert r[..1] == [DigitChar(n / 10)] && r[..1][..0] == [];
    assert DecimalValue(r[..1]) == n / 10;
    r
  }

  /** A two-digit string is the padding of its value. */
  lemma Pad2OfValue(s: string)
    requires |s| == 2 && AllDigits(s)
    ensures DecimalValue(s) < 100 && Pad2(DecimalValue(s)) == s
  {
    assert s[..1] == [s[0]] && s[..1][..0] == [];
    assert DecimalValue(s[..1]) == DigitValue(s[0]);
  }

  /** `xs[i]` with Python's negative indexing; None where it raises
      IndexError. */
  function PyIndex<T>(xs: seq<T>, i: int): (r: Option<T>)
    ensures r.Some? <==> -|xs| <= i < |xs|
    ensures 0 <= i < |xs| ==> r == Some(xs[i])
    ensures -|xs| <= i < 0 ==> r == Some(xs[|xs| + i])
  {
    if 0 <= i < |xs| then Some(xs[i])
    else if -|xs| <= i < 0 then Some(xs[|xs| + i])
    else None
  }
}
