/** JavaScript argument values, the predicates of utils/utils.js the store relies on,
    and the string conversions Mongoose applies to a `String` schema path. */
module JsValues {
  import opened Outcomes

  /** `Number.MAX_SAFE_INTEGER`, 2^53 - 1. */
  const MaxSafeInteger := 0x1F_FFFF_FFFF_FFFF

  /** The integers a JavaScript number holds exactly. `String(n)` writes each of them
      as its plain decimal digits; the exponent form starts only at 10^21. */
  type SafeInteger = n: int | -MaxSafeInteger <= n <= MaxSafeInteger

  /** An argument as a JavaScript caller may pass it. Numbers are safe integers here.
      Objects come in two kinds, told apart by Mongoose's string cast: `JsCastable`
      is an object the cast turns into the string `cast` (one whose `_id` is a string,
      or one with a `toString` of its own, such as a `Date` or an `ObjectId`);
      `JsObject` is an array, or an object with neither, such as the
      `{$gt: 'hello'}` payload the unit tests pass. */
  datatype JsValue =
    | JsUndefined
    | JsNull
    | JsBool(b: bool)
    | JsNumber(n: SafeInteger)
    | JsString(s: string)
    | JsCastable(cast: string)
    | JsObject

  /** `Ut.isStrNotEmpty`: a string primitive with at least one character. */
  predicate IsStrNotEmpty(v: JsValue) {
    v.JsString? && |v.s| > 0
  }

  /** `Ut.isPositiveNumber`: a number greater than zero. */
  predicate IsPositiveNumber(v: JsValue) {
    v.JsNumber? && v.n > 0
  }

  /** A JavaScript default parameter: only `undefined` is replaced by the default. */
  function WithDefault(v: JsValue, default: SafeInteger): JsValue {
    if v.JsUndefined? then JsNumber(default) else v
  }

  /** The characters `String.prototype.trim` removes: WhiteSpace and LineTerminator
      of ECMA-262 (tab, vertical tab, form feed, space, no-break space, byte order mark,
      the space separators, line feed, carriage return, line and paragraph separators). */
  predicate IsJsSpace(c: char) {
    || c == '\t' || c == '\n' || c == '\U{B}' || c == '\U{C}' || c == '\r' || c == ' '
    || c == '\U{A0}' || c == '\U{1680}' || ('\U{2000}' <= c <= '\U{200A}')
    || c == '\U{2028}' || c == '\U{2029}' || c == '\U{202F}' || c == '\U{205F}'
    || c == '\U{3000}' || c == '\U{FEFF}'
  }

  /** The string without its leading white space: a suffix of `s` whose dropped
      prefix is all white space and which does not itself start with white space. */
  function TrimStart(s: string): (r: string)
    ensures |r| <= |s| && r == s[|s| - |r|..]
    ensures forall k :: 0 <= k < |s| - |r| ==> IsJsSpace(s[k])
    ensures |r| > 0 ==> !IsJsSpace(r[0])
  {
    if |s| > 0 && IsJsSpace(s[0]) then TrimStart(s[1..]) else s
  }

  /** The string without its trailing white space: a prefix of `s` whose dropped
      suffix is all white space and which does not itself end with white space. */
  function TrimEnd(s: string): (r: string)
    ensures |r| <= |s| && r == s[..|r|]
    ensures forall k :: |r| <= k < |s| ==> IsJsSpace(s[k])
    ensures |r| > 0 ==> !IsJsSpace(r[|r| - 1])
  {
    if |s| > 0 && IsJsSpace(s[|s| - 1]) then TrimEnd(s[..|s| - 1]) else s
  }

  /** `r` is the slice of `s` starting at `i`, and everything of `s` around it is white space. */
  predicate CutFrom(s: string, i: int, r: string) {
    && 0 <= i <= |s| - |r| && r == s[i..i + |r|]
    && (forall k :: 0 <= k < i ==> IsJsSpace(s[k]))
    && (forall k :: i + |r| <= k < |s| ==> IsJsSpace(s[k]))
  }

  /** `String.prototype.trim`, which Mongoose applies to every `trim: true` path: the
      slice of `s` left once the white space around it is cut off. */
  function Trim(s: string): (r: string)
    ensures |r| <= |s|
    ensures |r| > 0 ==> !IsJsSpace(r[0]) && !IsJsSpace(r[|r| - 1])
    ensures r == [] <==> forall k :: 0 <= k < |s| ==> IsJsSpace(s[k])
  {
    TrimEnd(TrimStart(s))
  }

  /** What `trim` keeps is a contiguous slice of the input, and everything cut away
      before and after it is white space. */
  lemma TrimIsCut(s: string)
    ensures exists i :: CutFrom(s, i, Trim(s))
  {
    var start := TrimStart(s);
    var r := TrimEnd(start);
    assert Trim(s) == r;
    CutOfParts(s, start, r);
  }

  /** Cutting white space off the front, then off the back, leaves a slice with only
      white space around it. */
  lemma CutOfParts(s: string, start: string, r: string)
    requires |start| <= |s| && start == s[|s| - |start|..]
    requires forall k :: 0 <= k < |s| - |start| ==> IsJsSpace(s[k])
    requires |r| <= |start| && r == start[..|r|]
    requires forall k :: |r| <= k < |start| ==> IsJsSpace(start[k])
    ensures CutFrom(s, |s| - |start|, r)
  {
    var i := |s| - |start|;
    forall k | i + |r| <= k < |s|
      ensures IsJsSpace(s[k])
    {
      assert s[k] == start[k - i];
    }
  }

  /** A string that neither starts nor ends with white space. */
  predicate IsTrimmed(s: string) {
    |s| > 0 ==> !IsJsSpace(s[0]) && !IsJsSpace(s[|s| - 1])
  }

  /** Trimming leaves an already trimmed string alone. */
  lemma TrimmedIsFixed(s: string)
    requires IsTrimmed(s)
    ensures Trim(s) == s
  {
    if |s| > 0 {
      assert TrimStart(s) == s;
      assert TrimEnd(s) == s;
    }
  }

  /** Trimming is idempotent. */
  lemma TrimIdempotent(s: string)
    ensures Trim(Trim(s)) == Trim(s)
  {
    TrimmedIsFixed(Trim(s));
  }

  /** The number a string of decimal digits denotes. */
  function DigitsValue(s: string): nat
    requires forall k :: 0 <= k < |s| ==> '0' <= s[k] <= '9'
  {
    if |s| == 0 then 0 else 10 * DigitsValue(s[..|s| - 1]) + (s[|s| - 1] as int - '0' as int)
  }

  /** Decimal digits without a superfluous leading zero. */
  predicate IsCanonicalDigits(d: string) {
    && |d| > 0 && (forall k :: 0 <= k < |d| ==> '0' <= d[k] <= '9')
    && (d[0] == '0' ==> |d| == 1)
  }

  /** `s` is how JavaScript writes the integer `n`: a minus sign for a negative one,
      then the canonical digits of its magnitude. */
  predicate IsDecimalOf(s: string, n: int) {
    if n < 0 then |s| > 1 && s[0] == '-' && IsCanonicalDigits(s[1..]) && DigitsValue(s[1..]) == -n
    else IsCanonicalDigits(s) && DigitsValue(s) == n
  }

  /** The decimal digits of a natural number, most significant first: canonical (no
      leading zero) and denoting `n`. */
  function NatDecimal(n: nat): (r: string)
    ensures |r| > 0
    ensures forall k :: 0 <= k < |r| ==> '0' <= r[k] <= '9'
    ensures r[0] == '0' <==> n == 0
    ensures DigitsValue(r) == n
    decreases n
  {
    var digit := "0123456789"[n % 10];
    assert digit as int - '0' as int == n % 10;
    if n < 10 then [digit]
    else
      var high := NatDecimal(n / 10);
      var r := high + [digit];
      assert r[..|r| - 1] == high;
      r
  }

  /** `String(n)` for a safe integer. */
  function IntDecimal(n: int): (r: string)
    ensures IsDecimalOf(r, n)
  {
    if n < 0 then
      var r := "-" + NatDecimal(-n);
      assert r[1..] == NatDecimal(-n);
      r
    else NatDecimal(n)
  }

  /** The cast Mongoose applies to a value stored in a `String` path: `null` and
      `undefined` stay absent (so a `required` validator fails), booleans and
      numbers go through `toString`, an object becomes its string `_id` or the result
      of its own `toString`, and any other object or array is a cast error. Both
      absence and a cast error make `create` fail, so both are `None`. */
  function CastString(v: JsValue): (r: Option<string>)
    ensures v.JsString? ==> r == Some(v.s)
    ensures v.JsUndefined? || v.JsNull? || v.JsObject? ==> r.None?
    ensures v.JsBool? ==> r == Some(if v.b then "true" else "false")
    ensures v.JsNumber? ==> r.Some? && IsDecimalOf(r.value, v.n)
    ensures v.JsCastable? ==> r == Some(v.cast)
  {
    match v
    case JsUndefined => None
    case JsNull => None
    case JsBool(b) => Some(if b then "true" else "false")
    case JsNumber(n) => Some(IntDecimal(n))
    case JsString(s) => Some(s)
    case JsCastable(cast) => Some(cast)
    case JsObject => None
  }
}
