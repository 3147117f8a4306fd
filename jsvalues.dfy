/** The JavaScript values that reach the favourites backend (whatever JSON.parse can
    produce, plus undefined and NaN), and the few language operations the validator,
    the repository and the handlers rely on: typeof, truthiness, property reads,
    String.prototype.trim, String.prototype.includes, toString and parseInt. */
module JsValues {

  datatype Option<+T> = None | Some(value: T)

  /** A JavaScript value. Numbers are integers (see README, "Left out"); NaN is kept
      apart because parseInt produces it. */
  datatype JsValue =
    | Undefined
    | Null
    | Bool(b: bool)
    | Num(n: int)
    | NaN
    | Str(s: string)
    | Arr(elems: seq<JsValue>)
    | Obj(fields: map<string, JsValue>)

  /** An `Error` object as thrown by `throw new Error(message)`. */
  datatype JsError = JsError(message: string)

  /** How a call ends: it returns a value or throws an error. The awaited calls of the
      backend are modelled with it, a rejected promise being a throw. */
  datatype Completion<+T> = Returned(value: T) | Threw(error: JsError)

  /** The error seen as a value, e.g. when it is handed on as the cause of a response. */
  function ErrorValue(e: JsError): JsValue {
    Obj(map["message" := Str(e.message)])
  }

  /** The strings `typeof` can return for these values. */
  datatype TypeTag = UndefinedType | ObjectType | BooleanType | NumberType | StringType

  /** `typeof v`; note that null is an "object". */
  function TypeOf(v: JsValue): TypeTag {
    match v
    case Undefined => UndefinedType
    case Null => ObjectType
    case Bool(_) => BooleanType
    case Num(_) => NumberType
    case NaN => NumberType
    case Str(_) => StringType
    case Arr(_) => ObjectType
    case Obj(_) => ObjectType
  }

  /** ToBoolean: `!v` is its negation and `v && w`, `v || w` branch on it. */
  predicate Truthy(v: JsValue) {
    match v
    case Undefined => false
    case Null => false
    case Bool(b) => b
    case Num(n) => n != 0
    case NaN => false
    case Str(s) => s != ""
    case Arr(_) => true
    case Obj(_) => true
  }

  /** The values validate and sanitize treat as absent. */
  predicate Blank(v: JsValue) {
    v == Undefined || v == Null || v == Str("")
  }

  /** A property read `v[key]` on a value that is neither null nor undefined, for the
      record's field names and "message": only a parsed object has own properties of
      those names, and no prototype supplies one. */
  function Get(v: JsValue, key: string): JsValue {
    if v.Obj? && key in v.fields then v.fields[key] else Undefined
  }

  /** `v || null` */
  function OrNull(v: JsValue): (r: JsValue)
    ensures r == Null || r == v
    ensures Truthy(r) <==> Truthy(v)
    ensures r != Str("") && r != Undefined
  {
    if Truthy(v) then v else Null
  }

  // ---------------------------------------------------------------------------
  // Whitespace and String.prototype.trim

  /** The characters ECMAScript's WhiteSpace and LineTerminator productions name: what
      trim removes and what parseInt skips. */
  predicate IsWhitespace(c: char) {
    c == '\t' || c == '\n' || c == '\U{000B}' || c == '\U{000C}' || c == '\r' || c == ' '
    || c == '\U{00A0}' || c == '\U{1680}' || ('\U{2000}' <= c <= '\U{200A}')
    || c == '\U{2028}' || c == '\U{2029}' || c == '\U{202F}' || c == '\U{205F}'
    || c == '\U{3000}' || c == '\U{FEFF}'
  }

  predicate AllWhitespace(s: string) {
    forall i :: 0 <= i < |s| ==> IsWhitespace(s[i])
  }

  /** String.prototype.trimStart: drops the whitespace at the start. */
  function TrimStart(s: string): (r: string)
    ensures |r| <= |s|
    ensures r == [] || !IsWhitespace(r[0])
    decreases |s|
  {
    if s != [] && IsWhitespace(s[0]) then TrimStart(s[1..]) else s
  }

  /** String.prototype.trimEnd: drops the whitespace at the end. */
  function TrimEnd(s: string): (r: string)
    ensures |r| <= |s|
    ensures r == [] || !IsWhitespace(r[|r| - 1])
    decreases |s|
  {
    if s != [] && IsWhitespace(s[|s| - 1]) then TrimEnd(s[..|s| - 1]) else s
  }

  /** trimStart keeps a suffix of its input. */
  lemma {:induction false} TrimStartIsSuffix(s: string)
    ensures TrimStart(s) == s[|s| - |TrimStart(s)|..]
    decreases |s|
  {
    if s != [] && IsWhitespace(s[0]) {
      TrimStartIsSuffix(s[1..]);
      assert s[1..][|s| - 1 - |TrimStart(s)|..] == s[|s| - |TrimStart(s)|..];
    }
  }

  /** trimEnd keeps a prefix of its input. */
  lemma {:induction false} TrimEndIsPrefix(s: string)
    ensures TrimEnd(s) == s[..|TrimEnd(s)|]
    decreases |s|
  {
    if s != [] && IsWhitespace(s[|s| - 1]) {
      TrimEndIsPrefix(s[..|s| - 1]);
      assert s[..|s| - 1][..|TrimEnd(s)|] == s[..|TrimEnd(s)|];
    }
  }

  /** String.prototype.trim: drops the whitespace at both ends and keeps the middle. */
  function Trim(s: string): (r: string)
    ensures |r| <= |s|
    ensures r != [] ==> !IsWhitespace(r[0]) && !IsWhitespace(r[|r| - 1])
  {
    TrimEndIsPrefix(TrimStart(s));
    TrimEnd(TrimStart(s))
  }

  /** What trimStart drops is whitespace. */
  lemma {:induction false} TrimStartDropsWhitespace(s: string, i: nat)
    requires i < |s| - |TrimStart(s)|
    ensures IsWhitespace(s[i])
    decreases |s|
  {
    if i > 0 {
      TrimStartDropsWhitespace(s[1..], i - 1);
    }
  }

  /** What trimEnd drops is whitespace. */
  lemma {:induction false} TrimEndDropsWhitespace(s: string, i: nat)
    requires |TrimEnd(s)| <= i < |s|
    ensures IsWhitespace(s[i])
    decreases |s|
  {
    if i < |s| - 1 {
      TrimEndDropsWhitespace(s[..|s| - 1], i);
    }
  }

  /** A string trims to the empty string exactly when it is all whitespace. */
  lemma TrimEmptyIffAllWhitespace(s: string)
    ensures Trim(s) == [] <==> AllWhitespace(s)
  {
    var t := TrimStart(s);
    if Trim(s) == [] {
      if t != [] {
        TrimEndDropsWhitespace(t, 0);
      }
      forall i | 0 <= i < |s| ensures IsWhitespace(s[i]) {
        TrimStartDropsWhitespace(s, i);
      }
    } else {
      TrimStartIsSuffix(s);
      TrimEndIsPrefix(t);
      assert Trim(s) == s[|s| - |t|..][..|Trim(s)|];
      assert !IsWhitespace(s[|s| - |t|]);
    }
  }

  /** Trimming twice is trimming once. */
  lemma TrimIdempotent(s: string)
    ensures Trim(Trim(s)) == Trim(s)
  {
    var r := Trim(s);
    assert TrimStart(r) == r;
    assert TrimEnd(r) == r;
  }

  // ---------------------------------------------------------------------------
  // String.prototype.length

  /** The UTF-16 code units of one character: two for a character outside the Basic
      Multilingual Plane, which JavaScript stores as a surrogate pair. */
  function CodeUnits(c: char): nat {
    if c as int > 0xFFFF then 2 else 1
  }

  /** `s.length`: counts UTF-16 code units, not characters. */
  function JsLength(s: string): (r: nat)
    ensures |s| <= r <= 2 * |s|
    ensures r == |s| <==> forall i :: 0 <= i < |s| ==> CodeUnits(s[i]) == 1
    decreases |s|
  {
    if s == [] then 0 else JsLength(s[..|s| - 1]) + CodeUnits(s[|s| - 1])
  }

  lemma {:induction false} JsLengthAppend(a: string, b: string)
    ensures JsLength(a + b) == JsLength(a) + JsLength(b)
    decreases |b|
  {
    if b == [] {
      assert a + b == a;
    } else {
      var init := b[..|b| - 1];
      assert (a + b)[..|a + b| - 1] == a + init;
      JsLengthAppend(a, init);
    }
  }

  /** A prefix or a suffix is never longer in code units than the whole. */
  lemma JsLengthParts(s: string, i: nat)
    requires i <= |s|
    ensures JsLength(s[..i]) <= JsLength(s) && JsLength(s[i..]) <= JsLength(s)
  {
    assert s == s[..i] + s[i..];
    JsLengthAppend(s[..i], s[i..]);
  }

  /** Trimming never makes a string longer in code units. */
  lemma JsLengthTrim(s: string)
    ensures JsLength(Trim(s)) <= JsLength(s)
  {
    var t := TrimStart(s);
    TrimStartIsSuffix(s);
    JsLengthParts(s, |s| - |t|);
    var r := TrimEnd(t);
    TrimEndIsPrefix(t);
    JsLengthParts(t, |r|);
    assert Trim(s) == r;
  }

  // ---------------------------------------------------------------------------
  // String.prototype.includes

  /** `s.includes(t)`: some occurrence of t starts at some position of s. */
  predicate Includes(s: string, t: string)
    decreases |s|
  {
    t <= s || (s != [] && Includes(s[1..], t))
  }

  /** An occurrence at position i is found. */
  lemma {:induction false} IncludesAt(s: string, t: string, i: nat)
    requires i + |t| <= |s| && s[i..i + |t|] == t
    ensures Includes(s, t)
    decreases i
  {
    if i == 0 {
      assert s[..|t|] == t;
    } else {
      assert s[1..][i - 1..i - 1 + |t|] == s[i..i + |t|];
      IncludesAt(s[1..], t, i - 1);
    }
  }

  /** Every character of what s includes occurs in s. */
  lemma {:induction false} IncludesChar(s: string, t: string, c: char)
    requires Includes(s, t) && c in t
    ensures c in s
    decreases |s|
  {
    if t <= s {
      var k :| 0 <= k < |t| && t[k] == c;
      assert s[k] == c;
    } else {
      IncludesChar(s[1..], t, c);
      var k :| 0 <= k < |s[1..]| && s[1..][k] == c;
      assert s[k + 1] == c;
    }
  }

  /** A string that lacks one of t's characters does not include t. */
  lemma LacksChar(s: string, t: string, c: char)
    requires c in t && c !in s
    ensures !Includes(s, t)
  {
    if Includes(s, t) {
      IncludesChar(s, t, c);
    }
  }

  /** Appending text after s keeps what s includes. */
  lemma {:induction false} IncludesAppend(s: string, m: string, t: string)
    requires Includes(s, t)
    ensures Includes(s + m, t)
    decreases |s|
  {
    if t <= s {
      assert (s + m)[..|t|] == s[..|t|];
    } else {
      assert (s + m)[1..] == s[1..] + m;
      IncludesAppend(s[1..], m, t);
    }
  }

  /** Putting text before m keeps what m includes. */
  lemma {:induction false} IncludesPrepend(p: string, m: string, t: string)
    requires Includes(m, t)
    ensures Includes(p + m, t)
    decreases |p|
  {
    if p == [] {
      assert p + m == m;
    } else {
      assert (p + m)[1..] == p[1..] + m;
      IncludesPrepend(p[1..], m, t);
    }
  }

  /** When no occurrence of t can start in the last |t| - 1 characters of p, t occurs in
      p + m exactly when it occurs in p or in m: no occurrence straddles the seam. */
  lemma {:induction false} IncludesConcat(p: string, m: string, t: string)
    requires t != []
    requires forall j :: 0 <= j < |p| && |p| - |t| < j ==> p[j] != t[0]
    ensures Includes(p + m, t) <==> Includes(p, t) || Includes(m, t)
    decreases |p|
  {
    if Includes(p, t) {
      IncludesAppend(p, m, t);
    }
    if Includes(m, t) {
      IncludesPrepend(p, m, t);
    }
    if p == [] {
      assert p + m == m;
    } else if Includes(p + m, t) {
      if t <= p + m {
        assert t[0] == (p + m)[0] == p[0];
        assert |t| <= |p|;
        assert t <= p;
      } else {
        assert (p + m)[1..] == p[1..] + m;
        IncludesConcat(p[1..], m, t);
      }
    }
  }

  // ---------------------------------------------------------------------------
  // Decimal digits: Number.prototype.toString and parseInt(s, 10)

  predicate IsDigit(c: char) {
    '0' <= c <= '9'
  }

  function DigitChar(d: nat): (c: char)
    requires d < 10
    ensures IsDigit(c) && c as int - '0' as int == d
  {
    ('0' as int + d) as char
  }

  /** The decimal digits of n, most significant first, without leading zeros. */
  function NatDigits(n: nat): (r: string)
    ensures r != [] && forall i :: 0 <= i < |r| ==> IsDigit(r[i])
    decreases n
  {
    if n < 10 then [DigitChar(n)] else NatDigits(n / 10) + [DigitChar(n % 10)]
  }

  /** Number.prototype.toString() for an integer. */
  function DecimalString(n: int): string {
    if n < 0 then "-" + NatDigits(-n) else NatDigits(n)
  }

  /** The value of a string of decimal digits (used on digits only). */
  function DigitsValue(ds: string): int
    decreases |ds|
  {
    if ds == [] then 0
    else DigitsValue(ds[..|ds| - 1]) * 10 + (ds[|ds| - 1] as int - '0' as int)
  }

  /** The longest prefix of s made of decimal digits. */
  function DigitPrefix(s: string): (r: string)
    decreases |s|
  {
    if s != [] && IsDigit(s[0]) then [s[0]] + DigitPrefix(s[1..]) else []
  }

  /** `parseInt(s, 10)`: skip leading whitespace, read an optional sign, then the longest
      run of decimal digits; NaN when there is none. */
  function ParseInt(s: string): (r: JsValue)
    ensures r.Num? || r.NaN?
  {
    var t := TrimStart(s);
    var negative := t != [] && t[0] == '-';
    var rest := if t != [] && (t[0] == '-' || t[0] == '+') then t[1..] else t;
    var ds := DigitPrefix(rest);
    if ds == [] then NaN
    else
      var value := DigitsValue(ds);
      Num(if negative then -value else value)
  }

  lemma {:induction false} NatDigitsValue(n: nat)
    ensures DigitsValue(NatDigits(n)) == n
    decreases n
  {
    var ds := NatDigits(n);
    if n >= 10 {
      NatDigitsValue(n / 10);
      assert ds[..|ds| - 1] == NatDigits(n / 10);
    }
  }

  /** The digit prefix is a prefix of digits that stops at the first non-digit. */
  lemma {:induction false} DigitPrefixIsLongest(s: string)
    ensures var r := DigitPrefix(s);
      && r <= s
      && (forall i :: 0 <= i < |r| ==> IsDigit(r[i]))
      && (r == s || !IsDigit(s[|r|]))
    decreases |s|
  {
    if s != [] && IsDigit(s[0]) {
      DigitPrefixIsLongest(s[1..]);
    }
  }

  lemma AllDigitsPrefix(ds: string)
    requires forall i :: 0 <= i < |ds| ==> IsDigit(ds[i])
    ensures DigitPrefix(ds) == ds
  {
  }

  /** trimStart leaves a string that starts with a non-blank alone. */
  lemma NotTrimmed(s: string)
    requires s != [] && !IsWhitespace(s[0])
    ensures TrimStart(s) == s
  {
  }

  lemma DigitsNotTrimmed(ds: string)
    requires ds != [] && forall i :: 0 <= i < |ds| ==> IsDigit(ds[i])
    ensures TrimStart(ds) == ds
  {
    assert IsDigit(ds[0]);
    NotTrimmed(ds);
  }

  /** parseInt reads a run of digits as its decimal value. */
  lemma ParseIntOfDigits(ds: string)
    requires ds != [] && forall i :: 0 <= i < |ds| ==> IsDigit(ds[i])
    ensures ParseInt(ds) == Num(DigitsValue(ds))
  {
    DigitsNotTrimmed(ds);
    AllDigitsPrefix(ds);
  }

  /** parseInt reads a minus sign followed by digits as the negated value. */
  lemma ParseIntOfNegativeDigits(s: string)
    requires |s| > 1 && s[0] == '-' && forall i :: 1 <= i < |s| ==> IsDigit(s[i])
    ensures ParseInt(s) == Num(-DigitsValue(s[1..]))
  {
    assert !IsWhitespace(s[0]);
    NotTrimmed(s);
    var ds := s[1..];
    forall i | 0 <= i < |ds| ensures IsDigit(ds[i]) {
      assert ds[i] == s[i + 1];
    }
    AllDigitsPrefix(ds);
  }

  /** parseInt reads back what toString writes: the two are inverse on integers. */
  lemma ParseIntDecimalString(n: int)
    ensures ParseInt(DecimalString(n)) == Num(n)
  {
    if n < 0 {
      var ds := NatDigits(-n);
      NatDigitsValue(-n);
      assert ("-" + ds)[1..] == ds;
      ParseIntOfNegativeDigits("-" + ds);
    } else {
      NatDigitsValue(n);
      ParseIntOfDigits(NatDigits(n));
    }
  }

  // ---------------------------------------------------------------------------
  // toString

  /** `v.toString()` on a value that is neither null nor undefined, and the string
      conversion Array.prototype.join applies to array elements; None when it throws a
      TypeError (a parsed object whose own "toString" property is not callable). */
  function ToJsString(v: JsValue): (r: Option<string>)
    ensures v.Str? ==> r == Some(v.s)
    ensures v.Num? ==> r == Some(DecimalString(v.n))
    decreases v, 1
  {
    match v
    case Undefined => Some("undefined")
    case Null => Some("null")
    case Bool(b) => Some(if b then "true" else "false")
    case Num(n) => Some(DecimalString(n))
    case NaN => Some("NaN")
    case Str(s) => Some(s)
    case Arr(es) => JoinElements(es)
    case Obj(m) => if "toString" in m then None else Some("[object Object]")
  }

  /** `es.join(",")`: null and undefined elements contribute the empty string. */
  function JoinElements(es: seq<JsValue>): Option<string>
    decreases es, 0
  {
    if es == [] then Some("")
    else
      var head := if es[0] == Undefined || es[0] == Null then Some("") else ToJsString(es[0]);
      match head
      case None => None
      case Some(h) =>
        if |es| == 1 then Some(h)
        else
          match JoinElements(es[1..])
          case None => None
          case Some(t) => Some(h + "," + t)
  }
}
