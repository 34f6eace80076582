/**
 * Values held by a record and the casts `(int)`, `(string)` and `(float)`
 * that the record constructor applies according to a column's SQL type.
 */
module Coercion {
  import opened Optional

  /**
   * A PHP scalar as it reaches the engine: from a caller or from a fetched
   * row.  `Float(text)` is only a tag: the number a float cast would read
   * from `text` is not computed.
   */
  datatype Value = Null | Int(i: int) | Str(s: string) | Float(text: string)

  /** PHP_INT_MIN and PHP_INT_MAX on a 64-bit build. */
  const IntMin: int := -0x8000_0000_0000_0000
  const IntMax: int := 0x7fff_ffff_ffff_ffff

  /** The value domains a column type maps to. */
  datatype Domain = IntDomain | StringDomain | FloatDomain | Unchanged

  /** explode('(', t)[0]: the part of the type before its first '('. */
  function BaseType(t: string): (r: string)
    ensures |r| <= |t| && r == t[..|r|]
    ensures forall i :: 0 <= i < |r| ==> r[i] != '('
    ensures |r| < |t| ==> t[|r|] == '('
  {
    if t == "" then ""
    else if t[0] == '(' then ""
    else [t[0]] + BaseType(t[1..])
  }

  /** The switch of the record constructor on the base type. */
  function DomainOf(base: string): Domain
  {
    if base in {"tinyint", "smallint", "mediumint", "int", "bigint"} then IntDomain
    else if base in {"char", "varchar", "tinytext", "text", "mediumtext", "longtext"} then StringDomain
    else if base in {"double", "float", "decimal"} then FloatDomain
    else Unchanged
  }

  /**
   * The domain for the result of getFieldType: a missing type (`false`)
   * explodes to [""], which no case of the switch names.
   */
  function DomainOfType(t: Option<string>): Domain
  {
    if t.Some? then DomainOf(BaseType(t.value)) else Unchanged
  }

  // ---- decimal text -----------------------------------------------------

  predicate IsDigit(c: char) { '0' <= c <= '9' }

  function DigitChar(d: int): char
    requires 0 <= d < 10
  {
    ('0' as int + d) as char
  }

  /** Value of a string of decimal digits, most significant first. */
  function DigitsValue(ds: string): nat
    requires forall i :: 0 <= i < |ds| ==> IsDigit(ds[i])
  {
    if ds == "" then 0
    else DigitsValue(ds[..|ds| - 1]) * 10 + DigitValue(ds[|ds| - 1])
  }

  function DigitValue(c: char): nat
    requires IsDigit(c)
  {
    c as int - '0' as int
  }

  /** The longest prefix of s made of decimal digits. */
  function LeadingDigits(s: string): (r: string)
    ensures |r| <= |s| && r == s[..|r|]
    ensures forall i :: 0 <= i < |r| ==> IsDigit(r[i])
    ensures |r| < |s| ==> !IsDigit(s[|r|])
  {
    if s == "" || !IsDigit(s[0]) then "" else [s[0]] + LeadingDigits(s[1..])
  }

  predicate IsSpace(c: char) { c in {' ', '\t', '\n', '\r', '\U{B}', '\U{C}'} }

  function SkipSpace(s: string): (r: string)
    ensures |r| <= |s| && r == s[|s| - |r|..]
    ensures r == "" || !IsSpace(r[0])
  {
    if s != "" && IsSpace(s[0]) then SkipSpace(s[1..]) else s
  }

  function Clamp(n: int): (r: int)
    ensures IntMin <= r <= IntMax
    ensures IntMin <= n <= IntMax ==> r == n
  {
    if n < IntMin then IntMin else if n > IntMax then IntMax else n
  }

  /**
   * (int) applied to a string: leading white space, an optional sign and
   * the longest run of digits that follows; 0 when there is none; clamped
   * to the 64-bit range.
   */
  function LeadingInt(s: string): int
  {
    var t := SkipSpace(s);
    Clamp(if Negative(t) then -Magnitude(t) else Magnitude(t))
  }

  predicate Negative(t: string) { t != "" && t[0] == '-' }

  /** The digits that follow an optional sign at the start of t. */
  function Magnitude(t: string): int
  {
    var body := if t != "" && (t[0] == '-' || t[0] == '+') then t[1..] else t;
    DigitsValue(LeadingDigits(body))
  }

  /** Decimal text of a natural number, without leading zeros. */
  function NatString(n: nat): (r: string)
    ensures r != "" && forall i :: 0 <= i < |r| ==> IsDigit(r[i])
  {
    if n < 10 then [DigitChar(n)] else NatString(n / 10) + [DigitChar(n % 10)]
  }

  /** (string) applied to an int. */
  function DecimalString(n: int): string
  {
    if n < 0 then "-" + NatString(-n) else NatString(n)
  }

  // ---- the casts ---------------------------------------------------------

  /** (int)v. A float's text is truncated at its first non-digit. */
  function ToInt(v: Value): int
  {
    match v
    case Null => 0
    case Int(i) => i
    case Str(s) => LeadingInt(s)
    case Float(t) => LeadingInt(t)
  }

  /** (string)v */
  function ToStr(v: Value): string
  {
    match v
    case Null => ""
    case Int(i) => DecimalString(i)
    case Str(s) => s
    case Float(t) => t
  }

  /** (float)v, kept as a tag on the text it is read from. */
  function ToFloat(v: Value): Value
  {
    if v.Float? then v else Float(ToStr(v))
  }

  /**
   * The constructor's coercion of one value by its column type (the
   * result of getFieldType, `None` for `false`).
   */
  function Coerce(t: Option<string>, v: Value): (r: Value)
    ensures DomainOfType(t) == IntDomain ==> r == Int(ToInt(v))
    ensures DomainOfType(t) == StringDomain ==> r == Str(ToStr(v))
    ensures DomainOfType(t) == FloatDomain ==> r.Float?
    ensures DomainOfType(t) == Unchanged ==> r == v
  {
    match DomainOfType(t)
    case IntDomain => Int(ToInt(v))
    case StringDomain => Str(ToStr(v))
    case FloatDomain => ToFloat(v)
    case Unchanged => v
  }

  // ---- properties ----------------------------------------------------------

  /** Coercing an already coerced value changes nothing. */
  lemma CoerceIdempotent(t: Option<string>, v: Value)
    ensures Coerce(t, Coerce(t, v)) == Coerce(t, v)
  {
  }

  /**
   * Only a column of a type outside the switch can hold null after
   * coercion, and only when null came in.
   */
  lemma CoerceNull(t: Option<string>, v: Value)
    ensures Coerce(t, v).Null? <==> (DomainOfType(t) == Unchanged && v.Null?)
  {
  }

  /** A parameterised type is mapped by its name: `int(11)` is an int column. */
  lemma {:induction false} BaseTypeOfParameterised(name: string, params: string)
    requires forall i :: 0 <= i < |name| ==> name[i] != '('
    ensures BaseType(name + "(" + params) == name
  {
    if name != "" {
      assert (name + "(" + params)[1..] == name[1..] + "(" + params;
      BaseTypeOfParameterised(name[1..], params);
    } else {
      assert (name + "(" + params)[0] == '(';
    }
  }

  lemma {:induction false} DigitsOfNatString(n: nat)
    ensures LeadingDigits(NatString(n)) == NatString(n)
    ensures DigitsValue(NatString(n)) == n
  {
    var s := NatString(n);
    assert LeadingDigits(s) == s by {
      AllDigitsLeading(s);
    }
    if n >= 10 {
      DigitsOfNatString(n / 10);
      assert s[..|s| - 1] == NatString(n / 10);
    }
  }

  lemma {:induction false} AllDigitsLeading(s: string)
    requires forall i :: 0 <= i < |s| ==> IsDigit(s[i])
    ensures LeadingDigits(s) == s
  {
    if s != "" {
      AllDigitsLeading(s[1..]);
    }
  }

  lemma SkipSpaceNone(s: string)
    requires s != "" && !IsSpace(s[0])
    ensures SkipSpace(s) == s
  {
  }

  lemma {:induction false} MagnitudeOfDigits(neg: bool, ds: string)
    requires ds != "" && forall i :: 0 <= i < |ds| ==> IsDigit(ds[i])
    ensures Magnitude(if neg then "-" + ds else ds) == DigitsValue(ds)
  {
    AllDigitsLeading(ds);
    if neg {
      assert ("-" + ds)[0] == '-' && ("-" + ds)[1..] == ds;
    }
  }

  lemma LeadingIntUnpadded(s: string)
    requires SkipSpace(s) == s
    ensures LeadingInt(s) == Clamp(if Negative(s) then -Magnitude(s) else Magnitude(s))
  {
  }

  /** LeadingInt on a run of digits s, with or without a minus sign before it. */
  lemma {:induction false} LeadingIntOfDigits(neg: bool, ds: string, s: string)
    requires ds != "" && forall i :: 0 <= i < |ds| ==> IsDigit(ds[i])
    requires s == if neg then "-" + ds else ds
    ensures var m: int := DigitsValue(ds); LeadingInt(s) == Clamp(if neg then -m else m)
  {
    assert s[0] == (if neg then '-' else ds[0]);
    SkipSpaceNone(s);
    LeadingIntUnpadded(s);
    MagnitudeOfDigits(neg, ds);
    assert Negative(s) == neg;
    var m: int := DigitsValue(ds);
    assert Magnitude(s) == m;
  }

  /** (int)(string)n == n for every 64-bit integer n. */
  lemma DecimalRoundTrip(n: int)
    requires IntMin <= n <= IntMax
    ensures ToInt(Str(DecimalString(n))) == n
  {
    var m: nat := if n < 0 then -n else n;
    DigitsOfNatString(m);
    LeadingIntOfDigits(n < 0, NatString(m), DecimalString(n));
  }

  /** A string column turns an int into its decimal text, and back. */
  lemma IntThroughStringColumn(n: int)
    requires IntMin <= n <= IntMax
    ensures Coerce(Some("int(11)"), Coerce(Some("varchar(255)"), Int(n))) == Int(n)
  {
    BaseTypeOfParameterised("int", "11)");
    BaseTypeOfParameterised("varchar", "255)");
    assert "int(11)" == "int" + "(" + "11)";
    assert "varchar(255)" == "varchar" + "(" + "255)";
    DecimalRoundTrip(n);
  }
}
