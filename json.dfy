/**
 * Request bodies as `request.get_json()` yields them, and the way the
 * database adapter stores a Python value in a typed column.
 */
module Json {
  import opened Wrappers

  /** A decoded JSON value; `Float` is a number with a fraction, kept exact. */
  datatype Value =
    | Null
    | Bool(b: bool)
    | Int(i: int)
    | Float(r: real)
    | Str(s: string)
    | List(items: seq<Value>)
    | Obj(fields: map<string, Value>)

  /** A JSON object body. */
  type Payload = map<string, Value>

  /** `data.get(key)`: JSON null and an absent key are both Python's None. */
  function Get(data: Payload, key: string): (v: Value)
    ensures key !in data ==> v == Null
    ensures key in data ==> v == data[key]
  {
    if key in data then data[key] else Null
  }

  /** `isinstance(v, int)` and the integer it denotes: a bool is an int 0 or 1 in Python. */
  function AsInt(v: Value): (r: Option<int>)
    ensures r.Some? <==> v.Int? || v.Bool?
    ensures v.Int? ==> r == Some(v.i)
    ensures v.Bool? ==> r == Some(if v.b then 1 else 0)
  {
    match v
    case Int(i) => Some(i)
    case Bool(b) => Some(if b then 1 else 0)
    case _ => None
  }

  /** The digit character for `d`. */
  function Digit(d: int): (c: char)
    requires 0 <= d < 10
    ensures '0' <= c <= '9' && c as int - '0' as int == d
  {
    ('0' as int + d) as char
  }

  predicate AllDigits(s: string)
  {
    forall i :: 0 <= i < |s| ==> '0' <= s[i] <= '9'
  }

  /** The base-10 digits of `n`, most significant first, with no leading zero. */
  function Digits(n: nat): (s: string)
    ensures |s| > 0 && AllDigits(s)
    ensures |s| > 1 ==> s[0] != '0'
    decreases n
  {
    if n < 10 then [Digit(n)] else Digits(n / 10) + [Digit(n % 10)]
  }

  /** The number a string of digits denotes. */
  function DigitsValue(s: string): nat
    requires AllDigits(s)
    decreases |s|
  {
    if s == [] then 0 else DigitsValue(s[..|s| - 1]) * 10 + (s[|s| - 1] as int - '0' as int)
  }

  /** How PostgreSQL writes an integer as text: an optional '-' and the digits. */
  function DecimalText(n: int): (s: string)
    ensures |s| > 0
    ensures s[0] == '-' <==> n < 0
    ensures n < 0 ==> s == "-" + Digits(-n)
    ensures n >= 0 ==> s == Digits(n)
    ensures IsDecimal(s)
  {
    if n < 0 then
      var t := "-" + Digits(-n);
      assert t[1..] == Digits(-n);
      t
    else Digits(n)
  }

  /** Digits, possibly after a '-'. */
  predicate IsDecimal(s: string)
  {
    |s| > 0 && (AllDigits(s) || (s[0] == '-' && AllDigits(s[1..])))
  }

  /** Reading decimal text back: the inverse of `DecimalText`. */
  function ParseDecimal(s: string): int
    requires IsDecimal(s)
  {
    var magnitude: int := if s[0] == '-' then DigitsValue(s[1..]) else DigitsValue(s);
    if s[0] == '-' then -magnitude else magnitude
  }

  lemma {:induction false} DigitsRoundTrip(n: nat)
    ensures DigitsValue(Digits(n)) == n
    decreases n
  {
    if n >= 10 {
      DigitsRoundTrip(n / 10);
      var s := Digits(n);
      assert s[..|s| - 1] == Digits(n / 10);
    }
  }

  /** The text of an integer reads back as that integer, so distinct integers get distinct texts. */
  lemma DecimalTextRoundTrip(n: int, m: int)
    ensures ParseDecimal(DecimalText(n)) == n
    ensures DecimalText(n) == DecimalText(m) ==> n == m
  {
    DigitsRoundTrip(if n < 0 then -n else n);
    DigitsRoundTrip(if m < 0 then -m else m);
    if n < 0 {
      assert DecimalText(n)[1..] == Digits(-n);
    }
    if m < 0 {
      assert DecimalText(m)[1..] == Digits(-m);
    }
  }

  lemma DecimalTextExamples()
    ensures DecimalText(5) == "5" && DecimalText(-12) == "-12" && DecimalText(0) == "0"
  {
    assert Digits(12) == Digits(1) + [Digit(2)];
  }

  /** The text PostgreSQL's boolean output gives. */
  function BoolText(b: bool): string
  {
    if b then "true" else "false"
  }

  /** A string psycopg2 can send as a parameter: it refuses one holding U+0000. */
  predicate SqlText(v: Value)
  {
    v.Str? && '\0' !in v.s
  }

  /**
   * A value bound to a NOT NULL text column. psycopg2 sends an int as a
   * numeric literal and a bool as an SQL boolean, and PostgreSQL's
   * assignment casts store their text ('5', 'true'); null violates NOT
   * NULL; an object cannot be adapted at all, nor a string holding U+0000.
   */
  function AsText(v: Value): (r: Option<string>)
    ensures r.Some? <==> SqlText(v) || v.Int? || v.Bool?
    ensures SqlText(v) ==> r == Some(v.s)
    ensures v.Int? ==> r.Some? && IsDecimal(r.value) && ParseDecimal(r.value) == v.i
    ensures v.Bool? ==> r == Some(BoolText(v.b))
    ensures r.Some? ==> '\0' !in r.value
  {
    match v
    case Str(s) => if '\0' in s then None else Some(s)
    case Int(i) => DecimalTextRoundTrip(i, i); Some(DecimalText(i))
    case Bool(b) => Some(BoolText(b))
    case _ => None
  }

  /** Every character is a space. */
  predicate AllSpaces(s: string)
  {
    forall i :: 0 <= i < |s| ==> s[i] == ' '
  }

  /**
   * A value bound to a VARCHAR(n) NOT NULL column: as for text, except
   * that a text longer than `n` characters is cut to `n` when everything
   * past the `n`-th character is a space, and refused otherwise.
   */
  function AsVarchar(v: Value, n: nat): (r: Option<string>)
    ensures r.Some? <==> AsText(v).Some? && (|AsText(v).value| <= n || AllSpaces(AsText(v).value[n..]))
    ensures r.Some? ==> |r.value| <= n && r.value <= AsText(v).value
    ensures r.Some? ==> AllSpaces(AsText(v).value[|r.value|..])
    ensures r.Some? && |AsText(v).value| <= n ==> r == AsText(v)
  {
    match AsText(v)
    case None => None
    case Some(t) =>
      if |t| <= n then Some(t)
      else if AllSpaces(t[n..]) then Some(t[..n])
      else None
  }

  /** A text of exactly `n` characters followed by spaces is stored as that text. */
  lemma VarcharCutsSpaces(s: string, pad: string, n: nat)
    requires |s| == n && '\0' !in s && AllSpaces(pad)
    ensures AsVarchar(Str(s + pad), n) == Some(s)
  {
    var t := s + pad;
    assert '\0' !in t by {
      forall i | 0 <= i < |t| ensures t[i] != '\0' {
        if i >= |s| {
          assert t[i] == pad[i - |s|];
        } else {
          assert t[i] == s[i];
        }
      }
    }
    assert AsText(Str(t)) == Some(t);
    assert t[..n] == s;
    assert t[n..] == pad;
    if |t| > n {
      assert AllSpaces(t[n..]);
      assert AsVarchar(Str(t), n) == Some(t[..n]);
    } else {
      assert t == s;
    }
  }

  /** Only trailing spaces are cut, and only past the limit. */
  lemma VarcharExamples()
    ensures AsVarchar(Str("ab  "), 2) == Some("ab")
    ensures AsVarchar(Str("ab c"), 2) == None
    ensures AsVarchar(Str("a  "), 5) == Some("a  ")
    ensures AsVarchar(Int(-12), 2) == None
  {
    assert "ab  "[2..] == "  ";
    assert "ab  "[..2] == "ab";
    assert "ab c"[2..][1] == 'c';
    DecimalTextExamples();
  }

  /** A value bound to a nullable text column: None for null, otherwise as for a NOT NULL one. */
  function AsNullableText(v: Value): (r: Option<Option<string>>)
    ensures r.Some? <==> v.Null? || AsText(v).Some?
    ensures v.Null? ==> r == Some(None)
    ensures !v.Null? && r.Some? ==> r.value == AsText(v)
  {
    if v.Null? then Some(None)
    else match AsText(v)
      case Some(t) => Some(Some(t))
      case None => None
  }

  const INT_MIN := -0x8000_0000
  const INT_MAX := 0x7fff_ffff

  /** What a PostgreSQL INTEGER column holds: a signed 32-bit value. */
  predicate FitsInteger(n: int)
  {
    INT_MIN <= n <= INT_MAX
  }

  /**
   * A value bound to an INTEGER column. An int is stored if it fits in 32
   * bits. psycopg2 sends a float as a numeric literal, which the
   * assignment cast rounds half away from zero. A bool goes as an SQL
   * boolean, which the column refuses though `isinstance(True, int)` holds.
   */
  function AsColumnInt(v: Value): (r: Option<int>)
    ensures r.Some? <==> (v.Int? && FitsInteger(v.i)) || (v.Float? && FitsInteger(RoundHalfAway(v.r)))
    ensures v.Int? && r.Some? ==> r.value == v.i
    ensures v.Float? && r.Some? ==> r.value as real - 0.5 <= v.r <= r.value as real + 0.5
    ensures v.Bool? ==> r.None? && AsInt(v).Some?
  {
    match v
    case Int(i) => if FitsInteger(i) then Some(i) else None
    case Float(x) => if FitsInteger(RoundHalfAway(x)) then Some(RoundHalfAway(x)) else None
    case _ => None
  }

  /** A value bound to a nullable INTEGER column: None for null, otherwise as for a NOT NULL one. */
  function AsNullableInt(v: Value): (r: Option<Option<int>>)
    ensures r.Some? <==> v.Null? || AsColumnInt(v).Some?
    ensures v.Null? ==> r == Some(None)
    ensures !v.Null? && r.Some? ==> r.value == AsColumnInt(v)
  {
    if v.Null? then Some(None)
    else match AsColumnInt(v)
      case Some(i) => Some(Some(i))
      case None => None
  }

  /**
   * Python's `v == x`, for a decoded value and what a nullable INTEGER
   * column loaded: `True == 1` and `3.0 == 3` hold.
   */
  predicate SameInt(v: Value, x: Option<int>)
  {
    match v
    case Null => x.None?
    case Bool(b) => x == Some(if b then 1 else 0)
    case Int(i) => x == Some(i)
    case Float(r) => x.Some? && r == x.value as real
    case _ => false
  }

  /** Python's `v == x`, for a decoded value and what a nullable text column loaded: `5 == '5'` does not hold. */
  predicate SameText(v: Value, x: Option<string>)
  {
    match v
    case Null => x.None?
    case Str(s) => x == Some(s)
    case _ => false
  }

  /**
   * A value equal in Python to the loaded one would be stored as that
   * same value, except a bool, which the INTEGER column refuses: only for
   * bools does leaving the column unwritten change the outcome.
   */
  lemma SameValueStoresSame(v: Value, x: Option<int>, t: Option<string>)
    ensures SameInt(v, x) && !v.Bool? && (x.Some? ==> FitsInteger(x.value)) ==> AsNullableInt(v) == Some(x)
    ensures SameInt(v, x) && v.Bool? ==> AsNullableInt(v).None?
    ensures SameText(v, t) && (t.Some? ==> '\0' !in t.value) ==> AsNullableText(v) == Some(t)
  {
    if v.Float? && SameInt(v, x) {
      assert RoundHalfAway(v.r) == x.value;
    }
  }

  /**
   * Rounds half away from zero, the way a decimal is rounded to a
   * NUMERIC column's scale.
   */
  function RoundHalfAway(x: real): (n: int)
    ensures x >= 0.0 ==> n as real <= x + 0.5 < n as real + 1.0
    ensures x < 0.0 ==> n as real - 1.0 < x - 0.5 <= n as real
  {
    if x >= 0.0 then (x + 0.5).Floor else -((-x + 0.5).Floor)
  }

  /** The assignment casts on a few values: a number's text, a float rounded half away from zero, a bool refused. */
  lemma ColumnCastExamples()
    ensures AsText(Int(5)) == Some("5") && AsText(Bool(true)) == Some("true")
    ensures AsColumnInt(Float(30.5)) == Some(31) && AsColumnInt(Float(-2.5)) == Some(-3)
    ensures AsColumnInt(Float(3.0)) == Some(3) && AsColumnInt(Bool(true)) == None
  {
    DecimalTextExamples();
  }

  /**
   * A value bound to a NUMERIC(p, 2) column, as a count of hundredths:
   * an int is exact, a float is rounded to the nearest hundredth, and a
   * bool (sent as an SQL boolean) or any other value is refused.
   */
  function AsHundredths(v: Value): (r: Option<int>)
    ensures r.Some? <==> v.Int? || v.Float?
    ensures v.Int? ==> r == Some(100 * v.i)
    ensures v.Float? ==> r.Some? && r.value as real - 0.5 <= v.r * 100.0 <= r.value as real + 0.5
  {
    match v
    case Float(r) => Some(RoundHalfAway(r * 100.0))
    case Int(i) => Some(100 * i)
    case _ => None
  }

  /**
   * What a Python `for` loop over the value visits: a list's items, a
   * string's one-character strings, nothing for an empty object. A
   * non-empty object yields its keys (strings) in an order not modelled
   * here, and neither loop of `create_recipe` accepts a string element,
   * so it is reported as failing; any other value is not iterable.
   */
  function Elements(v: Value): (r: Option<seq<Value>>)
    ensures v.List? ==> r == Some(v.items)
    ensures v.Str? ==> r.Some? && |r.value| == |v.s|
    ensures v.Str? ==> forall i :: 0 <= i < |v.s| ==> r.value[i] == Str([v.s[i]])
    ensures v.Obj? ==> (r.Some? <==> v.fields == map[]) && (r.Some? ==> r.value == [])
    ensures v.Null? || v.Bool? || v.Int? || v.Float? ==> r.None?
  {
    match v
    case List(xs) => Some(xs)
    case Str(s) => Some(seq(|s|, i requires 0 <= i < |s| => Str([s[i]])))
    case Obj(m) => if m == map[] then Some([]) else None
    case _ => None
  }
}
