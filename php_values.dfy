/**
 * The PHP values the plugin handles, and the two PHP value semantics its
 * decisions depend on: truthiness (`if ($v)`) and loose comparison (`==`,
 * `in_array`), following the comparison rules of PHP 8.
 */
module PhpValues {

  datatype Option<T> = None | Some(value: T)

  /** A computation that either yields a value or halts the request with a PHP fatal error. */
  datatype Result<T> = Ok(value: T) | Fatal(message: string)

  /** A PHP array key. PHP stores a string key that is the canonical text of
      an integer as that integer; `WellFormedKey` states this of a key. */
  datatype Key = IntKey(n: int) | StrKey(s: string)

  /** PHP values without floats and objects; an array is its ordered list of entries. */
  datatype Value =
    | Null
    | Bool(b: bool)
    | Int(n: int)
    | Str(s: string)
    | Arr(entries: seq<(Key, Value)>)

  /** The entries of a PHP array, in iteration order. */
  type Entries = seq<(Key, Value)>

  /** PHP's conversion to bool. */
  predicate Truthy(v: Value)
  {
    match v
    case Null => false
    case Bool(b) => b
    case Int(n) => n != 0
    case Str(s) => s != "" && s != "0"
    case Arr(e) => |e| > 0
  }

  // ---------------------------------------------------------------------------
  // Integer numeric strings
  // ---------------------------------------------------------------------------

  /** The whitespace PHP allows around a numeric string. */
  predicate IsWhitespace(c: char)
  {
    c == ' ' || c == '\t' || c == '\n' || c == '\r' || c == '\U{0B}' || c == '\U{0C}'
  }

  /** `s` without its leading whitespace. */
  function TrimStart(s: string): string
  {
    if s != [] && IsWhitespace(s[0]) then TrimStart(s[1..]) else s
  }

  /** `s` without its trailing whitespace. */
  function TrimEnd(s: string): string
  {
    if s != [] && IsWhitespace(s[|s| - 1]) then TrimEnd(s[..|s| - 1]) else s
  }

  predicate IsDigit(c: char)
  {
    '0' <= c <= '9'
  }

  predicate AllDigits(s: string)
  {
    forall i :: 0 <= i < |s| ==> IsDigit(s[i])
  }

  /** The number a string of decimal digits denotes. */
  function DigitsValue(d: string): nat
    requires AllDigits(d)
  {
    if d == [] then 0
    else 10 * DigitsValue(d[..|d| - 1]) + (d[|d| - 1] as int - '0' as int)
  }

  /** The integer a PHP integer numeric string denotes: optional whitespace,
      an optional sign, at least one digit, optional whitespace. Any other
      string gives None. */
  function ParseInt(s: string): Option<int>
  {
    var t := TrimEnd(TrimStart(s));
    if t != [] && (t[0] == '+' || t[0] == '-') then
      var d := t[1..];
      if d != [] && AllDigits(d) then
        Some(if t[0] == '-' then 0 - DigitsValue(d) as int else DigitsValue(d) as int)
      else None
    else if t != [] && AllDigits(t) then Some(DigitsValue(t))
    else None
  }

  /** Decimal notation of a natural number, without leading zeros. */
  function NatToDecimal(n: nat): (d: string)
    ensures d != [] && AllDigits(d) && DigitsValue(d) == n
    ensures d[0] != '0' || n == 0
  {
    var last := ('0' as int + n % 10) as char;
    if n < 10 then [last]
    else
      var prefix := NatToDecimal(n / 10);
      assert (prefix + [last])[..|prefix|] == prefix;
      prefix + [last]
  }

  /** PHP's conversion of an integer to a string (`"{$n}"`, `(string)$n`). */
  function IntToDecimal(n: int): string
  {
    if n < 0 then "-" + NatToDecimal(-n) else NatToDecimal(n)
  }

  /** Reading back the text of an integer gives the integer. */
  lemma ParseIntOfDecimal(n: int)
    ensures ParseInt(IntToDecimal(n)) == Some(n)
  {
    var s := IntToDecimal(n);
    assert TrimStart(s) == s;
    assert TrimEnd(s) == s;
    if n < 0 {
      assert s[1..] == NatToDecimal(-n);
    }
  }

  /** Leading whitespace does not change the integer a string denotes. */
  lemma ParseIntLeadingWhitespace(c: char, s: string)
    requires IsWhitespace(c)
    ensures ParseInt([c] + s) == ParseInt(s)
  {
    assert ([c] + s)[0] == c && ([c] + s)[1..] == s;
  }

  /** A leading zero does not change the value of a digit string. */
  lemma {:induction false} DigitsValueLeadingZero(d: string)
    requires AllDigits(d)
    ensures AllDigits("0" + d) && DigitsValue("0" + d) == DigitsValue(d)
  {
    if d != [] {
      DigitsValueLeadingZero(d[..|d| - 1]);
      assert ("0" + d)[..|"0" + d| - 1] == "0" + d[..|d| - 1];
    }
  }

  /** A string of digits denotes the number they spell. */
  lemma ParseIntDigits(d: string)
    requires d != [] && AllDigits(d)
    ensures ParseInt(d) == Some(DigitsValue(d) as int)
  {
    assert !IsWhitespace(d[0]) && !IsWhitespace(d[|d| - 1]);
    assert TrimStart(d) == d;
    assert TrimEnd(d) == d;
    assert d[0] != '+' && d[0] != '-';
  }

  /** A leading zero does not change the integer a string of digits denotes. */
  lemma ParseIntLeadingZero(d: string)
    requires d != [] && AllDigits(d)
    ensures ParseInt("0" + d) == ParseInt(d)
  {
    DigitsValueLeadingZero(d);
    ParseIntDigits(d);
    ParseIntDigits("0" + d);
  }

  /** Trailing whitespace is trimmed only up to a first character that is not whitespace. */
  lemma {:induction false} TrimEndKeepsHead(s: string)
    requires s != [] && !IsWhitespace(s[0])
    ensures TrimEnd(s) != [] && TrimEnd(s)[0] == s[0]
  {
    if IsWhitespace(s[|s| - 1]) {
      TrimEndKeepsHead(s[..|s| - 1]);
    }
  }

  /** A string starting with a lower-case letter is not numeric. */
  lemma ParseIntLetterStart(s: string)
    requires s != [] && 'a' <= s[0] <= 'z'
    ensures ParseInt(s).None?
  {
    assert TrimStart(s) == s;
    TrimEndKeepsHead(s);
    var t := TrimEnd(s);
    assert !IsDigit(t[0]);
  }

  // ---------------------------------------------------------------------------
  // Keys as values and as text
  // ---------------------------------------------------------------------------

  /** `s` is the text PHP writes for some integer ("5", "-5"; not "05", " 5" or "+5"). */
  predicate CanonicalInt(s: string)
  {
    ParseInt(s).Some? && IntToDecimal(ParseInt(s).value) == s
  }

  /** A key as PHP stores it: a string key never holds the canonical text of
      an integer, since PHP turns such a key into the integer. */
  predicate WellFormedKey(k: Key)
  {
    k.StrKey? ==> !CanonicalInt(k.s)
  }

  /** A string key starting with a lower-case letter is stored as a string. */
  lemma LetterKeyWellFormed(s: string)
    requires s != [] && 'a' <= s[0] <= 'z'
    ensures WellFormedKey(StrKey(s))
  {
    ParseIntLetterStart(s);
  }

  /** The value a `foreach ($a as $k => $v)` loop binds to `$k`. */
  function KeyValue(k: Key): (v: Value)
    ensures !v.Arr? && !v.Null?
  {
    match k
    case IntKey(n) => Int(n)
    case StrKey(s) => Str(s)
  }

  /** The text of a key interpolated into a string (`"status_{$k}"`). */
  function KeyText(k: Key): string
  {
    match k
    case IntKey(n) => IntToDecimal(n)
    case StrKey(s) => s
  }

  /** Keys as PHP stores them have distinct texts: interpolating a key into a
      string loses nothing. */
  lemma KeyTextInjective(k1: Key, k2: Key)
    requires WellFormedKey(k1) && WellFormedKey(k2) && KeyText(k1) == KeyText(k2)
    ensures k1 == k2
  {
    match (k1, k2)
    case (IntKey(m), IntKey(n)) =>
      ParseIntOfDecimal(m);
      ParseIntOfDecimal(n);
    case (IntKey(m), StrKey(t)) =>
      ParseIntOfDecimal(m);
    case (StrKey(t), IntKey(n)) =>
      ParseIntOfDecimal(n);
    case (StrKey(_), StrKey(_)) =>
  }

  /** PHP's `(string)` conversion, as `array_diff` uses it. */
  function StringOf(v: Value): string
  {
    match v
    case Null => ""
    case Bool(b) => if b then "1" else ""
    case Int(n) => IntToDecimal(n)
    case Str(s) => s
    case Arr(_) => "Array"
  }

  // ---------------------------------------------------------------------------
  // Loose comparison
  // ---------------------------------------------------------------------------

  /** PHP 8's `a == b` for operands that are not both arrays: null against a
      string compares with "", bool or null against anything compares
      truthiness, two numeric strings or a number and a numeric string compare
      numerically, other strings compare as text, and an array never equals a
      scalar. */
  predicate LooseEq(a: Value, b: Value)
    requires !(a.Arr? && b.Arr?)
  {
    match (a, b)
    case (Null, Null) => true
    case (Null, Str(t)) => t == ""
    case (Str(s), Null) => s == ""
    case (Bool(x), _) => x == Truthy(b)
    case (_, Bool(y)) => Truthy(a) == y
    case (Null, _) => !Truthy(b)
    case (_, Null) => !Truthy(a)
    case (Int(x), Int(y)) => x == y
    case (Int(x), Str(t)) => ParseInt(t) == Some(x)
    case (Str(s), Int(y)) => ParseInt(s) == Some(y)
    case (Str(s), Str(t)) =>
      if ParseInt(s).Some? && ParseInt(t).Some? then ParseInt(s) == ParseInt(t) else s == t
    case (_, _) => false
  }

  /** Loose comparison is symmetric. */
  lemma LooseEqSymmetric(a: Value, b: Value)
    requires !(a.Arr? && b.Arr?)
    ensures LooseEq(a, b) == LooseEq(b, a)
  {
  }

  /** A string that is not numeric is loosely equal to another string only when
      the two are the same text. */
  lemma LooseEqNonNumeric(s: string, t: string)
    requires ParseInt(s).None?
    ensures LooseEq(Str(s), Str(t)) <==> s == t
  {
  }
}
