/**
 * JavaScript's global `parseInt(text)` with no radix argument, and the
 * `parseInt(x) || fallback` idiom the server uses to read `page` and
 * `limit` from the query string. A result of `None` stands for `NaN`.
 */
module ParseInt {
  import opened Wrappers

  /** The characters `parseInt` skips at the front: white space and line terminators. */
  predicate IsJsSpace(c: char)
  {
    var n := c as int;
    n == 0x09 || n == 0x0A || n == 0x0B || n == 0x0C || n == 0x0D || n == 0x20 ||
    n == 0xA0 || n == 0x1680 || (0x2000 <= n <= 0x200A) || n == 0x2028 || n == 0x2029 ||
    n == 0x202F || n == 0x205F || n == 0x3000 || n == 0xFEFF
  }

  /** The suffix of `s` that starts at its first non-space character. */
  function TrimStart(s: string): (r: string)
    ensures |r| <= |s| && r == s[|s| - |r|..]
    ensures r == [] || !IsJsSpace(r[0])
  {
    if s != [] && IsJsSpace(s[0]) then TrimStart(s[1..]) else s
  }

  /** The value of `c` as a digit in base `radix` (10 or 16), if it is one. */
  function DigitValue(c: char, radix: nat): Option<nat>
  {
    if '0' <= c <= '9' then (if c as int - '0' as int < radix then Some(c as int - '0' as int) else None)
    else if radix == 16 && 'a' <= c <= 'f' then Some(c as int - 'a' as int + 10)
    else if radix == 16 && 'A' <= c <= 'F' then Some(c as int - 'A' as int + 10)
    else None
  }

  /** The longest prefix of `s` made of digits of base `radix`. */
  function LeadingDigits(s: string, radix: nat): (r: string)
    ensures |r| <= |s| && r == s[..|r|]
    ensures forall i :: 0 <= i < |r| ==> DigitValue(r[i], radix).Some?
    ensures |r| < |s| ==> DigitValue(s[|r|], radix).None?
  {
    if s != [] && DigitValue(s[0], radix).Some? then [s[0]] + LeadingDigits(s[1..], radix) else []
  }

  /** The number a string of digits of base `radix` denotes, most significant digit first. */
  function DigitsValue(digits: string, radix: nat): nat
    requires forall i :: 0 <= i < |digits| ==> DigitValue(digits[i], radix).Some?
  {
    if digits == [] then 0
    else DigitsValue(digits[..|digits| - 1], radix) * radix + DigitValue(digits[|digits| - 1], radix).value
  }

  /**
   * `parseInt(s)`: skip leading space, read an optional sign, switch to base
   * 16 after a `0x`/`0X` prefix, then read as many digits as there are;
   * no digit at all gives NaN. Trailing text is ignored.
   */
  function ParseInt(s: string): (r: Option<int>)
    ensures TrimStart(s) == [] ==> r.None?
    ensures var t := TrimStart(s);
      |t| > 0 && !('0' <= t[0] <= '9') && t[0] != '-' && t[0] != '+' ==> r.None?
  {
    var t := TrimStart(s);
    if |t| > 0 && t[0] == '-' then
      Negate(ParseMagnitude(t[1..]))
    else if |t| > 0 && t[0] == '+' then Widen(ParseMagnitude(t[1..]))
    else Widen(ParseMagnitude(t))
  }

  function Negate(m: Option<nat>): Option<int>
  {
    match m
    case None => None
    case Some(v) => Some(-(v as int))
  }

  function Widen(m: Option<nat>): Option<int>
  {
    match m
    case None => None
    case Some(v) => Some(v)
  }

  /** The unsigned part: base 16 after a `0x`/`0X` prefix, base 10 otherwise. */
  function ParseMagnitude(u: string): Option<nat>
  {
    if |u| >= 2 && u[0] == '0' && (u[1] == 'x' || u[1] == 'X') then ParseDigits(u[2..], 16)
    else ParseDigits(u, 10)
  }

  /** The value of the leading digits of `body`, or NaN when there are none. */
  function ParseDigits(body: string, radix: nat): Option<nat>
  {
    var digits := LeadingDigits(body, radix);
    if digits == [] then None else Some(DigitsValue(digits, radix))
  }

  /**
   * `parseInt(query) || fallback` for a query value that may be absent:
   * an absent value, one that parses to NaN, or one that parses to zero all
   * give the fallback.
   */
  function QueryInt(query: Option<string>, fallback: int): (r: int)
    ensures query.None? ==> r == fallback
    ensures query.Some? && ParseInt(query.value).None? ==> r == fallback
    ensures query.Some? && ParseInt(query.value) == Some(0) ==> r == fallback
    ensures query.Some? && ParseInt(query.value).Some? && ParseInt(query.value).value != 0 ==>
      r == ParseInt(query.value).value
  {
    match query
    case None => fallback
    case Some(text) =>
      match ParseInt(text)
      case None => fallback
      case Some(n) => if n == 0 then fallback else n
  }

  /** The decimal text of a natural number, as `n.toString()` writes it. */
  function Decimal(n: nat): (r: string)
    ensures (|r| > 0 && '1' <= r[0] <= '9') || r == "0"
    ensures forall i :: 0 <= i < |r| ==> '0' <= r[i] <= '9'
  {
    if n < 10 then ["0123456789"[n]] else Decimal(n / 10) + ["0123456789"[n % 10]]
  }

  lemma {:induction false} DecimalValue(n: nat)
    ensures forall i :: 0 <= i < |Decimal(n)| ==> DigitValue(Decimal(n)[i], 10).Some?
    ensures DigitsValue(Decimal(n), 10) == n
  {
    var d := Decimal(n);
    if n >= 10 {
      DecimalValue(n / 10);
      assert d[..|d| - 1] == Decimal(n / 10);
    }
  }

  /**
   * Parsing reads back the number `toString` wrote, and stops at the first
   * character that is not a digit (the server reads `"2abc"` as 2). After
   * the text `"0"` an `x` would switch to base 16, so the trailing text may
   * not start with one.
   */
  lemma ParseDecimal(n: nat, rest: string)
    requires rest == [] || (!('0' <= rest[0] <= '9') && rest[0] != 'x' && rest[0] != 'X')
    ensures ParseInt(Decimal(n) + rest) == Some(n)
  {
    var s := Decimal(n) + rest;
    DecimalHead(n, rest);
    DecimalDigits(n, rest);
    ParseUnsigned(s);
  }

  /** A minus sign before the decimal text of `n` reads back as `-n`. */
  lemma ParseNegated(n: nat, rest: string)
    requires rest == [] || (!('0' <= rest[0] <= '9') && rest[0] != 'x' && rest[0] != 'X')
    ensures ParseInt("-" + Decimal(n) + rest) == Some(-(n as int))
  {
    MagnitudeOfDecimal(n, rest);
    SignedMagnitude(Decimal(n), rest, n);
  }

  lemma SignedMagnitude(d: string, rest: string, m: nat)
    requires ParseMagnitude(d + rest) == Some(m)
    ensures ParseInt("-" + d + rest) == Some(-(m as int))
  {
    MinusPrefix(d, rest);
  }

  lemma Regroup(a: string, b: string, c: string)
    ensures a + b + c == a + (b + c)
  {
  }

  lemma MagnitudeOfDecimal(n: nat, rest: string)
    requires rest == [] || (!('0' <= rest[0] <= '9') && rest[0] != 'x' && rest[0] != 'X')
    ensures ParseMagnitude(Decimal(n) + rest) == Some(n)
  {
    DecimalHead(n, rest);
    DecimalDigits(n, rest);
  }

  lemma MinusPrefix(d: string, rest: string)
    ensures ParseInt("-" + d + rest) == Negate(ParseMagnitude(d + rest))
  {
    var u := d + rest;
    var s := "-" + u;
    KeepsSign(u);
    assert s[0] == '-' && s[1..] == u;
    Regroup("-", d, rest);
  }

  lemma KeepsSign(u: string)
    ensures TrimStart("-" + u) == "-" + u
  {
    assert ("-" + u)[0] == '-';
  }

  lemma DecimalHead(n: nat, rest: string)
    requires rest == [] || (rest[0] != 'x' && rest[0] != 'X')
    ensures var s := Decimal(n) + rest;
      |s| > 0 && '0' <= s[0] <= '9' && ParseMagnitude(s) == ParseDigits(s, 10)
  {
    var d := Decimal(n);
    var s := d + rest;
    assert s[0] == d[0];
    if |d| == 1 && |s| >= 2 {
      assert s[1] == rest[0];
    }
  }

  lemma DecimalDigits(n: nat, rest: string)
    requires rest == [] || !('0' <= rest[0] <= '9')
    ensures ParseDigits(Decimal(n) + rest, 10) == Some(n)
  {
    DecimalValue(n);
    LeadingDigitsOf(Decimal(n), rest);
  }

  lemma ParseUnsigned(s: string)
    requires |s| > 0 && '0' <= s[0] <= '9'
    ensures ParseInt(s) == Widen(ParseMagnitude(s))
  {
    assert !IsJsSpace(s[0]);
    assert TrimStart(s) == s;
  }

  lemma {:induction false} LeadingDigitsOf(d: string, rest: string)
    requires forall i :: 0 <= i < |d| ==> '0' <= d[i] <= '9'
    requires rest == [] || !('0' <= rest[0] <= '9')
    ensures LeadingDigits(d + rest, 10) == d
  {
    if d != [] {
      assert (d + rest)[1..] == d[1..] + rest;
      LeadingDigitsOf(d[1..], rest);
    } else {
      assert d + rest == rest;
    }
  }

  /** A page number rendered by the browser is read back unchanged by the server. */
  lemma QueryReadsBack(n: nat, fallback: int)
    requires n >= 1
    ensures QueryInt(Some(Decimal(n)), fallback) == n
  {
    ParseDecimal(n, "");
    assert Decimal(n) + "" == Decimal(n);
  }

  /** Non-numeric text falls back to the default. */
  lemma NonNumericExample()
    ensures QueryInt(Some("abc"), 20) == 20
  {
    assert TrimStart("abc") == "abc";
    assert LeadingDigits("abc", 10) == [];
    assert ParseMagnitude("abc") == None;
  }

  /** Zero falls back to the default as well. */
  lemma ZeroExample()
    ensures QueryInt(Some("0"), 1) == 1
  {
    ParseDecimal(0, "");
    assert Decimal(0) + "" == "0";
  }

  /** Leading space and a minus sign are honoured: the value is negative. */
  lemma NegativeExample()
    ensures QueryInt(Some(" -3"), 1) == -3
  {
    assert " -3"[1..] == "-3";
    assert ParseInt(" -3") == Some(-3) by {
      MinusThree();
      LeadingSpace(" -3");
    }
  }

  lemma MinusThree()
    ensures ParseInt("-3") == Some(-3)
  {
    ParseNegated(3, "");
    assert "-" + Decimal(3) + "" == "-3";
  }

  /** A leading space does not change what `parseInt` reads. */
  lemma LeadingSpace(s: string)
    requires |s| > 0 && s[0] == ' '
    ensures ParseInt(s) == ParseInt(s[1..])
  {
    assert TrimStart(s) == TrimStart(s[1..]);
  }

  /** A `0x` prefix switches to base 16. */
  lemma HexExample()
    ensures QueryInt(Some("0x1A"), 20) == 26
  {
    HexMagnitude();
    assert TrimStart("0x1A") == "0x1A";
  }

  lemma HexMagnitude()
    ensures ParseMagnitude("0x1A") == Some(26)
  {
    assert "0x1A"[2..] == "1A";
    assert "1A"[1..] == "A";
    assert LeadingDigits("A", 16) == "A";
    assert LeadingDigits("1A", 16) == "1A";
    assert "1A"[..1] == "1";
    assert DigitsValue("1", 16) == 1;
  }
}
