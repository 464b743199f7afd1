// Integer parsing and narrowing as the .NET framework does it: Int16.TryParse
// and the explicit conversion from System.Decimal to Int32.

module Numbers {
  import opened Wrappers
  import opened Text

  const MinInt16: int := -32768
  const MaxInt16: int := 32767
  const MinInt32: int := -0x8000_0000
  const MaxInt32: int := 0x7FFF_FFFF

  // ---------------------------------------------------------------------
  // Int16.TryParse(s, out v) with NumberStyles.Integer: optional white space,
  // an optional sign, one or more decimal digits, optional white space, and then
  // any number of '\0' characters, which the framework's parser also accepts.

  /** The white space NumberStyles.AllowLeadingWhite and AllowTrailingWhite accept. */
  predicate IsNumberWhite(c: char)
  {
    c == ' ' || ('\t' <= c <= '\r')
  }

  function StripNumberWhite(s: string): (r: string)
    ensures |r| <= |s|
    ensures r != [] ==> !IsNumberWhite(r[0]) && !IsNumberWhite(r[|r| - 1])
    decreases |s|
  {
    if s != [] && IsNumberWhite(s[0]) then StripNumberWhite(s[1..])
    else if s != [] && IsNumberWhite(s[|s| - 1]) then StripNumberWhite(s[..|s| - 1])
    else s
  }

  /** The string without the '\0' characters at its end. */
  function DropTrailingNul(s: string): (r: string)
    ensures |r| <= |s| && r == s[..|r|]
    ensures forall i :: |r| <= i < |s| ==> s[i] == '\0'
    ensures r != [] ==> r[|r| - 1] != '\0'
  {
    if s != [] && s[|s| - 1] == '\0' then DropTrailingNul(s[..|s| - 1]) else s
  }

  /** A sign and a digit string with the value they denote. */
  function SignedValue(negative: bool, digits: string): int
    requires AllDigits(digits)
  {
    var v: int := DigitsValue(digits);
    if negative then -v else v
  }

  /** Int16.TryParse: Some(v) when it returns true with v, None when it returns false. */
  function TryParseInt16(s: string): (r: Option<int>)
    ensures r.Some? ==> MinInt16 <= r.value <= MaxInt16
  {
    var t := StripNumberWhite(DropTrailingNul(s));
    if t == [] then None
    else
      var negative := t[0] == '-';
      var digits := if t[0] == '-' || t[0] == '+' then t[1..] else t;
      if digits == [] || !AllDigits(digits) then None
      else
        var v := SignedValue(negative, digits);
        if MinInt16 <= v <= MaxInt16 then Some(v) else None
  }

  /** Int16.ToString(): the shortest decimal rendering, with '-' for negatives. */
  function IntToString(n: int): (r: string)
    ensures r != []
  {
    if n < 0 then "-" + NatToString(-n) else NatToString(n)
  }

  /** TryParseInt16 accepts every rendered 16-bit value and gives it back. */
  lemma ParseInt16RoundTrip(n: int)
    requires MinInt16 <= n <= MaxInt16
    ensures TryParseInt16(IntToString(n)) == Some(n)
  {
    ParseRendered(n);
  }

  /** The rendered text of any integer parses to it exactly when it fits into 16 bits. */
  lemma ParseRendered(n: int)
    ensures TryParseInt16(IntToString(n)) == if MinInt16 <= n <= MaxInt16 then Some(n) else None
  {
    var s := IntToString(n);
    Unpadded(s);
    if n < 0 {
      var digits := NatToString(-n);
      assert s[0] == '-' && s[1..] == digits;
      NatToStringRoundTrip(-n);
      assert SignedValue(true, digits) == n;
    } else {
      assert IsDigit(s[0]) && s == NatToString(n);
      NatToStringRoundTrip(n);
      assert SignedValue(false, s) == n;
    }
  }

  /** '\0' characters after the number do not change what TryParseInt16 reads. */
  lemma ParseInt16IgnoresTrailingNul(s: string)
    ensures TryParseInt16(s + "\0") == TryParseInt16(s)
  {
    assert (s + "\0")[..|s + "\0"| - 1] == s;
  }

  /** A rendered number has nothing for TryParseInt16 to strip. */
  lemma Unpadded(s: string)
    requires s != [] && (s[0] == '-' || IsDigit(s[0])) && IsDigit(s[|s| - 1])
    ensures StripNumberWhite(DropTrailingNul(s)) == s
  {
  }

  /** White space around the number does not change what TryParseInt16 reads. */
  lemma ParseInt16IgnoresWhite(a: string, s: string, b: string)
    requires AllNumberWhite(a) && AllNumberWhite(b)
    requires s != [] ==> !IsNumberWhite(s[0]) && !IsNumberWhite(s[|s| - 1]) && s[|s| - 1] != '\0'
    ensures TryParseInt16(a + s + b) == TryParseInt16(s)
  {
    var w := a + s + b;
    assert DropTrailingNul(w) == w by {
      if w != [] {
        assert w[|w| - 1] != '\0';
      }
    }
    assert DropTrailingNul(s) == s;
    StripPadding(a, s, b);
    assert StripNumberWhite(s) == s by { StripTrailing(s, []); assert s + [] == s; }
  }

  predicate AllNumberWhite(s: string)
  {
    forall i :: 0 <= i < |s| ==> IsNumberWhite(s[i])
  }

  /** StripNumberWhite removes exactly the white space padding. */
  lemma StripPadding(a: string, s: string, b: string)
    requires AllNumberWhite(a) && AllNumberWhite(b)
    requires s != [] ==> !IsNumberWhite(s[0]) && !IsNumberWhite(s[|s| - 1])
    ensures StripNumberWhite(a + s + b) == s
  {
    if s == [] {
      assert a + s + b == (a + b) + [];
      StripLeading(a + b, []);
    } else {
      assert a + s + b == a + (s + b);
      StripLeading(a, s + b);
      StripTrailing(s, b);
    }
  }

  lemma {:induction false} StripLeading(a: string, t: string)
    requires AllNumberWhite(a)
    requires t != [] ==> !IsNumberWhite(t[0])
    ensures StripNumberWhite(a + t) == StripNumberWhite(t)
  {
    if a != [] {
      assert (a + t)[1..] == a[1..] + t;
      StripLeading(a[1..], t);
    } else {
      assert a + t == t;
    }
  }

  lemma {:induction false} StripTrailing(s: string, b: string)
    requires AllNumberWhite(b)
    requires s != [] ==> !IsNumberWhite(s[0]) && !IsNumberWhite(s[|s| - 1])
    ensures StripNumberWhite(s + b) == s
  {
    if b == [] {
      assert s + b == s;
    } else if s == [] {
      assert s + b == b && b[1..] == s + b[1..];
      StripTrailing(s, b[1..]);
    } else {
      assert (s + b)[..|s + b| - 1] == s + b[..|b| - 1];
      StripTrailing(s, b[..|b| - 1]);
    }
  }

  /** A value that does not fit into 16 bits is refused. */
  lemma ParseInt16RejectsWide(n: int)
    requires n < MinInt16 || MaxInt16 < n
    ensures TryParseInt16(IntToString(n)) == None
  {
    ParseRendered(n);
  }

  // ---------------------------------------------------------------------
  // System.Decimal and the explicit conversion (Int32)d

  function Pow10(k: nat): (p: nat)
    ensures p >= 1
  {
    if k == 0 then 1 else 10 * Pow10(k - 1)
  }

  /** A System.Decimal: the value mantissa / 10^scale. */
  datatype Decimal = Decimal(mantissa: int, scale: nat)

  function Abs(x: int): nat
  {
    if x < 0 then -x else x
  }

  /** Decimal.Truncate: the integral part, rounded toward zero. */
  function TruncateTowardZero(d: Decimal): (q: int)
    ensures Abs(q) * Pow10(d.scale) <= Abs(d.mantissa) < Abs(q) * Pow10(d.scale) + Pow10(d.scale)
    ensures q == 0 || (q < 0 <==> d.mantissa < 0)
  {
    var p := Pow10(d.scale);
    var m := Abs(d.mantissa);
    var a := FloorDiv(m, p);
    var q: int := if d.mantissa < 0 then -(a as int) else a;
    assert Abs(q) == a;
    q
  }

  /** m / p for a natural number m. */
  function FloorDiv(m: nat, p: nat): (a: nat)
    requires p >= 1
    ensures a * p <= m < a * p + p
  {
    m / p
  }

  /** (Int32)d: truncation toward zero, OverflowException outside the Int32 range. */
  function DecimalToInt32(d: Decimal): (r: Result<int>)
    ensures r.Ok? <==> MinInt32 <= TruncateTowardZero(d) <= MaxInt32
    ensures r.Ok? ==> r.value == TruncateTowardZero(d)
    ensures r.Err? ==> r.fault == Overflow
  {
    var q := TruncateTowardZero(d);
    if MinInt32 <= q <= MaxInt32 then Ok(q) else Err(Overflow)
  }

  /** For a whole-number Decimal the conversion is exact. */
  lemma DecimalToInt32Exact(n: int, scale: nat)
    requires MinInt32 <= n <= MaxInt32
    ensures DecimalToInt32(Decimal(n * Pow10(scale), scale)) == Ok(n)
  {
    var p := Pow10(scale);
    AbsMul(n, p);
    var a := FloorDiv(Abs(n) * p, p);
    UniqueQuotient(a, Abs(n), p);
    assert TruncateTowardZero(Decimal(n * p, scale)) == n;
  }

  lemma AbsMul(n: int, p: nat)
    ensures Abs(n * p) == Abs(n) * p
  {
    if n < 0 {
      assert n * p == -(Abs(n) * p);
    }
  }

  /** The quotient of a division by a positive p is unique. */
  lemma UniqueQuotient(a: nat, n: nat, p: nat)
    requires p >= 1 && a * p <= n * p < a * p + p
    ensures a == n
  {
    if a < n {
      MulMonotone(a + 1, n, p);
    } else if a > n {
      MulMonotone(n + 1, a, p);
    }
  }

  /** For a <= b, a * p <= b * p. */
  lemma MulMonotone(a: nat, b: nat, p: nat)
    requires a <= b
    ensures a * p <= b * p
  {
    assert b * p == a * p + (b - a) * p;
  }
}
