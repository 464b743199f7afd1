// DBHandler.toString, toInt32 and toBool: the per-cell coercion of a boxed
// database value into a display string, an Int32 or a bool.

module Coercion {
  import opened Wrappers
  import opened Text
  import opened Numbers
  import opened Runtime

  // The default values of toString's dateFormat and timeFormat parameters.
  const DefaultDateFormat: string := "dd/MM/yyyy"
  const DefaultTimeFormat: string := " HH:mm"

  /** boolStr: per column name, the labels to show for true and false. */
  type LabelTable = map<string, map<bool, string>>

  // ---------------------------------------------------------------------
  // toString

  /** The labels toString falls back to when no label table applies. */
  function BoolText(b: bool): string
  {
    if b then "true" else "false"
  }

  /** header != null && header.ToLower().Contains("time") */
  predicate MentionsTime(header: Option<string>)
  {
    header.Some? && Contains(Lower(header.value), "time")
  }

  /** The pattern a DateTime cell is formatted with. */
  function DatePattern(header: Option<string>, dateFormat: string, timeFormat: string): string
  {
    if MentionsTime(header) then dateFormat + timeFormat else dateFormat
  }

  const TicksPerMinute: nat := 600_000_000
  const TicksPerHour: nat := 60 * TicksPerMinute
  const TicksPerDay: nat := 24 * TicksPerHour

  /** TimeSpan.ToString(@"hh\:mm"): hours within the day and minutes within the hour,
      each as two digits, without the sign of a negative span. */
  function HoursMinutes(ticks: int): string
  {
    var time := Abs(ticks) % TicksPerDay;
    TwoDigits(time / TicksPerHour) + ":" + TwoDigits(time / TicksPerMinute % 60)
  }

  /** The Boolean case of toString. */
  function BooleanText(v: Scalar, header: Option<string>, boolStr: Option<LabelTable>): (r: Result<string>)
  {
    if boolStr.None? then
      if v.Boolean? then Ok(BoolText(v.b)) else Err(InvalidCast)
    else if header.None? then
      Err(ArgumentNull)                 // Dictionary.ContainsKey(null) throws
    else if header.value !in boolStr.value then
      if v.Boolean? then Ok(BoolText(v.b)) else Err(InvalidCast)
    else if !v.Boolean? then
      Err(InvalidCast)
    else if v.b !in boolStr.value[header.value] then
      Err(KeyNotFound)
    else
      Ok(boolStr.value[header.value][v.b])
  }

  /** DBHandler.toString(obj, type, header, boolStr, dateFormat, timeFormat). */
  function ToString(obj: Option<Scalar>, typeName: string, header: Option<string>,
                    boolStr: Option<LabelTable>, dateFormat: string, timeFormat: string,
                    p: Platform): (r: Result<string>)
    ensures obj.None? ==> r == Ok("")
    ensures r.Err? ==> r.fault in {InvalidCast, ArgumentNull, KeyNotFound, Format}
    ensures r == Err(Format) <==>
              && obj.Some? && typeName == "DateTime" && obj.value.DateTimeValue?
              && p.formatDateTime(obj.value.dt, DatePattern(header, dateFormat, timeFormat)).None?
    ensures obj.Some? && typeName !in {"Boolean", "DateTime", "TimeSpan"} ==> r == Ok(ObjectToString(obj.value, p))
  {
    if obj.None? then Ok("")
    else if typeName == "Boolean" then BooleanText(obj.value, header, boolStr)
    else if typeName == "DateTime" then
      if obj.value.DateTimeValue? then
        match p.formatDateTime(obj.value.dt, DatePattern(header, dateFormat, timeFormat))
        case Some(text) => Ok(text)
        case None => Err(Format)
      else Err(InvalidCast)
    else if typeName == "TimeSpan" then
      if obj.value.TimeSpan? then Ok(HoursMinutes(obj.value.ticks)) else Err(InvalidCast)
    else Ok(ObjectToString(obj.value, p))
  }

  /** A Boolean without a label table for its column shows as "true" or "false";
      with one, as the column's label for the value. */
  lemma BooleanLabels(b: bool, header: Option<string>, boolStr: Option<LabelTable>,
                      dateFormat: string, timeFormat: string, p: Platform)
    requires boolStr.Some? ==> header.Some?
    ensures var r := ToString(Some(Boolean(b)), "Boolean", header, boolStr, dateFormat, timeFormat, p);
            if boolStr.None? || header.value !in boolStr.value then r == Ok(if b then "true" else "false")
            else if b in boolStr.value[header.value] then r == Ok(boolStr.value[header.value][b])
            else r == Err(KeyNotFound)
  {
  }

  /** The column name spells "time" somewhere, in any mix of upper and lower case. */
  ghost predicate SpellsTime(header: string)
  {
    exists i :: OccursAt(Lower(header), "time", i)
  }

  /** The date-and-time pattern is chosen exactly when the column name spells "time";
      a pattern the framework refuses gives the FormatException. */
  lemma DateTimePattern(t: DateTime, header: Option<string>, dateFormat: string, timeFormat: string, p: Platform)
    ensures var r := ToString(Some(DateTimeValue(t)), "DateTime", header, None, dateFormat, timeFormat, p);
            var shown := p.formatDateTime(t, if header.Some? && SpellsTime(header.value)
                                             then dateFormat + timeFormat else dateFormat);
            && (shown.Some? ==> r == Ok(shown.value))
            && (shown.None? ==> r == Err(Format))
  {
    if header.Some? {
      ContainsWindow(Lower(header.value), "time");
    }
  }

  /** Examples of the pattern choice: a column named "EndTime" gets the date and the
      time pattern; no column name, the date alone. With the default patterns these are
      "dd/MM/yyyy HH:mm" and "dd/MM/yyyy". The general statement is DateTimePattern. */
  lemma DateTimePatternExamples(dateFormat: string, timeFormat: string)
    ensures DatePattern(Some("EndTime"), dateFormat, timeFormat) == dateFormat + timeFormat
    ensures DatePattern(None, dateFormat, timeFormat) == dateFormat
    ensures DatePattern(Some("EndTime"), DefaultDateFormat, DefaultTimeFormat) == "dd/MM/yyyy HH:mm"
    ensures DatePattern(Some("Name"), DefaultDateFormat, DefaultTimeFormat) == "dd/MM/yyyy"
  {
    EndTimeMentionsTime();
    NameLacksTime();
  }

  lemma EndTimeMentionsTime()
    ensures MentionsTime(Some("EndTime"))
  {
  }

  lemma NameLacksTime()
    ensures !MentionsTime(Some("Name"))
  {
    var s := Lower("Name");
    assert s == "name" by {
      LowerAt("Name", 0);
      LowerAt("Name", 1);
      LowerAt("Name", 2);
      LowerAt("Name", 3);
    }
    assert !StartsWith(s, "time") && !StartsWith(s[1..], "time");
    assert s[1..][1..][1..][1..] == [];
  }

  /** A span of d days, h hours, m minutes and s sub-minute ticks, in either
      direction, shows as hh:mm, and the two fields read back as h and m. */
  lemma {:induction false} TimeSpanDisplay(d: nat, h: nat, m: nat, s: nat, negative: bool,
                                           header: Option<string>, boolStr: Option<LabelTable>,
                                           dateFormat: string, timeFormat: string, p: Platform)
    requires h < 24 && m < 60 && s < TicksPerMinute
    ensures var mag := d * TicksPerDay + h * TicksPerHour + m * TicksPerMinute + s;
            var r := ToString(Some(TimeSpan(if negative then -mag else mag)), "TimeSpan",
                              header, boolStr, dateFormat, timeFormat, p);
            && r == Ok(TwoDigits(h) + ":" + TwoDigits(m))
            && |r.value| == 5 && r.value[2] == ':'
            && DigitsValue(r.value[..2]) == h && DigitsValue(r.value[3..]) == m
  {
    var mag := d * TicksPerDay + h * TicksPerHour + m * TicksPerMinute + s;
    var ticks := if negative then -mag else mag;
    assert ToString(Some(TimeSpan(ticks)), "TimeSpan", header, boolStr, dateFormat, timeFormat, p)
           == Ok(HoursMinutes(ticks));
    HoursMinutesOf(d, h, m, s, negative);
    ClockReadsBack(h, m);
  }

  lemma HoursMinutesOf(d: nat, h: nat, m: nat, s: nat, negative: bool)
    requires h < 24 && m < 60 && s < TicksPerMinute
    ensures var mag := d * TicksPerDay + h * TicksPerHour + m * TicksPerMinute + s;
            HoursMinutes(if negative then -mag else mag) == TwoDigits(h) + ":" + TwoDigits(m)
  {
    var mag := d * TicksPerDay + h * TicksPerHour + m * TicksPerMinute + s;
    assert Abs(if negative then -mag else mag) == mag;
    WithinDay(d, h, m, s);
  }

  /** The two fields of hh:mm read back as the hours and the minutes. */
  lemma ClockReadsBack(h: nat, m: nat)
    requires h < 24 && m < 60
    ensures var r := TwoDigits(h) + ":" + TwoDigits(m);
            |r| == 5 && r[2] == ':' && DigitsValue(r[..2]) == h && DigitsValue(r[3..]) == m
  {
    var r := TwoDigits(h) + ":" + TwoDigits(m);
    assert r[..2] == TwoDigits(h) && r[3..] == TwoDigits(m);
    TwoDigitsRoundTrip(h);
    TwoDigitsRoundTrip(m);
  }

  /** The time of day of such a span, and its hour and minute fields. */
  lemma WithinDay(d: nat, h: nat, m: nat, s: nat)
    requires h < 24 && m < 60 && s < TicksPerMinute
    ensures var inDay := h * TicksPerHour + m * TicksPerMinute + s;
            && (d * TicksPerDay + inDay) % TicksPerDay == inDay
            && inDay / TicksPerHour == h
            && inDay / TicksPerMinute % 60 == m
  {
    assert TicksPerHour == 36_000_000_000 && TicksPerDay == 864_000_000_000;
    var inDay := h * 36_000_000_000 + m * 600_000_000 + s;
    assert inDay / 600_000_000 == h * 60 + m;
  }

  // ---------------------------------------------------------------------
  // toBool

  /** obj.ToString().ToLower().Trim() == "true" || obj.ToString().Trim() == "1" */
  predicate ReadsAsTrue(s: string)
  {
    Trim(Lower(s)) == "true" || Trim(s) == "1"
  }

  /** DBHandler.toBool(obj, type). */
  function ToBool(obj: Option<Scalar>, typeName: string, p: Platform): (r: Result<bool>)
    ensures obj.None? ==> r == Ok(false)
    ensures obj.Some? && typeName != "String" && obj.value.Boolean? ==> r == Ok(obj.value.b)
    ensures r.Err? ==> r.fault == InvalidCast && typeName != "String"
  {
    if obj.None? then Ok(false)
    else if typeName == "String" then Ok(ReadsAsTrue(ObjectToString(obj.value, p)))
    else if obj.value.Boolean? then Ok(obj.value.b)
    else Err(InvalidCast)
  }

  /** Lower-casing leaves white space where it is, so it commutes with trimming. */
  lemma LowerWhiteSpace(c: char)
    ensures IsWhiteSpace(LowerChar(c)) <==> IsWhiteSpace(c)
  {
  }

  lemma {:induction false} TrimStartLower(s: string)
    ensures TrimStart(Lower(s)) == Lower(TrimStart(s))
  {
    if s != [] {
      var l := Lower(s);
      assert l == [LowerChar(s[0])] + Lower(s[1..]);
      assert l[0] == LowerChar(s[0]) && l[1..] == Lower(s[1..]);
      LowerWhiteSpace(s[0]);
      TrimStartLower(s[1..]);
    }
  }

  lemma {:induction false} TrimEndLower(s: string)
    ensures TrimEnd(Lower(s)) == Lower(TrimEnd(s))
  {
    if s != [] {
      var n := |s| - 1;
      assert s == s[..n] + [s[n]];
      LowerConcat(s[..n], [s[n]]);
      var l := Lower(s);
      assert Lower([s[n]]) == [LowerChar(s[n])];
      assert l[..n] == Lower(s[..n]) && l[n] == LowerChar(s[n]);
      LowerWhiteSpace(s[n]);
      TrimEndLower(s[..n]);
    }
  }

  lemma TrimLower(s: string)
    ensures Trim(Lower(s)) == Lower(Trim(s))
  {
    TrimStartLower(s);
    TrimEndLower(TrimStart(s));
  }

  /** A word that toBool reads as true. */
  predicate TrueWord(w: string)
  {
    w == "1" || Lower(w) == "true"
  }

  /** toBool of a String value reads its trimmed text. */
  lemma ToBoolReadsTrimmed(s: string, p: Platform)
    ensures ToBool(Some(StringValue(s)), "String", p) == Ok(TrueWord(Trim(s)))
  {
    assert ToBool(Some(StringValue(s)), "String", p) == Ok(ReadsAsTrue(s));
    ReadsAsTrueTrimmed(s);
  }

  lemma ReadsAsTrueTrimmed(s: string)
    ensures ReadsAsTrue(s) == TrueWord(Trim(s))
  {
    TrimLower(s);
  }

  /** A trimmed word that toBool accepts, padded with white space. */
  ghost predicate PaddedTrueWord(s: string)
  {
    exists a, w, b :: s == a + w + b && AllWhiteSpace(a) && AllWhiteSpace(b) && TrueWord(w)
  }

  /** A word toBool accepts has no white space at either end. */
  lemma TrueWordEnds(w: string)
    requires TrueWord(w)
    ensures w != [] && !IsWhiteSpace(w[0]) && !IsWhiteSpace(w[|w| - 1])
  {
    if w != "1" {
      var l := Lower(w);
      assert |w| == 4;
      LowerAt(w, 0);
      LowerAt(w, 3);
      assert LowerChar(w[0]) == l[0] == 't';
      assert LowerChar(w[3]) == l[3] == 'e';
      LowerWhiteSpace(w[0]);
      LowerWhiteSpace(w[3]);
    }
  }

  lemma TrimmedTrueWordPadded(s: string)
    requires TrueWord(Trim(s))
    ensures PaddedTrueWord(s)
  {
    var a, b := TrimSplits(s);
  }

  lemma PaddedTrueWordTrimmed(s: string)
    requires PaddedTrueWord(s)
    ensures TrueWord(Trim(s))
  {
    var a, w, b :| s == a + w + b && AllWhiteSpace(a) && AllWhiteSpace(b) && TrueWord(w);
    TrueWordEnds(w);
    TrimPadded(a, w, b);
  }

  lemma TrueWordPadding(s: string)
    ensures TrueWord(Trim(s)) <==> PaddedTrueWord(s)
  {
    if TrueWord(Trim(s)) {
      TrimmedTrueWordPadded(s);
    }
    if PaddedTrueWord(s) {
      PaddedTrueWordTrimmed(s);
    }
  }

  /** For a String value, toBool is true exactly when the text is "1" or "true" in
      any letter case, with nothing but white space around it. */
  lemma ToBoolString(s: string, p: Platform)
    ensures ToBool(Some(StringValue(s)), "String", p) == Ok(PaddedTrueWord(s))
  {
    ToBoolReadsTrimmed(s, p);
    TrueWordPadding(s);
  }

  /** What toString shows for a Boolean without labels, toBool reads back. */
  lemma BooleanRoundTrip(b: bool, header: Option<string>, dateFormat: string, timeFormat: string, p: Platform)
    ensures var r := ToString(Some(Boolean(b)), "Boolean", header, None, dateFormat, timeFormat, p);
            r.Ok? && ToBool(Some(StringValue(r.value)), "String", p) == Ok(b)
  {
    ToBoolReadsTrimmed(BoolText(b), p);
    BoolTextReadsBack(b);
  }

  /** "true" and "false" carry no padding, and only the first is a true word. */
  lemma BoolTextReadsBack(b: bool)
    ensures TrueWord(Trim(BoolText(b))) == b
  {
    var s := BoolText(b);
    assert s[0] != ' ' && s[|s| - 1] != ' ';
    TrimPadded([], s, []);
    assert [] + s + [] == s;
    if b {
      LowerKeeps(s);
    } else {
      assert |Lower(s)| == 5;
    }
  }

  // ---------------------------------------------------------------------
  // toInt32

  /** DBHandler.toInt32(obj, type). */
  function ToInt32(obj: Option<Scalar>, typeName: string, p: Platform): (r: Result<int>)
    ensures obj.None? ==> r == Ok(0)
    ensures obj.Some? && typeName == "Decimal" && obj.value.DecimalValue? ==> r == DecimalToInt32(obj.value.d)
    ensures obj.Some? && typeName != "Decimal" && obj.value.Int32Value? ==> r == Ok(obj.value.n)
  {
    if obj.None? then Ok(0)
    else if typeName == "Decimal" then
      match ConvertToDecimal(obj.value, p)
      case Ok(d) => DecimalToInt32(d)
      case Err(f) => Err(f)
    else ConvertToInt32(obj.value, p)
  }

  /** Examples of toInt32 on a Decimal column, which is truncated toward zero:
      2.7 gives 2 and -2.7 gives -2; a value outside the Int32 range overflows.
      The general statement is Numbers.DecimalToInt32. */
  lemma ToInt32DecimalExamples(p: Platform)
    ensures ToInt32(Some(DecimalValue(Decimal(27, 1))), "Decimal", p) == Ok(2)
    ensures ToInt32(Some(DecimalValue(Decimal(-27, 1))), "Decimal", p) == Ok(-2)
    ensures ToInt32(Some(DecimalValue(Decimal(0x8000_0000, 0))), "Decimal", p) == Err(Overflow)
  {
    var a := TruncateTowardZero(Decimal(27, 1));
    assert Abs(a) * 10 <= 27 < Abs(a) * 10 + 10;
    var b := TruncateTowardZero(Decimal(-27, 1));
    assert Abs(b) * 10 <= 27 < Abs(b) * 10 + 10;
  }
}
