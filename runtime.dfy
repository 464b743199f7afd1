// The values a SqlDataReader hands to the coercion functions, and the framework
// calls whose results the model does not compute (culture-dependent formatting
// and parsing, Convert.*, and the external Holiday.holidayCount), taken as given
// functions bundled in a Platform value.

module Runtime {
  import opened Wrappers
  import opened Numbers

  /** A System.DateTime, by its tick count. */
  datatype DateTime = DateTime(ticks: int)

  /** A boxed non-null database value, by its runtime type. */
  datatype Scalar =
    | Boolean(b: bool)
    | DateTimeValue(dt: DateTime)
    | TimeSpan(ticks: int)
    | DecimalValue(d: Decimal)
    | Int32Value(n: int)
    | StringValue(s: string)
    | OtherValue(typeName: string, id: int)   // Int64, Double, Guid, byte[], ...: opaque

  /** The .NET type name GetFieldType(col).Name reports for a value. */
  function TypeName(v: Scalar): string
  {
    match v
    case Boolean(_) => "Boolean"
    case DateTimeValue(_) => "DateTime"
    case TimeSpan(_) => "TimeSpan"
    case DecimalValue(_) => "Decimal"
    case Int32Value(_) => "Int32"
    case StringValue(_) => "String"
    case OtherValue(t, _) => t
  }

  /** Framework behaviour outside the model, as given functions. */
  datatype Platform = Platform(
    // Object.ToString() of a value that is neither a string nor an Int32
    objectToString: Scalar -> string,
    // DateTime.ToString(format), for the current culture; None stands for a FormatException
    formatDateTime: (DateTime, string) -> Option<string>,
    // DateTime.ParseExact(s, format, null); None stands for a FormatException
    parseExact: (string, string) -> Option<DateTime>,
    // DateTime.Date: the same day at midnight
    datePart: DateTime -> DateTime,
    // Holiday.holidayCount(out timespan, out hList, start, end, isFullDay)
    holidayCount: (DateTime, DateTime, bool) -> (string, string),
    // Convert.ToInt32(obj) and Convert.ToDecimal(obj) on values other than Int32 and Decimal
    convertToInt32: Scalar -> Result<int>,
    convertToDecimal: Scalar -> Result<Decimal>)

  /** obj.ToString() for a non-null boxed value. */
  function ObjectToString(v: Scalar, p: Platform): string
  {
    match v
    case StringValue(s) => s
    case Int32Value(n) => IntToString(n)
    case _ => p.objectToString(v)
  }

  /** Convert.ToInt32(obj). */
  function ConvertToInt32(v: Scalar, p: Platform): Result<int>
  {
    match v
    case Int32Value(n) => Ok(n)
    case Boolean(b) => Ok(if b then 1 else 0)
    case _ => p.convertToInt32(v)
  }

  /** Convert.ToDecimal(obj). */
  function ConvertToDecimal(v: Scalar, p: Platform): Result<Decimal>
  {
    match v
    case DecimalValue(d) => Ok(d)
    case Int32Value(n) => Ok(Decimal(n, 0))
    case Boolean(b) => Ok(Decimal(if b then 1 else 0, 0))
    case _ => p.convertToDecimal(v)
  }
}
