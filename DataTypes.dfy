/** The column dtypes the modelled components dispatch on. */
module DataTypes {
  import opened Wrappers

  /** Resolution of a Datetime or Duration column. */
  datatype TimeUnit = Nanoseconds | Microseconds | Milliseconds

  function TicksPerSecond(tu: TimeUnit): (r: int)
    ensures r >= 1000 && r % 1000 == 0
  {
    match tu
    case Nanoseconds => 1_000_000_000
    case Microseconds => 1_000_000
    case Milliseconds => 1_000
  }

  const SecondsInDay := 86_400

  function TicksPerDay(tu: TimeUnit): (r: int)
    ensures r == SecondsInDay * TicksPerSecond(tu)
    ensures r >= 86_400_000
  {
    SecondsInDay * TicksPerSecond(tu)
  }

  datatype DataType =
    | Boolean
    | Int32
    | Int64
    | UInt32
    | Float64
    | Utf8
    | Decimal
    | Date
    | Datetime(unit: TimeUnit, timeZone: Option<string>)
    | Duration(unit: TimeUnit)
    | Time
    | List(inner: DataType)
    | Struct
    | Unknown
}
