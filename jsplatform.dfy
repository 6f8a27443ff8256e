// The values and engine services the import pipeline and the analytics take
// from the JavaScript platform. What the engine or a library defines (parsing
// a date string, rendering an instant or a number as text, calendar
// arithmetic in local time) is not re-implemented: it is a parameter, an
// `Engine` of total functions, so every property below holds whatever those
// functions do.
module JsPlatform {

  /** `undefined`/`null` versus a present value. */
  datatype Option<+T> = None | Some(value: T) {
    function GetOr(default: T): T
    {
      match this
      case Some(v) => v
      case None => default
    }
  }

  /** A point in time: `Date.prototype.getTime()`, milliseconds since the epoch. */
  type Instant = int

  /** A `Date` object, which is either a valid instant or an Invalid Date
      (`getTime()` is NaN). */
  datatype JsDate = ValidDate(time: Instant) | InvalidDate

  /** The engine- and library-defined services the core calls. */
  datatype Engine = Engine(
    /** `new Date(text)` */
    newDate: string -> JsDate,
    /** date-fns `parse(text, format, new Date())` */
    parseWithFormat: (string, string) -> JsDate,
    /** `Date.prototype.toISOString` */
    isoString: Instant -> string,
    /** the text a JavaScript number takes in a template or `join` (`Number.prototype.toString`) */
    numberText: real -> string,
    /** `Prisma.Decimal.prototype.toString` */
    decimalText: real -> string,
    /** date-fns `subDays(instant, n)`, in local calendar days */
    subDays: (Instant, int) -> Instant)

  /** JavaScript truthiness of an optional string: present and non-empty. */
  predicate Truthy(s: Option<string>)
  {
    s.Some? && s.value != ""
  }

  /** `a ?? b` for optional values. */
  function Coalesce<T>(a: Option<T>, b: Option<T>): (r: Option<T>)
    ensures a.Some? ==> r == a
    ensures a.None? ==> r == b
  {
    if a.Some? then a else b
  }
}
