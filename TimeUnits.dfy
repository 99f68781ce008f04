/** The part of java.util.concurrent.TimeUnit the monitor uses: the seven units, their
    names, and `unit.convert(d, NANOSECONDS)`. */
module TimeUnits {
  import opened JavaLang

  datatype TimeUnit = NANOSECONDS | MICROSECONDS | MILLISECONDS | SECONDS | MINUTES | HOURS | DAYS

  /** How many nanoseconds make one of `u`. */
  function NanosPer(u: TimeUnit): (f: int)
    ensures f >= 1
    ensures f == 1 <==> u == NANOSECONDS
  {
    match u
    case NANOSECONDS => 1
    case MICROSECONDS => 1000
    case MILLISECONDS => 1000_000
    case SECONDS => 1000_000_000
    case MINUTES => 60_000_000_000
    case HOURS => 3600_000_000_000
    case DAYS => 86400_000_000_000
  }

  /** `u.convert(d, TimeUnit.NANOSECONDS)`: a count of nanoseconds expressed in `u`, the
      fraction cut off toward zero. */
  function Convert(d: int, u: TimeUnit): (r: int)
    ensures u == NANOSECONDS ==> r == d
    ensures d >= 0 ==> 0 <= r <= d && r * NanosPer(u) <= d < (r + 1) * NanosPer(u)
    ensures d < 0 ==> d <= r <= 0 && (r - 1) * NanosPer(u) < d <= r * NanosPer(u)
  {
    JavaDiv(d, NanosPer(u))
  }

  /** `u.toString()`: the constant's name. */
  function Name(u: TimeUnit): string
  {
    match u
    case NANOSECONDS => "NANOSECONDS"
    case MICROSECONDS => "MICROSECONDS"
    case MILLISECONDS => "MILLISECONDS"
    case SECONDS => "SECONDS"
    case MINUTES => "MINUTES"
    case HOURS => "HOURS"
    case DAYS => "DAYS"
  }
}
