/** The days of the week and the names the pages and services write them with. */
module Days {
  import opened Wrappers

  /** Listed in the order Date.prototype.getDay numbers them (Sunday = 0). */
  datatype Weekday = Sunday | Monday | Tuesday | Wednesday | Thursday | Friday | Saturday

  /** Date.prototype.getDay: Sunday = 0 .. Saturday = 6. */
  function DayNumber(d: Weekday): (n: nat)
    ensures n < 7
  {
    match d
    case Sunday => 0
    case Monday => 1
    case Tuesday => 2
    case Wednesday => 3
    case Thursday => 4
    case Friday => 5
    case Saturday => 6
  }

  function FromDayNumber(n: nat): (d: Weekday)
    requires n < 7
    ensures DayNumber(d) == n
  {
    if n == 0 then Sunday
    else if n == 1 then Monday
    else if n == 2 then Tuesday
    else if n == 3 then Wednesday
    else if n == 4 then Thursday
    else if n == 5 then Friday
    else Saturday
  }

  /** The position in ["Monday", ..., "Sunday"], the week order of the teacher schedule list. */
  function MondayFirst(d: Weekday): (n: nat)
    ensures n < 7
    ensures d == Sunday <==> n == 6
    ensures d != Sunday ==> n + 1 == DayNumber(d)
  {
    (DayNumber(d) + 6) % 7
  }

  function FullName(d: Weekday): string {
    match d
    case Sunday => "Sunday"
    case Monday => "Monday"
    case Tuesday => "Tuesday"
    case Wednesday => "Wednesday"
    case Thursday => "Thursday"
    case Friday => "Friday"
    case Saturday => "Saturday"
  }

  function Abbr(d: Weekday): string {
    match d
    case Sunday => "Sun"
    case Monday => "Mon"
    case Tuesday => "Tue"
    case Wednesday => "Wed"
    case Thursday => "Thu"
    case Friday => "Fri"
    case Saturday => "Sat"
  }

  /** The dayAbbrToFull table: exactly the seven three-letter abbreviations are known, each naming
      its own day. */
  function FromAbbr(s: string): (r: Option<Weekday>)
    ensures forall d :: r == Some(d) <==> Abbr(d) == s
  {
    if s == "Sun" then Some(Sunday)
    else if s == "Mon" then Some(Monday)
    else if s == "Tue" then Some(Tuesday)
    else if s == "Wed" then Some(Wednesday)
    else if s == "Thu" then Some(Thursday)
    else if s == "Fri" then Some(Friday)
    else if s == "Sat" then Some(Saturday)
    else None
  }

  /** A full day name read back, as `dayOrder.indexOf(day)` and the name-to-number tables read it. */
  function FromFullName(s: string): (r: Option<Weekday>)
    ensures forall d :: r == Some(d) <==> FullName(d) == s
  {
    if s == "Sunday" then Some(Sunday)
    else if s == "Monday" then Some(Monday)
    else if s == "Tuesday" then Some(Tuesday)
    else if s == "Wednesday" then Some(Wednesday)
    else if s == "Thursday" then Some(Thursday)
    else if s == "Friday" then Some(Friday)
    else if s == "Saturday" then Some(Saturday)
    else None
  }
}
