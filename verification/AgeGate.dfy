/** The age card of onboarding: an age becomes a date of birth that gives the age back. */
module AgeGate {
  import opened Wrappers

  datatype Date = Date(year: int, month: int, day: int)

  const MIN_YEAR := -9999
  const MAX_YEAR := 9999

  predicate IsLeap(year: int) {
    year % 4 == 0 && (year % 100 != 0 || year % 400 == 0)
  }

  function DaysIn(year: int, month: int): int {
    if month == 2 then (if IsLeap(year) then 29 else 28)
    else if month in {4, 6, 9, 11} then 30
    else 31
  }

  predicate Valid(d: Date): (valid: bool)
    ensures valid <==>
      && -9999 <= d.year <= 9999
      && (|| (d.month in {1, 3, 5, 7, 8, 10, 12} && 1 <= d.day <= 31)
          || (d.month in {4, 6, 9, 11} && 1 <= d.day <= 30)
          || (d.month == 2 && 1 <= d.day <= 28)
          || (d.month == 2 && d.day == 29 && (d.year % 400 == 0 || (d.year % 4 == 0 && d.year % 100 != 0))))
  {
    MIN_YEAR <= d.year <= MAX_YEAR && 1 <= d.month <= 12 && 1 <= d.day <= DaysIn(d.year, d.month)
  }

  /** `Date::from_calendar_date`. */
  function FromCalendarDate(year: int, month: int, day: int): Option<Date> {
    if Valid(Date(year, month, day)) then Some(Date(year, month, day)) else None
  }

  function Age(dob: Date, today: Date): int {
    var years := today.year - dob.year;
    if today.month < dob.month || (today.month == dob.month && today.day < dob.day) then years - 1 else years
  }

  predicate IsAdult(dob: Date, today: Date) {
    Age(dob, today) >= 18
  }

  datatype CardError = Unprocessable | Internal

  /** What the card stores as date of birth. */
  function AgeCard(today: Date, age: int): Result<Date, CardError> {
    if !(18 <= age <= 120) then Err(Unprocessable)
    else
      var birthYear := today.year - age;
      match FromCalendarDate(birthYear, today.month, today.day)
      case Some(dob) => Ok(dob)
      case None =>
        match FromCalendarDate(birthYear, today.month, 28)
        case Some(dob) => Ok(dob)
        case None => Err(Internal)
  }

  /** The age is the number of birthdays reached: the n-th lies n years after birth, and one that falls
      on a 29 February a common year lacks is reached on 1 March. */
  lemma {:induction false} AgeCountsBirthdays(dob: Date, today: Date, n: int)
    requires Valid(dob) && Valid(today)
    ensures Age(dob, today) >= n <==>
      || today.year > dob.year + n
      || (today.year == dob.year + n && today.month > dob.month)
      || (today.year == dob.year + n && today.month == dob.month && today.day >= dob.day)
    ensures IsAdult(dob, today) <==> Age(dob, today) >= 18
  {
  }

  /** Exactly the ages 18 to 120 are stored, always as a valid date that gives the submitted age back: today, so
      many years ago, or 28 February if that year lacks a 29th. It fails only where the birth year leaves the
      calendar. */
  lemma {:induction false} AgeCardIsExact(today: Date, age: int)
    requires Valid(today)
    ensures
      match AgeCard(today, age)
      case Ok(dob) =>
        && 18 <= age <= 120 && Valid(dob) && Age(dob, today) == age && IsAdult(dob, today)
        && dob.year == today.year - age && dob.month == today.month
        && dob.day == if today.month == 2 && today.day == 29 && !IsLeap(today.year - age) then 28 else today.day
      case Err(Unprocessable) => !(18 <= age <= 120)
      case Err(Internal) => 18 <= age <= 120 && today.year - age < -9999
  {
  }

  /** Nobody grows younger: once adult, adult on every later date. */
  lemma {:induction false} AgeIsMonotone(dob: Date, today: Date, later: Date)
    requires
      || later.year > today.year
      || (later.year == today.year && later.month > today.month)
      || (later.year == today.year && later.month == today.month && later.day >= today.day)
    ensures Age(dob, today) <= Age(dob, later)
    ensures IsAdult(dob, today) ==> IsAdult(dob, later)
  {
  }
}
