/**
 * The participant record and its derived age.
 *
 * The current date, read from the clock by the source, is a parameter here.
 */
module ParticipantAge {

  datatype Gender = Male | Female

  /** A calendar date as (year, month, day). */
  datatype Date = Date(year: int, month: int, day: int)

  datatype Participant = Participant(name: string, gender: Gender, birthDate: Date)

  /** Tuple order on (month, day): `(a.month, a.day) < (b.month, b.day)`. */
  predicate MonthDayBefore(a: Date, b: Date) {
    a.month < b.month || (a.month == b.month && a.day < b.day)
  }

  /** Calendar order: a falls on or before b. */
  predicate OnOrBefore(a: Date, b: Date) {
    || a.year < b.year
    || (a.year == b.year && a.month < b.month)
    || (a.year == b.year && a.month == b.month && a.day <= b.day)
  }

  /**
   * The n-th birthday of someone born on `birth`. For a 29 February birth in a
   * non-leap year this is a date that does not exist; it is still ordered
   * between 28 February and 1 March, which is how the age rule treats it.
   */
  function Birthday(birth: Date, n: int): Date {
    Date(birth.year + n, birth.month, birth.day)
  }

  /**
   * `age`: the number of completed years on `today`. The result is the n whose
   * n-th birthday has arrived by `today` while the next one has not.
   */
  function Age(p: Participant, today: Date): (years: int)
    ensures OnOrBefore(Birthday(p.birthDate, years), today)
    ensures !OnOrBefore(Birthday(p.birthDate, years + 1), today)
  {
    today.year - p.birthDate.year - (if MonthDayBefore(today, p.birthDate) then 1 else 0)
  }

  /** Only one number of years fits between two consecutive birthdays. */
  lemma AgeIsUnique(p: Participant, today: Date, n: int)
    requires OnOrBefore(Birthday(p.birthDate, n), today)
    requires !OnOrBefore(Birthday(p.birthDate, n + 1), today)
    ensures n == Age(p, today)
  {
  }

  /** On the n-th birthday itself the age is exactly n. */
  lemma AgeOnBirthday(p: Participant, n: int)
    ensures Age(p, Birthday(p.birthDate, n)) == n
  {
  }

  /** Anyone born on or before today has a non-negative age; born today, zero. */
  lemma AgeNonNegative(p: Participant, today: Date)
    ensures OnOrBefore(p.birthDate, today) ==> Age(p, today) >= 0
    ensures Age(p, p.birthDate) == 0
  {
  }

  /** Age never decreases as time moves forward. */
  lemma AgeMonotone(p: Participant, earlier: Date, later: Date)
    requires OnOrBefore(earlier, later)
    ensures Age(p, earlier) <= Age(p, later)
  {
  }

  /**
   * On every day from the (n-1)-th birthday up to the day before the n-th, the
   * age is n - 1; on the n-th birthday it becomes n.
   */
  lemma AgeStepsAtBirthday(p: Participant, n: int, d: Date)
    requires OnOrBefore(Birthday(p.birthDate, n - 1), d)
    requires OnOrBefore(d, Birthday(p.birthDate, n)) && d != Birthday(p.birthDate, n)
    ensures Age(p, d) == n - 1
    ensures Age(p, Birthday(p.birthDate, n)) == n
  {
  }
}
