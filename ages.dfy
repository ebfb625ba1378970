/**
 * Calendar age, the Russian word for "years" that follows it, and the six age
 * bands of the greeting sent after a registration.
 */
module Ages {
  import opened Dates

  /**
   * `get_age` with the clock passed in: the year difference, less one when this
   * year's birthday (month, day) is still ahead of `today`.
   */
  function Age(birth: Date, today: Date): (age: int)
    ensures today.year - birth.year - 1 <= age <= today.year - birth.year
  {
    today.year - birth.year - (if MonthDayBefore(today, birth) then 1 else 0)
  }

  /** The `n`-th anniversary of `birth` as a (year, month, day) triple. */
  function Anniversary(birth: Date, n: int): Date {
    Date(birth.year + n, birth.month, birth.day)
  }

  /** The age is the number of anniversaries, counting the birth itself as the 0th, that `today` has reached. */
  lemma AgeCountsAnniversaries(birth: Date, today: Date, n: int)
    ensures n <= Age(birth, today) <==> !Before(today, Anniversary(birth, n))
  {
  }

  /** The age is negative exactly when the birthdate is after today. */
  lemma AgeNegativeIffFuture(birth: Date, today: Date)
    ensures Age(birth, today) < 0 <==> Before(today, birth)
  {
  }

  /** Ages never go down as time passes. */
  lemma AgeMonotone(birth: Date, earlier: Date, later: Date)
    requires !Before(later, earlier)
    ensures Age(birth, earlier) <= Age(birth, later)
  {
  }

  // ---------------------------------------------------------------------------
  // get_age_letter

  /** `get_age_letter`: the form of "год" chosen from the last digit, with 10..14 always "лет". */
  function AgeLetter(age: int): (word: string)
    ensures word == "год" || word == "года" || word == "лет"
    ensures word == "год" ==> age % 10 == 1 && !(10 <= age <= 14)
    ensures word == "года" ==> 2 <= age % 10 <= 4 && !(10 <= age <= 14)
  {
    var digit := age % 10;
    if digit == 0 || digit > 4 || (10 <= age <= 14) then "лет"
    else if digit == 1 then "год"
    else "года"
  }

  /**
   * The Russian plural rule for "год" after a number: "год" when the last digit
   * is 1 and the last two are not 11, "года" when the last digit is 2..4 and the
   * last two are not 12..14, "лет" otherwise.
   */
  function RussianYears(n: nat): string {
    if n % 10 == 1 && n % 100 != 11 then "год"
    else if 2 <= n % 10 <= 4 && !(12 <= n % 100 <= 14) then "года"
    else "лет"
  }

  /**
   * `get_age_letter` agrees with the plural rule on every age except those of
   * 100 and more whose last two digits are 11..14 (111 gets "год", 112 "года").
   */
  lemma AgeLetterAgreesWithPlural(age: nat)
    ensures AgeLetter(age) == RussianYears(age) <==> !(age >= 100 && 11 <= age % 100 <= 14)
  {
    assert age % 10 == (age % 100) % 10;
  }

  // ---------------------------------------------------------------------------
  // get_age_message

  datatype Band = Newborn | Kindergarten | School | University | Working | Retired

  /** The thresholds of `get_age_message`, compared in order. */
  function BandOf(age: int): (b: Band)
    ensures InBand(age, b)
  {
    if age < 1 then Newborn
    else if age < 7 then Kindergarten
    else if age < 18 then School
    else if age < 23 then University
    else if age < 65 then Working
    else Retired
  }

  /** The age range of each band, as a table of inclusive bounds. */
  predicate InBand(age: int, b: Band) {
    match b
    case Newborn => age <= 0
    case Kindergarten => 1 <= age <= 6
    case School => 7 <= age <= 17
    case University => 18 <= age <= 22
    case Working => 23 <= age <= 64
    case Retired => 65 <= age
  }

  /** The bands are disjoint and cover every age: each age lies in exactly the band `BandOf` picks. */
  lemma BandOfIsRange(age: int, b: Band)
    ensures BandOf(age) == b <==> InBand(age, b)
  {
  }

  /** The greeting sent after a registration. */
  datatype AgeMessage = Welcome | Remark(age: int, unit: string, band: Band)

  /** `get_age_message`: a welcome below one year, otherwise the age, its unit word and the band's advice. */
  function AgeMessageOf(age: int): (m: AgeMessage)
    ensures m.Welcome? <==> age < 1
    ensures m.Remark? ==> m.age == age && m.unit == AgeLetter(age) && InBand(age, m.band)
  {
    var b := BandOf(age);
    if b == Newborn then Welcome else Remark(age, AgeLetter(age), b)
  }
}
