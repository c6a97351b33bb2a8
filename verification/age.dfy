/**
 * The registration form's age rule (src/user/Registration.jsx:77-90) on
 * calendar dates given as (year, month, day) triples, as `getFullYear()`,
 * `getMonth() + 1` and `getDate()` report them. Only differences of months are
 * used, so the 0-based `getMonth()` and the 1-based month here agree.
 */
module Age {
  import opened Wrappers

  datatype Date = Date(year: int, month: int, day: int)

  /** `a` comes strictly before `b` in calendar order. */
  predicate Before(a: Date, b: Date)
  {
    a.year < b.year
    || (a.year == b.year && a.month < b.month)
    || (a.year == b.year && a.month == b.month && a.day < b.day)
  }

  /** `birth` moved `n` years forward: its `n`-th anniversary. */
  function Anniversary(birth: Date, n: int): Date
  {
    Date(birth.year + n, birth.month, birth.day)
  }

  /** On `today` the `n`-th anniversary of `birth` has come (it may be today). */
  predicate AnniversaryReached(today: Date, birth: Date, n: int)
  {
    !Before(today, Anniversary(birth, n))
  }

  /** This year's birthday is still ahead: `monthDiff < 0 || (monthDiff === 0 && today.getDate() < birthDate.getDate())`. */
  predicate BirthdayAhead(today: Date, birth: Date)
  {
    var monthDiff := today.month - birth.month;
    monthDiff < 0 || (monthDiff == 0 && today.day < birth.day)
  }

  /**
   * The intended age: the difference of the years, less one while this year's
   * birthday is still ahead. It is the number of whole years lived: the
   * anniversary of that number has come and the next one has not.
   */
  function AgeOn(today: Date, birth: Date): (age: int)
    ensures AnniversaryReached(today, birth, age)
    ensures !AnniversaryReached(today, birth, age + 1)
  {
    today.year - birth.year - (if BirthdayAhead(today, birth) then 1 else 0)
  }

  /** Age is at least `n` exactly when the `n`-th anniversary has come. */
  lemma AgeAtLeastIffAnniversary(today: Date, birth: Date, n: int)
    ensures AgeOn(today, birth) >= n <==> AnniversaryReached(today, birth, n)
  {
  }

  /** Age never goes down as `today` advances. */
  lemma AgeMonotone(earlier: Date, later: Date, birth: Date)
    requires !Before(later, earlier)
    ensures AgeOn(earlier, birth) <= AgeOn(later, birth)
  {
    var a := AgeOn(earlier, birth);
    AgeAtLeastIffAnniversary(later, birth, a);
  }

  /** The registration minimum age. */
  const MinimumAge := 18

  /** The intended rule: the applicant is under 18 on `today`. */
  predicate IsUnderage(today: Date, birth: Date)
  {
    AgeOn(today, birth) < MinimumAge
  }

  /** Under 18 exactly when the 18th birthday is still ahead: born on this day 18 years ago passes. */
  lemma UnderageIffEighteenthBirthdayAhead(today: Date, birth: Date)
    ensures IsUnderage(today, birth) <==> Before(today, Anniversary(birth, MinimumAge))
  {
    AgeAtLeastIffAnniversary(today, birth, MinimumAge);
  }

  /** The eighteenth birthday itself passes; the day before it fails. */
  lemma EighteenthBirthdayBoundary()
    ensures !IsUnderage(Date(2026, 10, 11), Date(2008, 10, 11))
    ensures IsUnderage(Date(2026, 10, 11), Date(2008, 10, 12))
  {
  }

  /**
   * The rule as the source writes it: `age` is declared `const`, so `age--`
   * throws a `TypeError` whenever it runs, that is whenever this year's
   * birthday is still ahead; otherwise the plain year difference is compared.
   */
  function UnderageAsWritten(today: Date, birth: Date): Completion<bool>
  {
    var age := today.year - birth.year;
    if BirthdayAhead(today, birth) then TypeError else Normal(age < MinimumAge)
  }

  /** The as-written rule throws exactly when the birthday is ahead, and otherwise agrees with the intended rule. */
  lemma AsWrittenThrowsOrAgrees(today: Date, birth: Date)
    ensures UnderageAsWritten(today, birth).TypeError? <==> BirthdayAhead(today, birth)
    ensures UnderageAsWritten(today, birth).Normal? ==>
              UnderageAsWritten(today, birth).value == IsUnderage(today, birth)
  {
  }

  /** A concrete input: an adult born in December checked in October makes the as-written rule throw. */
  lemma AsWrittenThrowsForAdult()
    ensures UnderageAsWritten(Date(2026, 10, 11), Date(2000, 12, 1)) == TypeError
    ensures AgeOn(Date(2026, 10, 11), Date(2000, 12, 1)) == 25
    ensures !IsUnderage(Date(2026, 10, 11), Date(2000, 12, 1))
  {
  }
}
