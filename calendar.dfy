/**
 * IS_LEAP_YEAR: the Gregorian rule.  The C remainders in the macro are
 * only compared with zero, where C's truncating '%' and Dafny's Euclidean
 * '%' agree, so the rule holds for negative years as written.
 */
module Calendar {
  /** Divisible by 4, and not by 100 unless also by 400. */
  predicate IsLeapYear(year: int)
    ensures IsLeapYear(year) ==> year % 4 == 0
    ensures year % 400 == 0 ==> IsLeapYear(year)
    ensures year % 4 == 0 && year % 100 != 0 ==> IsLeapYear(year)
    ensures year % 100 == 0 && year % 400 != 0 ==> !IsLeapYear(year)
  {
    MultipleOf400(year);
    year % 4 == 0 && (year % 100 != 0 || year % 400 == 0)
  }

  /** A multiple of 400 is a multiple of 4. */
  lemma MultipleOf400(year: int)
    ensures year % 400 == 0 ==> year % 4 == 0
  {
    if year % 400 == 0 {
      var k := year / 400;
      assert year == 4 * (100 * k);
    }
  }

  /** The rule repeats every 400 years. */
  lemma LeapYearPeriod(year: int)
    ensures IsLeapYear(year + 400) == IsLeapYear(year)
  {
    assert (year + 400) % 4 == year % 4;
    assert (year + 400) % 100 == year % 100;
    assert (year + 400) % 400 == year % 400;
  }

  /** The number of leap years among years 1 to n. */
  function LeapYearsThrough(n: nat): nat
  {
    if n == 0 then 0 else LeapYearsThrough(n - 1) + (if IsLeapYear(n) then 1 else 0)
  }

  /** Year n is a leap year by inclusion and exclusion of its divisibility by 4, 100 and 400. */
  lemma LeapIndicator(n: nat)
    ensures (if IsLeapYear(n) then 1 else 0) ==
      (if n % 4 == 0 then 1 else 0) - (if n % 100 == 0 then 1 else 0) + (if n % 400 == 0 then 1 else 0)
  {
    if n % 400 == 0 {
      DivUnique(n, 100, 4 * (n / 400), 0);
    }
    if n % 100 == 0 {
      DivUnique(n, 4, 25 * (n / 100), 0);
    }
  }

  /** The count of leap years in closed form. */
  lemma {:induction false} LeapYearsClosedForm(n: nat)
    ensures LeapYearsThrough(n) == n / 4 - n / 100 + n / 400
  {
    if n > 0 {
      LeapYearsClosedForm(n - 1);
      LeapIndicator(n);
      DivStep(n, 4);
      DivStep(n, 100);
      DivStep(n, 400);
    }
  }

  /** Going from n - 1 to n, the quotient by k grows by one exactly when k divides n. */
  lemma DivStep(n: nat, k: nat)
    requires n > 0 && k > 0
    ensures n / k == (n - 1) / k + (if n % k == 0 then 1 else 0)
  {
    var q, r := (n - 1) / k, (n - 1) % k;
    if r == k - 1 {
      assert n == (q + 1) * k + 0;
      DivUnique(n, k, q + 1, 0);
    } else {
      DivUnique(n, k, q, r + 1);
    }
  }

  /** The quotient and remainder are the only ones with remainder in [0, k). */
  lemma DivUnique(n: int, k: int, q: int, r: int)
    requires k > 0 && 0 <= r < k && n == q * k + r
    ensures n / k == q && n % k == r
  {
    var q', r' := n / k, n % k;
    assert (q - q') * k == r' - r;
    if q - q' >= 1 {
      MulAtLeast(q - q', k);
    } else if q' - q >= 1 {
      MulAtLeast(q' - q, k);
    }
  }

  lemma MulAtLeast(a: int, k: int)
    requires a >= 1 && k > 0
    ensures a * k >= k
  {
    assert a * k == (a - 1) * k + k;
  }

  function DaysInYear(year: int): (d: nat)
    ensures d == 365 || d == 366
    ensures d == 366 <==> IsLeapYear(year)
  {
    if IsLeapYear(year) then 366 else 365
  }

  /** The number of days in years 1 to n. */
  function DaysThrough(n: nat): nat
  {
    if n == 0 then 0 else DaysThrough(n - 1) + DaysInYear(n)
  }

  lemma {:induction false} DaysThroughLeapYears(n: nat)
    ensures DaysThrough(n) == 365 * n + LeapYearsThrough(n)
  {
    if n > 0 {
      DaysThroughLeapYears(n - 1);
    }
  }

  /** Every 400 years hold 97 leap years and 146097 days. */
  lemma FourHundredYearCycle()
    ensures LeapYearsThrough(400) == 97
    ensures DaysThrough(400) == 146097
  {
    LeapYearsClosedForm(400);
    DaysThroughLeapYears(400);
  }
}
