/** The year options of the Start Year and End Year selects
    (src/Components/SignupForm.js:24-34). The clock read that gives
    `currentYear` is a parameter. */
module YearRanges {

  /** `Array.from({ length: 11 }, (val, index) => currentYear - 10 + index)` */
  function StartYears(currentYear: int): seq<int> {
    seq(11, index => currentYear - 10 + index)
  }

  /** `Array.from({ length: 11 }, (val, index) => currentYear + index)` */
  function EndYears(currentYear: int): seq<int> {
    seq(11, index => currentYear + index)
  }

  predicate StrictlyIncreasing(s: seq<int>) {
    forall i, j | 0 <= i < j < |s| :: s[i] < s[j]
  }

  /** Ten years ago up to this year, in order, each year once. */
  lemma StartYearsShape(currentYear: int)
    ensures var r := StartYears(currentYear);
      && |r| == 11
      && r[0] == currentYear - 10 && r[10] == currentYear
      && StrictlyIncreasing(r)
      && forall y :: y in r <==> currentYear - 10 <= y <= currentYear
  {
    var r := StartYears(currentYear);
    forall y | currentYear - 10 <= y <= currentYear ensures y in r {
      assert r[y - (currentYear - 10)] == y;
    }
  }

  /** This year up to ten years ahead, in order, each year once. */
  lemma EndYearsShape(currentYear: int)
    ensures var r := EndYears(currentYear);
      && |r| == 11
      && r[0] == currentYear && r[10] == currentYear + 10
      && StrictlyIncreasing(r)
      && forall y :: y in r <==> currentYear <= y <= currentYear + 10
  {
    var r := EndYears(currentYear);
    forall y | currentYear <= y <= currentYear + 10 ensures y in r {
      assert r[y - currentYear] == y;
    }
  }

  /** Any start year offered is no later than any end year offered; the two
      lists share only the current year. */
  lemma StartNotAfterEnd(currentYear: int)
    ensures forall s, e | s in StartYears(currentYear) && e in EndYears(currentYear) :: s <= e
    ensures forall y :: y in StartYears(currentYear) && y in EndYears(currentYear) <==> y == currentYear
  {
    StartYearsShape(currentYear);
    EndYearsShape(currentYear);
  }
}
