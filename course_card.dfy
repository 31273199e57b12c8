/** The professor's course card: the share of enrolled students who are
    active, as a rounded percentage. */
module CourseManagementCard {
  import opened Percent

  /** `Math.round(activeStudents / totalStudents * 100)`: the nearest
      integer to the exact percentage, halves rounded upwards. */
  function ActivityRate(activeStudents: nat, totalStudents: nat): (r: int)
    requires totalStudents > 0
    ensures 2 * totalStudents * r <= 200 * activeStudents + totalStudents < 2 * totalStudents * (r + 1)
  {
    RoundedPercent(activeStudents, totalStudents)
  }

  /** A rate of a valid class list is a percentage; everyone active is 100,
      nobody active is 0. */
  lemma ActivityRateRange(activeStudents: nat, totalStudents: nat)
    requires 0 < totalStudents && activeStudents <= totalStudents
    ensures 0 <= ActivityRate(activeStudents, totalStudents) <= 100
    ensures activeStudents == totalStudents ==> ActivityRate(activeStudents, totalStudents) == 100
    ensures activeStudents == 0 ==> ActivityRate(activeStudents, totalStudents) == 0
  {
    RoundedPercentBounds(activeStudents, totalStudents);
    RoundedPercentEnds(totalStudents);
  }

  /** More active students never lower the rate. */
  lemma ActivityRateMonotone(a: nat, b: nat, totalStudents: nat)
    requires 0 < totalStudents && a <= b
    ensures ActivityRate(a, totalStudents) <= ActivityRate(b, totalStudents)
  {
    RoundedPercentMonotone(a, b, totalStudents);
  }

  /** The professor dashboard's three courses: 40 of 45, 28 of 32 and 20 of
      25 students active. */
  lemma DashboardRates()
    ensures ActivityRate(40, 45) == 89
    ensures ActivityRate(28, 32) == 88
    ensures ActivityRate(20, 25) == 80
  {
  }
}
