/** The employee KPI-progress computation of server/routes.ts (the
    `GET /api/employee/kpi-progress` handler): partition the weekly activities by
    the calendar year and month of their week-start date, total their counters,
    and break the current month down by week and the current year by month. "Now"
    is a parameter; the activities and the target are the repositories' answers. */
module Progress {
  import opened Options
  import opened Seqs
  import opened Schema

  /** The six activity counters summed over some activities; hours in hundredths. */
  datatype Totals = Totals(
    events: int,
    meetings: int,
    videos: int,
    thankYouCards: int,
    leadsReceived: int,
    hoursProspected: int)

  /** The reduce's initial accumulator: every counter 0. */
  const Zero: Totals := Totals(0, 0, 0, 0, 0, 0)

  /** One step of the reduce: add an activity's counters to the accumulator. */
  function AddActivity(acc: Totals, a: WeeklyActivity): Totals {
    Totals(
      acc.events + a.events,
      acc.meetings + a.faceToFaceMeetings,
      acc.videos + a.videos,
      acc.thankYouCards + a.thankYouCards,
      acc.leadsReceived + a.leadsReceived,
      acc.hoursProspected + a.hoursProspected)
  }

  /** Field-wise sum of two totals. */
  function Plus(x: Totals, y: Totals): Totals {
    Totals(
      x.events + y.events,
      x.meetings + y.meetings,
      x.videos + y.videos,
      x.thankYouCards + y.thankYouCards,
      x.leadsReceived + y.leadsReceived,
      x.hoursProspected + y.hoursProspected)
  }

  /** `activities.reduce(AddActivity, Zero)`, left to right. */
  function SumTotals(s: seq<WeeklyActivity>): (r: Totals)
    ensures r.events >= 0 && r.meetings >= 0 && r.videos >= 0
    ensures r.thankYouCards >= 0 && r.leadsReceived >= 0
    ensures s == [] ==> r == Zero
  {
    if s == [] then Zero else AddActivity(SumTotals(s[..|s| - 1]), s[|s| - 1])
  }

  /** The activities whose week starts in `year` (currentYearActivities). */
  function YearActivities(s: seq<WeeklyActivity>, year: int): (r: seq<WeeklyActivity>)
    ensures |r| <= |s|
    ensures forall a :: a in r <==> a in s && a.weekStartDate.year == year
  {
    FilterMembers(s, (a: WeeklyActivity) => a.weekStartDate.year == year);
    Filter(s, (a: WeeklyActivity) => a.weekStartDate.year == year)
  }

  /** The activities whose week starts in `month` of `year` (currentMonthActivities). */
  function MonthActivities(s: seq<WeeklyActivity>, year: int, month: int): (r: seq<WeeklyActivity>)
    ensures |r| <= |s|
    ensures forall a :: a in r <==> a in s && a.weekStartDate.year == year && a.weekStartDate.month == month
  {
    FilterMembers(s, (a: WeeklyActivity) => a.weekStartDate.year == year && a.weekStartDate.month == month);
    Filter(s, (a: WeeklyActivity) => a.weekStartDate.year == year && a.weekStartDate.month == month)
  }

  /** The activities whose week starts in `month`, whatever the year (the monthly filter). */
  function ActivitiesOfMonth(s: seq<WeeklyActivity>, month: int): seq<WeeklyActivity> {
    Filter(s, (a: WeeklyActivity) => a.weekStartDate.month == month)
  }

  /** `Math.ceil(day / 7)`: the week of the month a day falls in. */
  function WeekOf(day: Day): (w: int)
    ensures 7 * (w - 1) < day <= 7 * w
    ensures 1 <= w <= 5
    ensures w == 5 <==> day >= 29
  {
    (day + 6) / 7
  }

  /** The activities whose week-start day falls in week `week` of the month. */
  function ActivitiesOfWeek(s: seq<WeeklyActivity>, week: int): seq<WeeklyActivity> {
    Filter(s, (a: WeeklyActivity) => WeekOf(a.weekStartDate.day) == week)
  }

  datatype WeekRow = WeekRow(weekNumber: int, totals: Totals)

  datatype MonthRow = MonthRow(month: int, totals: Totals, activityCount: nat)

  /** The totals of one week of the month. */
  function WeekRowFor(monthActs: seq<WeeklyActivity>, week: int): WeekRow {
    WeekRow(week, SumTotals(ActivitiesOfWeek(monthActs, week)))
  }

  /** The weekly breakdown: weeks 1 to 4, in order. */
  function WeeklyRows(monthActs: seq<WeeklyActivity>): (r: seq<WeekRow>)
    ensures |r| == 4
    ensures forall i :: 0 <= i < 4 ==> r[i].weekNumber == i + 1
  {
    [WeekRowFor(monthActs, 1), WeekRowFor(monthActs, 2), WeekRowFor(monthActs, 3), WeekRowFor(monthActs, 4)]
  }

  /** The totals and the number of the year's activities in one month. */
  function MonthRowFor(yearActs: seq<WeeklyActivity>, month: int): MonthRow {
    var ms := ActivitiesOfMonth(yearActs, month);
    MonthRow(month, SumTotals(ms), |ms|)
  }

  /** The monthly breakdown: months 1 to 12, in order. */
  function MonthlyRows(yearActs: seq<WeeklyActivity>): (r: seq<MonthRow>)
    ensures |r| == 12
    ensures forall i :: 0 <= i < 12 ==> r[i].month == i + 1 && r[i].activityCount <= |yearActs|
  {
    seq(12, i => MonthRowFor(yearActs, i + 1))
  }

  /** The activity part of the handler's `progress` object. */
  datatype ProgressReport = ProgressReport(
    yearTotals: Totals,
    monthTotals: Totals,
    weeklyBreakdown: seq<WeekRow>,
    monthlyBreakdown: seq<MonthRow>,
    activitiesThisYear: nat,
    activitiesThisMonth: nat)

  /** What the handler answers: None (`progress: null`) without a KPI target, else the report. */
  function Report(currentYear: int, currentMonth: Month, kpiTarget: Option<KpiTarget>,
                  activities: seq<WeeklyActivity>): (r: Option<ProgressReport>)
    ensures r.None? <==> kpiTarget.None?
    ensures r.Some? ==> |r.value.weeklyBreakdown| == 4 && |r.value.monthlyBreakdown| == 12
    ensures r.Some? ==> r.value.activitiesThisMonth <= r.value.activitiesThisYear <= |activities|
  {
    if kpiTarget.None? then None
    else
      MonthActivitiesWithinYear(activities, currentYear, currentMonth);
      var yearActs := YearActivities(activities, currentYear);
      var monthActs := MonthActivities(activities, currentYear, currentMonth);
      Some(ProgressReport(SumTotals(yearActs), SumTotals(monthActs),
        WeeklyRows(monthActs), MonthlyRows(yearActs), |yearActs|, |monthActs|))
  }

  // ---------------------------------------------------------------- the handler's loops

  /** The weekly breakdown as the handler builds it: accumulate each current-month
      activity into a map entry keyed by its week number, then emit weeks 1 to 4,
      an all-zero row for a week without entry. A week-5 entry is built and dropped. */
  method WeeklyBreakdown(monthActs: seq<WeeklyActivity>) returns (weeklyBreakdown: seq<WeekRow>)
    ensures weeklyBreakdown == WeeklyRows(monthActs)
  {
    var weeklyActivityMap: map<int, WeekRow> := map[];
    for j := 0 to |monthActs|
      invariant WeekMapAccounts(weeklyActivityMap, monthActs[..j])
    {
      ghost var before := weeklyActivityMap;
      var activity := monthActs[j];
      var weekNum := WeekOf(activity.weekStartDate.day);
      if weekNum !in weeklyActivityMap {
        weeklyActivityMap := weeklyActivityMap[weekNum := WeekRow(weekNum, Zero)];
      }
      var week := weeklyActivityMap[weekNum];
      weeklyActivityMap := weeklyActivityMap[weekNum := week.(totals := AddActivity(week.totals, activity))];
      assert monthActs[..j + 1] == monthActs[..j] + [activity];
      WeekMapStep(before, monthActs[..j], activity, weeklyActivityMap);
    }
    assert monthActs[..|monthActs|] == monthActs;
    weeklyBreakdown := [];
    for i := 1 to 5
      invariant weeklyBreakdown == WeeklyRows(monthActs)[..i - 1]
    {
      var row := if i in weeklyActivityMap then weeklyActivityMap[i] else WeekRow(i, Zero);
      weeklyBreakdown := weeklyBreakdown + [row];
    }
  }

  /** The week map holds, for each week number it has, that week's totals over `s`, and
      has every week that `s` has an activity in. */
  ghost predicate WeekMapAccounts(m: map<int, WeekRow>, s: seq<WeeklyActivity>) {
    (forall w :: w in m ==> m[w] == WeekRow(w, Bucket(s, w)))
    && (forall w :: w !in m ==> ActivitiesOfWeek(s, w) == [])
  }

  /** One iteration of the handler's forEach keeps the week map accurate. */
  lemma WeekMapStep(m: map<int, WeekRow>, s: seq<WeeklyActivity>, a: WeeklyActivity, m': map<int, WeekRow>)
    requires WeekMapAccounts(m, s)
    requires var w := WeekOf(a.weekStartDate.day);
             var week := if w in m then m[w] else WeekRow(w, Zero);
             m' == m[w := week.(totals := AddActivity(week.totals, a))]
    ensures WeekMapAccounts(m', s + [a])
  {
    var wa := WeekOf(a.weekStartDate.day);
    forall w | w in m' ensures m'[w] == WeekRow(w, Bucket(s + [a], w)) {
      BucketSnoc(s, a, w);
    }
    forall w | w !in m' ensures ActivitiesOfWeek(s + [a], w) == [] {
      FilterSnoc(s, a, (x: WeeklyActivity) => WeekOf(x.weekStartDate.day) == w);
    }
  }

  /** The monthly breakdown as the handler builds it: for each month 1 to 12, filter the
      year's activities by month, total them and count them. */
  method MonthlyBreakdown(yearActs: seq<WeeklyActivity>) returns (monthlyBreakdown: seq<MonthRow>)
    ensures monthlyBreakdown == MonthlyRows(yearActs)
  {
    monthlyBreakdown := [];
    for monthNum := 1 to 13
      invariant |monthlyBreakdown| == monthNum - 1
      invariant forall k :: 0 <= k < monthNum - 1 ==> monthlyBreakdown[k] == MonthRowFor(yearActs, k + 1)
    {
      var monthActivities := ActivitiesOfMonth(yearActs, monthNum);
      var monthTotal := SumTotals(monthActivities);
      monthlyBreakdown := monthlyBreakdown + [MonthRow(monthNum, monthTotal, |monthActivities|)];
    }
  }

  /** The handler body: no target gives no progress, whatever the activities; otherwise
      the partitions, their totals and both breakdowns. */
  method KpiProgress(currentYear: int, currentMonth: Month, kpiTarget: Option<KpiTarget>,
                     activities: seq<WeeklyActivity>) returns (progress: Option<ProgressReport>)
    ensures progress.None? <==> kpiTarget.None?
    ensures progress == Report(currentYear, currentMonth, kpiTarget, activities)
  {
    if kpiTarget.None? {
      return None;
    }
    var currentYearActivities := YearActivities(activities, currentYear);
    var currentMonthActivities := MonthActivities(activities, currentYear, currentMonth);
    var yearTotals := SumTotals(currentYearActivities);
    var monthTotals := SumTotals(currentMonthActivities);
    var weeklyBreakdown := WeeklyBreakdown(currentMonthActivities);
    var monthlyBreakdown := MonthlyBreakdown(currentYearActivities);
    progress := Some(ProgressReport(yearTotals, monthTotals, weeklyBreakdown, monthlyBreakdown,
      |currentYearActivities|, |currentMonthActivities|));
  }

  // ---------------------------------------------------------------- totals

  lemma SumTotalsSnoc(s: seq<WeeklyActivity>, a: WeeklyActivity)
    ensures SumTotals(s + [a]) == AddActivity(SumTotals(s), a)
  {
    assert (s + [a])[..|s|] == s;
  }

  /** The totals of two runs of activities are the field-wise sum of their totals. */
  lemma {:induction false} SumTotalsAppend(s: seq<WeeklyActivity>, t: seq<WeeklyActivity>)
    ensures SumTotals(s + t) == Plus(SumTotals(s), SumTotals(t))
    decreases |t|
  {
    if t == [] {
      assert s + t == s;
    } else {
      var t', x := t[..|t| - 1], t[|t| - 1];
      assert t == t' + [x];
      assert s + t == (s + t') + [x];
      SumTotalsAppend(s, t');
      SumTotalsSnoc(s + t', x);
    }
  }

  /** Moving one activity to the end does not change the totals. */
  lemma SumTotalsMoveToEnd(t1: seq<WeeklyActivity>, x: WeeklyActivity, t2: seq<WeeklyActivity>)
    ensures SumTotals(t1 + [x] + t2) == AddActivity(SumTotals(t1 + t2), x)
  {
    SumTotalsAppend(t1 + [x], t2);
    SumTotalsSnoc(t1, x);
    SumTotalsAppend(t1, t2);
    PlusAddLeft(SumTotals(t1), SumTotals(t2), x);
  }

  /** The totals do not depend on the order of the activities (the repository returns
      them newest first). */
  lemma {:induction false} SumTotalsPermutation(s: seq<WeeklyActivity>, t: seq<WeeklyActivity>)
    requires multiset(s) == multiset(t)
    ensures SumTotals(s) == SumTotals(t)
    decreases |s|
  {
    if s == [] {
      assert |t| == |multiset(t)| == 0;
    } else {
      var s', x := s[..|s| - 1], s[|s| - 1];
      assert s == s' + [x];
      var k := PermutationSplit(s, t);
      var t1, t2 := t[..k], t[k + 1..];
      MultisetRemove(s', x, t1, t2);
      SumTotalsPermutation(s', t1 + t2);
      SumTotalsMoveToEnd(t1, x, t2);
      SumTotalsSnoc(s', x);
    }
  }

  // ---------------------------------------------------------------- partitions

  /** The month's activities are exactly the year's activities of that month, so there
      are never more of them. */
  lemma MonthActivitiesWithinYear(s: seq<WeeklyActivity>, year: int, month: int)
    ensures MonthActivities(s, year, month) == ActivitiesOfMonth(YearActivities(s, year), month)
    ensures |MonthActivities(s, year, month)| <= |YearActivities(s, year)|
  {
    FilterFilter(s, (a: WeeklyActivity) => a.weekStartDate.year == year, (a: WeeklyActivity) => a.weekStartDate.month == month,
      (a: WeeklyActivity) => a.weekStartDate.year == year && a.weekStartDate.month == month);
  }

  /** An activity whose week starts in another year changes nothing in the report,
      wherever it stands in the list. */
  lemma OtherYearsIgnored(year: int, month: Month, target: Option<KpiTarget>,
                          s1: seq<WeeklyActivity>, x: WeeklyActivity, s2: seq<WeeklyActivity>)
    requires x.weekStartDate.year != year
    ensures Report(year, month, target, s1 + [x] + s2) == Report(year, month, target, s1 + s2)
  {
    var inYear := (a: WeeklyActivity) => a.weekStartDate.year == year;
    var inMonth := (a: WeeklyActivity) => a.weekStartDate.year == year && a.weekStartDate.month == month;
    FilterAppend(s1 + [x], s2, inYear);
    FilterAppend(s1, [x], inYear);
    FilterAppend(s1, s2, inYear);
    FilterAppend(s1 + [x], s2, inMonth);
    FilterAppend(s1, [x], inMonth);
    FilterAppend(s1, s2, inMonth);
    FilterSnoc([], x, inYear);
    FilterSnoc([], x, inMonth);
    assert [] + [x] == [x];
  }

  /** The report does not depend on the order of the activities. */
  lemma ReportOrderIndependent(year: int, month: Month, target: Option<KpiTarget>,
                               s: seq<WeeklyActivity>, t: seq<WeeklyActivity>)
    requires multiset(s) == multiset(t)
    ensures Report(year, month, target, s) == Report(year, month, target, t)
  {
    var inYear := (a: WeeklyActivity) => a.weekStartDate.year == year;
    var inMonth := (a: WeeklyActivity) => a.weekStartDate.year == year && a.weekStartDate.month == month;
    var ys, yt := YearActivities(s, year), YearActivities(t, year);
    var ms, mt := MonthActivities(s, year, month), MonthActivities(t, year, month);
    FilterPermutation(s, t, inYear);
    FilterPermutation(s, t, inMonth);
    SumTotalsPermutation(ys, yt);
    SumTotalsPermutation(ms, mt);
    assert |ys| == |multiset(ys)| == |multiset(yt)| == |yt|;
    assert |ms| == |multiset(ms)| == |multiset(mt)| == |mt|;
    forall w ensures SumTotals(ActivitiesOfWeek(ms, w)) == SumTotals(ActivitiesOfWeek(mt, w)) {
      FilterPermutation(ms, mt, (a: WeeklyActivity) => WeekOf(a.weekStartDate.day) == w);
      SumTotalsPermutation(ActivitiesOfWeek(ms, w), ActivitiesOfWeek(mt, w));
    }
    forall m ensures MonthRowFor(ys, m) == MonthRowFor(yt, m) {
      var ams, amt := ActivitiesOfMonth(ys, m), ActivitiesOfMonth(yt, m);
      FilterPermutation(ys, yt, (a: WeeklyActivity) => a.weekStartDate.month == m);
      SumTotalsPermutation(ams, amt);
      assert |ams| == |multiset(ams)| == |multiset(amt)| == |amt|;
    }
    assert MonthlyRows(ys) == MonthlyRows(yt);
  }

  /** Moving one activity to the end moves it to the end of the filtered activities too,
      when it passes the filter. */
  lemma FilterMoveToEnd(t1: seq<WeeklyActivity>, x: WeeklyActivity, t2: seq<WeeklyActivity>, p: WeeklyActivity -> bool)
    ensures multiset(Filter(t1 + [x] + t2, p)) == multiset(Filter(t1 + t2 + [x], p))
  {
    FilterAppend(t1 + [x], t2, p);
    FilterAppend(t1, [x], p);
    FilterAppend(t1, t2, p);
    FilterSnoc(t1 + t2, x, p);
    FilterSnoc([], x, p);
    assert [] + [x] == [x];
  }

  /** Filtering two arrangements of the same activities gives arrangements of the same activities. */
  lemma {:induction false} FilterPermutation(s: seq<WeeklyActivity>, t: seq<WeeklyActivity>, p: WeeklyActivity -> bool)
    requires multiset(s) == multiset(t)
    ensures multiset(Filter(s, p)) == multiset(Filter(t, p))
    decreases |s|
  {
    if s == [] {
      assert |t| == |multiset(t)| == 0;
    } else {
      var s', x := s[..|s| - 1], s[|s| - 1];
      assert s == s' + [x];
      var k := PermutationSplit(s, t);
      var t1, t2 := t[..k], t[k + 1..];
      MultisetRemove(s', x, t1, t2);
      FilterPermutation(s', t1 + t2, p);
      FilterMoveToEnd(t1, x, t2, p);
      FilterSnoc(s', x, p);
      FilterSnoc(t1 + t2, x, p);
    }
  }

  // ---------------------------------------------------------------- weekly breakdown

  /** The weekly breakdown has exactly the rows for weeks 1, 2, 3, 4 in order, never a
      week 5, and a week without activities is all zeros. */
  lemma WeeklyBreakdownShape(monthActs: seq<WeeklyActivity>)
    ensures |WeeklyRows(monthActs)| == 4
    ensures forall i :: 0 <= i < 4 ==> WeeklyRows(monthActs)[i].weekNumber == i + 1
    ensures forall i :: 0 <= i < 4 ==> WeeklyRows(monthActs)[i].weekNumber != 5
    ensures forall i :: 0 <= i < 4 && ActivitiesOfWeek(monthActs, i + 1) == [] ==>
              WeeklyRows(monthActs)[i].totals == Zero
  {
  }

  /** The field-wise sum of the totals of some week rows. */
  function SumWeekRows(rows: seq<WeekRow>): Totals {
    if rows == [] then Zero else Plus(SumWeekRows(rows[..|rows| - 1]), rows[|rows| - 1].totals)
  }

  /** The totals of week bucket `week` of the month (1 to 5). */
  function Bucket(s: seq<WeeklyActivity>, week: int): Totals {
    SumTotals(ActivitiesOfWeek(s, week))
  }

  /** One more activity lands in exactly the bucket of its week-start day. */
  lemma BucketSnoc(s: seq<WeeklyActivity>, x: WeeklyActivity, week: int)
    ensures Bucket(s + [x], week)
            == if WeekOf(x.weekStartDate.day) == week then AddActivity(Bucket(s, week), x) else Bucket(s, week)
  {
    FilterSnoc(s, x, (a: WeeklyActivity) => WeekOf(a.weekStartDate.day) == week);
    SumTotalsSnoc(ActivitiesOfWeek(s, week), x);
  }

  /** Four rows sum to their totals added in order. */
  lemma SumFourWeekRows(r1: WeekRow, r2: WeekRow, r3: WeekRow, r4: WeekRow)
    ensures SumWeekRows([r1, r2, r3, r4]) == Plus(Plus(Plus(Plus(Zero, r1.totals), r2.totals), r3.totals), r4.totals)
  {
    assert [r1][..0] == [];
    assert SumWeekRows([r1]) == Plus(Zero, r1.totals);
    assert [r1, r2][..1] == [r1];
    assert SumWeekRows([r1, r2]) == Plus(SumWeekRows([r1]), r2.totals);
    assert [r1, r2, r3][..2] == [r1, r2];
    assert SumWeekRows([r1, r2, r3]) == Plus(SumWeekRows([r1, r2]), r3.totals);
    assert [r1, r2, r3, r4][..3] == [r1, r2, r3];
  }

  /** The emitted rows sum to buckets 1 to 4. */
  lemma WeekRowsSum(s: seq<WeeklyActivity>)
    ensures SumWeekRows(WeeklyRows(s)) == Plus(Plus(Plus(Plus(Zero, Bucket(s, 1)), Bucket(s, 2)), Bucket(s, 3)), Bucket(s, 4))
  {
    SumFourWeekRows(WeekRowFor(s, 1), WeekRowFor(s, 2), WeekRowFor(s, 3), WeekRowFor(s, 4));
  }

  /** Buckets 1 to 5 summed field-wise. */
  function FiveBuckets(s: seq<WeeklyActivity>): Totals {
    Plus(Plus(Plus(Plus(Plus(Zero, Bucket(s, 1)), Bucket(s, 2)), Bucket(s, 3)), Bucket(s, 4)), Bucket(s, 5))
  }

  /** Adding an activity to one operand of a sum adds it to the sum. */
  lemma PlusAddLeft(x: Totals, y: Totals, a: WeeklyActivity)
    ensures Plus(AddActivity(x, a), y) == AddActivity(Plus(x, y), a)
  {
  }

  lemma PlusAddRight(x: Totals, y: Totals, a: WeeklyActivity)
    ensures Plus(x, AddActivity(y, a)) == AddActivity(Plus(x, y), a)
  {
  }

  /** One more activity adds to the sum of the five buckets exactly once. */
  lemma FiveBucketsSnoc(s: seq<WeeklyActivity>, x: WeeklyActivity)
    ensures FiveBuckets(s + [x]) == AddActivity(FiveBuckets(s), x)
  {
    var t := s + [x];
    BucketSnoc(s, x, 1);
    BucketSnoc(s, x, 2);
    BucketSnoc(s, x, 3);
    BucketSnoc(s, x, 4);
    BucketSnoc(s, x, 5);
    var b1, b2, b3, b4, b5 := Bucket(s, 1), Bucket(s, 2), Bucket(s, 3), Bucket(s, 4), Bucket(s, 5);
    var p1 := Plus(Zero, b1);
    var p2 := Plus(p1, b2);
    var p3 := Plus(p2, b3);
    var p4 := Plus(p3, b4);
    var w := WeekOf(x.weekStartDate.day);
    if w == 1 {
      PlusAddRight(Zero, b1, x);
      PlusAddLeft(p1, b2, x);
      PlusAddLeft(p2, b3, x);
      PlusAddLeft(p3, b4, x);
      PlusAddLeft(p4, b5, x);
    } else if w == 2 {
      PlusAddRight(p1, b2, x);
      PlusAddLeft(p2, b3, x);
      PlusAddLeft(p3, b4, x);
      PlusAddLeft(p4, b5, x);
    } else if w == 3 {
      PlusAddRight(p2, b3, x);
      PlusAddLeft(p3, b4, x);
      PlusAddLeft(p4, b5, x);
    } else if w == 4 {
      PlusAddRight(p3, b4, x);
      PlusAddLeft(p4, b5, x);
    } else {
      PlusAddRight(p4, b5, x);
    }
  }

  /** The five week buckets partition the month: together they hold its totals. */
  lemma {:induction false} FiveBucketsPartitionMonth(s: seq<WeeklyActivity>)
    ensures FiveBuckets(s) == SumTotals(s)
    decreases |s|
  {
    if s == [] {
      assert forall k :: Bucket(s, k) == Zero;
    } else {
      var s', x := s[..|s| - 1], s[|s| - 1];
      assert s == s' + [x];
      FiveBucketsPartitionMonth(s');
      FiveBucketsSnoc(s', x);
    }
  }

  /** The four emitted weeks and the dropped week-5 bucket together hold the month's totals. */
  lemma FiveWeeksPartitionMonth(s: seq<WeeklyActivity>)
    ensures Plus(SumWeekRows(WeeklyRows(s)), SumTotals(ActivitiesOfWeek(s, 5))) == SumTotals(s)
  {
    WeekRowsSum(s);
    FiveBucketsPartitionMonth(s);
  }

  /** The week-5 bucket holds exactly the activities whose week starts on day 29 or later. */
  lemma WeekFiveIsMonthEnd(s: seq<WeeklyActivity>, a: WeeklyActivity)
    ensures a in ActivitiesOfWeek(s, 5) <==> a in s && a.weekStartDate.day >= 29
  {
    FilterMembership(s, (x: WeeklyActivity) => WeekOf(x.weekStartDate.day) == 5, a);
  }

  /** When no current-month week starts on day 29 or later, the four emitted weeks sum
      field-wise to the month's totals. */
  lemma WeeksCoverMonth(s: seq<WeeklyActivity>)
    requires forall a :: a in s ==> a.weekStartDate.day <= 28
    ensures SumWeekRows(WeeklyRows(s)) == SumTotals(s)
  {
    FiveWeeksPartitionMonth(s);
    FilterNone(s, (x: WeeklyActivity) => WeekOf(x.weekStartDate.day) == 5);
  }

  /** The boundary kept from the source: an activity of the month whose week starts on
      day 29 or later is in no emitted week, yet counts in the month's totals, which
      then exceed the sum of the emitted weeks by at least that activity. */
  lemma MonthEndWeekDropped(s: seq<WeeklyActivity>, a: WeeklyActivity)
    requires a in s && a.weekStartDate.day >= 29
    ensures forall w :: 1 <= w <= 4 ==> a !in ActivitiesOfWeek(s, w)
    ensures a in ActivitiesOfWeek(s, 5)
    ensures Plus(SumWeekRows(WeeklyRows(s)), SumTotals(ActivitiesOfWeek(s, 5))) == SumTotals(s)
  {
    forall w | 1 <= w <= 4 ensures a !in ActivitiesOfWeek(s, w) {
      FilterMembership(s, (x: WeeklyActivity) => WeekOf(x.weekStartDate.day) == w, a);
    }
    WeekFiveIsMonthEnd(s, a);
    FiveWeeksPartitionMonth(s);
  }

  /** For example, one meeting in a week starting on the 29th shows in the month's totals
      and in none of the four weekly rows of the report. */
  lemma MonthEndMeetingDropped(year: nat, month: Month, target: KpiTarget, a: WeeklyActivity)
    requires a.weekStartDate == Date(year, month, 29) && a.faceToFaceMeetings == 1
    ensures var r := Report(year, month, Some(target), [a]).value;
            r.monthTotals.meetings == 1
            && forall i :: 0 <= i < |r.weeklyBreakdown| ==> r.weeklyBreakdown[i].totals.meetings == 0
  {
    var ma := MonthActivities([a], year, month);
    FilterSnoc([], a, (x: WeeklyActivity) => x.weekStartDate.year == year && x.weekStartDate.month == month);
    assert [] + [a] == [a];
    assert ma == [a];
    SumTotalsSnoc([], a);
    forall w | 1 <= w <= 4 ensures ActivitiesOfWeek(ma, w) == [] {
      MonthEndWeekDropped(ma, a);
      FilterSnoc([], a, (x: WeeklyActivity) => WeekOf(x.weekStartDate.day) == w);
    }
  }

  // ---------------------------------------------------------------- monthly breakdown

  function SumMonthCounts(rows: seq<MonthRow>): nat {
    if rows == [] then 0 else SumMonthCounts(rows[..|rows| - 1]) + rows[|rows| - 1].activityCount
  }

  function SumMonthTotals(rows: seq<MonthRow>): Totals {
    if rows == [] then Zero else Plus(SumMonthTotals(rows[..|rows| - 1]), rows[|rows| - 1].totals)
  }

  /** Rows of no activities sum to nothing. */
  lemma {:induction false} EmptyMonthRows(rows: seq<MonthRow>)
    requires forall i :: 0 <= i < |rows| ==> rows[i].activityCount == 0 && rows[i].totals == Zero
    ensures SumMonthCounts(rows) == 0 && SumMonthTotals(rows) == Zero
    decreases |rows|
  {
    if rows != [] {
      EmptyMonthRows(rows[..|rows| - 1]);
    }
  }

  /** Adding one activity to one row adds it to the row sums. */
  lemma {:induction false} AddToOneRow(r1: seq<MonthRow>, r2: seq<MonthRow>, k: nat, x: WeeklyActivity)
    requires |r1| == |r2| && k < |r1|
    requires forall i :: 0 <= i < |r1| && i != k ==> r2[i] == r1[i]
    requires r2[k].activityCount == r1[k].activityCount + 1
    requires r2[k].totals == AddActivity(r1[k].totals, x)
    ensures SumMonthCounts(r2) == SumMonthCounts(r1) + 1
    ensures SumMonthTotals(r2) == AddActivity(SumMonthTotals(r1), x)
    decreases |r1|
  {
    var n := |r1|;
    if k == n - 1 {
      assert r1[..n - 1] == r2[..n - 1];
    } else {
      AddToOneRow(r1[..n - 1], r2[..n - 1], k, x);
    }
  }

  /** The monthly breakdown accounts for every activity of the year exactly once: its
      counts sum to the number of the year's activities and its totals to the year's
      totals. */
  lemma {:induction false} MonthlyBreakdownCoversYear(yearActs: seq<WeeklyActivity>)
    ensures SumMonthCounts(MonthlyRows(yearActs)) == |yearActs|
    ensures SumMonthTotals(MonthlyRows(yearActs)) == SumTotals(yearActs)
    decreases |yearActs|
  {
    if yearActs == [] {
      EmptyMonthRows(MonthlyRows(yearActs));
    } else {
      var s', x := yearActs[..|yearActs| - 1], yearActs[|yearActs| - 1];
      assert yearActs == s' + [x];
      MonthlyBreakdownCoversYear(s');
      var k := x.weekStartDate.month - 1;
      var r1, r2 := MonthlyRows(s'), MonthlyRows(yearActs);
      forall i | 0 <= i < 12 && i != k ensures r2[i] == r1[i] {
        MonthRowForSnoc(s', x, i + 1);
      }
      MonthRowForSnoc(s', x, k + 1);
      SumTotalsSnoc(s', x);
      AddToOneRow(r1, r2, k, x);
    }
  }

  /** One more activity of the year changes only the row of its own month. */
  lemma MonthRowForSnoc(s: seq<WeeklyActivity>, x: WeeklyActivity, m: int)
    ensures var r1, r2 := MonthRowFor(s, m), MonthRowFor(s + [x], m);
            if x.weekStartDate.month == m
            then r2 == MonthRow(m, AddActivity(r1.totals, x), r1.activityCount + 1)
            else r2 == r1
  {
    FilterSnoc(s, x, (a: WeeklyActivity) => a.weekStartDate.month == m);
    SumTotalsSnoc(ActivitiesOfMonth(s, m), x);
  }

  /** The current month's row of the monthly breakdown repeats the month totals and the
      month's activity count, which never exceeds the year's. */
  lemma CurrentMonthRowMatches(year: int, month: Month, target: KpiTarget, activities: seq<WeeklyActivity>)
    ensures var r := Report(year, month, Some(target), activities).value;
            |r.monthlyBreakdown| == 12
            && r.monthlyBreakdown[month - 1].month == month
            && r.monthlyBreakdown[month - 1].totals == r.monthTotals
            && r.monthlyBreakdown[month - 1].activityCount == r.activitiesThisMonth
            && r.activitiesThisMonth <= r.activitiesThisYear
  {
    MonthActivitiesWithinYear(activities, year, month);
  }

  /** The counts of the monthly breakdown sum to activitiesThisYear, and its totals to yearTotals. */
  lemma MonthlyCountsSumToYear(year: int, month: Month, target: KpiTarget, activities: seq<WeeklyActivity>)
    ensures var r := Report(year, month, Some(target), activities).value;
            SumMonthCounts(r.monthlyBreakdown) == r.activitiesThisYear
            && SumMonthTotals(r.monthlyBreakdown) == r.yearTotals
  {
    MonthlyBreakdownCoversYear(YearActivities(activities, year));
  }

  /** With a target and no activities every total, every row and every count is zero. */
  lemma NoActivitiesAllZero(year: int, month: Month, target: KpiTarget)
    ensures var r := Report(year, month, Some(target), []).value;
            r.yearTotals == Zero && r.monthTotals == Zero
            && r.activitiesThisYear == 0 && r.activitiesThisMonth == 0
            && (forall i :: 0 <= i < |r.weeklyBreakdown| ==> r.weeklyBreakdown[i].totals == Zero)
            && (forall i :: 0 <= i < |r.monthlyBreakdown| ==>
                  r.monthlyBreakdown[i].totals == Zero && r.monthlyBreakdown[i].activityCount == 0)
  {
  }

  // ---------------------------------------------------------------- thank-you cards

  /** A JavaScript value as the handler adds it: a number, NaN, or `undefined`. */
  datatype JsValue = Num(n: int) | NaN | Undefined

  /** JavaScript `+` on these values: anything but two numbers gives NaN. */
  function JsAdd(x: JsValue, y: JsValue): JsValue {
    if x.Num? && y.Num? then Num(x.n + y.n) else NaN
  }

  /** `activity.thankyouCards`: the record has no field of that name (it is
      `thankYouCards`), so the lookup gives undefined. */
  function ThankyouCardsField(a: WeeklyActivity): JsValue { Undefined }

  /** The thank-you-card total as the handler's reduce computes it. */
  function ThankYouCardsAsWritten(s: seq<WeeklyActivity>): JsValue {
    if s == [] then Num(0)
    else JsAdd(ThankYouCardsAsWritten(s[..|s| - 1]), ThankyouCardsField(s[|s| - 1]))
  }

  /** As written, the thank-you-card total is NaN for any non-empty list of activities,
      even where the intended total is a number. */
  lemma ThankYouCardsAsWrittenIsNaN(s: seq<WeeklyActivity>)
    ensures s != [] <==> ThankYouCardsAsWritten(s) == NaN
    ensures s == [] ==> ThankYouCardsAsWritten(s) == Num(SumTotals(s).thankYouCards)
    ensures s != [] ==> ThankYouCardsAsWritten(s) != Num(SumTotals(s).thankYouCards)
  {
  }

  /** The intended total: each activity adds its own thank-you cards. */
  lemma ThankYouCardsCounted(s: seq<WeeklyActivity>, a: WeeklyActivity)
    ensures SumTotals(s + [a]).thankYouCards == SumTotals(s).thankYouCards + a.thankYouCards
    ensures SumTotals([a]).thankYouCards == a.thankYouCards
  {
    SumTotalsSnoc(s, a);
    SumTotalsSnoc([], a);
    assert [] + [a] == [a];
  }
}
