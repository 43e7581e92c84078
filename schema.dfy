/** The record shapes of shared/schema.ts: column types, nullability, defaults,
    decimal bounds and the per-employee uniqueness constraints. Every decimal
    column of the schema has scale 2, so a decimal value is held as an integer
    number of hundredths. */
module Schema {
  import opened Options
  import opened Text

  type Month = m: int | 1 <= m <= 12 witness 1
  type Day = d: int | 1 <= d <= 31 witness 1

  /** A Postgres `date`, read as its literal year, month and day. */
  datatype Date = Date(year: nat, month: Month, day: Day)

  /** The `yyyy-MM-dd` text of a date (the form date-fns `format` and Postgres both use). */
  function DateText(d: Date): string {
    PadLeft(NatText(d.year), 4) + "-" + PadLeft(NatText(d.month), 2) + "-" + PadLeft(NatText(d.day), 2)
  }

  /** Reads `yyyy-MM-dd` text; anything else, or an out-of-range month or day, gives None. */
  function ParseDate(s: string): Option<Date> {
    if |s| == 10 && s[4] == '-' && s[7] == '-'
       && AllDigits(s[..4]) && AllDigits(s[5..7]) && AllDigits(s[8..])
    then
      var y, m, d := DigitsValue(s[..4]), DigitsValue(s[5..7]), DigitsValue(s[8..]);
      if 1 <= m <= 12 && 1 <= d <= 31 then Some(Date(y, m, d)) else None
    else None
  }

  /** A date of a four-digit year survives the round trip through its text. */
  lemma DateTextRoundTrip(d: Date)
    requires d.year <= 9999
    ensures ParseDate(DateText(d)) == Some(d)
  {
    var ys, ms, ds := NatText(d.year), NatText(d.month), NatText(d.day);
    NatTextLength(d.year, 4);
    NatTextLength(d.month, 2);
    NatTextLength(d.day, 2);
    var y4, m2, d2 := PadLeft(ys, 4), PadLeft(ms, 2), PadLeft(ds, 2);
    var s := DateText(d);
    assert s == y4 + "-" + m2 + "-" + d2;
    assert s[..4] == y4 && s[5..7] == m2 && s[8..] == d2;
    NatTextValue(d.year);
    NatTextValue(d.month);
    NatTextValue(d.day);
    PadLeftValue(ys, 4);
    PadLeftValue(ms, 2);
    PadLeftValue(ds, 2);
  }

  /** A decimal(p, 2) value in hundredths. */
  type Hundredths = int

  /** A decimal(precision, 2) column holds at most `precision` digits in all. */
  predicate FitsDecimal(v: Hundredths, precision: nat) {
    -(Pow10(precision) as int) < v < Pow10(precision)
  }

  /** A Postgres `integer` column is a signed 32-bit integer. */
  predicate FitsInteger(v: int) {
    -0x8000_0000 <= v < 0x8000_0000
  }

  /** The text Postgres gives for a decimal(p, 2) value: sign, whole part, '.', two digits. */
  function DecimalText(v: Hundredths): (r: string)
    ensures |r| >= 4
  {
    var a := if v < 0 then -v else v;
    (if v < 0 then "-" else "") + NatText(a / 100) + "." + PadLeft(NatText(a % 100), 2)
  }

  /** The decimal text reads back as the stored value. */
  lemma DecimalTextValue(v: Hundredths)
    ensures DecimalValue(DecimalText(v)) == Some(v)
  {
    var a := if v < 0 then -v else v;
    var u := NatText(a / 100) + "." + PadLeft(NatText(a % 100), 2);
    assert DecimalText(v) == (if v < 0 then "-" else "") + u;
    UnsignedDecimalTextValue(a);
    SignedDecimalValue(u, a, v < 0);
  }

  /** Without its sign, the text reads back as the magnitude. */
  lemma UnsignedDecimalTextValue(a: nat)
    ensures var u := NatText(a / 100) + "." + PadLeft(NatText(a % 100), 2);
            IsDigit(u[0]) && UnsignedDecimalValue(u) == Some(a)
  {
    var whole := NatText(a / 100);
    var frac := PadLeft(NatText(a % 100), 2);
    TwoDigits(a % 100);
    NatTextValue(a / 100);
    assert Pow10(0) == 1;
    WholeAndFractionValue(whole, frac, a / 100, a % 100);
    assert (whole + "." + frac)[0] == whole[0];
  }

  // ---------------------------------------------------------------- weekly_activities

  datatype WeeklyActivity = WeeklyActivity(
    id: string,
    employeeId: string,
    weekStartDate: Date,
    weekEndDate: Date,
    faceToFaceMeetings: nat,
    events: nat,
    videos: nat,
    hoursProspected: Hundredths,
    thankYouCards: nat,
    leadsReceived: nat)

  /** An insert into weekly_activities; an omitted counter is None. */
  datatype WeeklyActivityInsert = WeeklyActivityInsert(
    employeeId: string,
    weekStartDate: Date,
    weekEndDate: Date,
    faceToFaceMeetings: Option<nat>,
    events: Option<nat>,
    videos: Option<nat>,
    hoursProspected: Option<Hundredths>,
    thankYouCards: Option<nat>,
    leadsReceived: Option<nat>)

  /** The row the table stores for an insert: every omitted counter defaults to 0 and
      hoursProspected to "0". */
  function CreateWeeklyActivity(id: string, ins: WeeklyActivityInsert): WeeklyActivity {
    WeeklyActivity(id, ins.employeeId, ins.weekStartDate, ins.weekEndDate,
      ins.faceToFaceMeetings.GetOr(0), ins.events.GetOr(0), ins.videos.GetOr(0),
      ins.hoursProspected.GetOr(0), ins.thankYouCards.GetOr(0), ins.leadsReceived.GetOr(0))
  }

  /** An insert that names only the employee and the week stores all-zero counters. */
  lemma WeeklyActivityDefaults(id: string, employeeId: string, start: Date, end: Date)
    ensures var r := CreateWeeklyActivity(id,
              WeeklyActivityInsert(employeeId, start, end, None, None, None, None, None, None));
            r.faceToFaceMeetings == 0 && r.events == 0 && r.videos == 0
            && r.hoursProspected == 0 && r.thankYouCards == 0 && r.leadsReceived == 0
            && r.employeeId == employeeId && r.weekStartDate == start && r.weekEndDate == end
  {
  }

  /** The stored bounds of a weekly activity: 32-bit counters, hours as decimal(5,2). */
  predicate WeeklyActivityFits(a: WeeklyActivity) {
    FitsInteger(a.faceToFaceMeetings) && FitsInteger(a.events) && FitsInteger(a.videos)
    && FitsDecimal(a.hoursProspected, 5)
    && FitsInteger(a.thankYouCards) && FitsInteger(a.leadsReceived)
  }

  /** hoursProspected, a decimal(5,2), lies strictly between -1000 and 1000 hours. */
  lemma HoursProspectedBound(a: WeeklyActivity)
    ensures WeeklyActivityFits(a) ==> -1000.0 < a.hoursProspected as real / 100.0 < 1000.0
    ensures FitsDecimal(99999, 5) && !FitsDecimal(100000, 5)
  {
    assert Pow10(5) == 100000;
  }

  // ---------------------------------------------------------------- employee_kpi_targets

  datatype KpiTarget = KpiTarget(
    id: string,
    employeeId: string,
    year: int,
    annualVolumeGoal: Hundredths,
    avgLoanAmount: Hundredths,
    requiredUnitsMonthly: int,
    lockPercentage: Hundredths,
    lockedLoansMonthly: int,
    newFileToLockedPercentage: Hundredths,
    newFilesMonthly: Hundredths)

  /** The storage bounds of a KPI target: only the column types, no range rule. */
  predicate KpiTargetFits(t: KpiTarget) {
    FitsInteger(t.year)
    && FitsDecimal(t.annualVolumeGoal, 15)
    && FitsDecimal(t.avgLoanAmount, 12)
    && FitsInteger(t.requiredUnitsMonthly)
    && FitsDecimal(t.lockPercentage, 5)
    && FitsInteger(t.lockedLoansMonthly)
    && FitsDecimal(t.newFileToLockedPercentage, 5)
    && FitsDecimal(t.newFilesMonthly, 8)
  }

  /** Storage accepts lock percentages up to 999.99 and down to -999.99: the 0..100
      range is not a rule of the table. */
  lemma LockPercentageStorageRange(t: KpiTarget)
    requires KpiTargetFits(t)
    ensures -100000 < t.lockPercentage < 100000
    ensures KpiTargetFits(t.(lockPercentage := 99999)) && KpiTargetFits(t.(lockPercentage := -99999))
    ensures !KpiTargetFits(t.(lockPercentage := 100000))
  {
    assert Pow10(5) == 100000;
  }

  // ---------------------------------------------------------------- employee_sales_targets

  datatype SalesTarget = SalesTarget(
    id: string,
    employeeId: string,
    year: int,
    eventsTarget: int,
    meetingsTarget: int,
    thankyouTarget: int,
    prospectingTarget: int,
    videosTarget: int)

  /** An insert into employee_sales_targets; an omitted target is None. */
  datatype SalesTargetInsert = SalesTargetInsert(
    employeeId: string,
    year: int,
    eventsTarget: Option<int>,
    meetingsTarget: Option<int>,
    thankyouTarget: Option<int>,
    prospectingTarget: Option<int>,
    videosTarget: Option<int>)

  function CreateSalesTarget(id: string, ins: SalesTargetInsert): SalesTarget {
    SalesTarget(id, ins.employeeId, ins.year,
      ins.eventsTarget.GetOr(52), ins.meetingsTarget.GetOr(240), ins.thankyouTarget.GetOr(365),
      ins.prospectingTarget.GetOr(365), ins.videosTarget.GetOr(365))
  }

  /** Omitted sales targets default to 52 events, 240 meetings and 365 each of thank-you
      cards, prospecting and videos. */
  lemma SalesTargetDefaults(id: string, employeeId: string, year: int)
    ensures var r := CreateSalesTarget(id, SalesTargetInsert(employeeId, year, None, None, None, None, None));
            r.eventsTarget == 52 && r.meetingsTarget == 240 && r.thankyouTarget == 365
            && r.prospectingTarget == 365 && r.videosTarget == 365
  {
  }

  // ---------------------------------------------------------------- loans

  datatype Loan = Loan(
    id: string,
    employeeId: string,
    borrowerName: Option<string>,
    loanAmount: Hundredths,
    loanType: string,
    status: string,
    lockedDate: Option<Date>,
    closedDate: Option<Date>,
    expectedCloseDate: Option<Date>,
    referralSource: Option<string>)

  /** An insert into loans: loanAmount is required, loanType and status may be omitted,
      the dates and the text fields are nullable. */
  datatype LoanInsert = LoanInsert(
    employeeId: string,
    borrowerName: Option<string>,
    loanAmount: Hundredths,
    loanType: Option<string>,
    status: Option<string>,
    lockedDate: Option<Date>,
    closedDate: Option<Date>,
    expectedCloseDate: Option<Date>,
    referralSource: Option<string>)

  function CreateLoan(id: string, ins: LoanInsert): Loan {
    Loan(id, ins.employeeId, ins.borrowerName, ins.loanAmount,
      ins.loanType.GetOr("purchase"), ins.status.GetOr("lead"),
      ins.lockedDate, ins.closedDate, ins.expectedCloseDate, ins.referralSource)
  }

  /** A new loan is a "purchase" "lead" unless told otherwise, and keeps its amount and dates. */
  lemma LoanDefaults(id: string, ins: LoanInsert)
    ensures var r := CreateLoan(id, ins);
            (ins.status.None? ==> r.status == "lead")
            && (ins.loanType.None? ==> r.loanType == "purchase")
            && r.loanAmount == ins.loanAmount
            && r.lockedDate == ins.lockedDate && r.closedDate == ins.closedDate
            && r.expectedCloseDate == ins.expectedCloseDate
  {
  }

  predicate LoanFits(l: Loan) { FitsDecimal(l.loanAmount, 12) }

  // ---------------------------------------------------------------- past_clients, top_realtors

  datatype PastClient = PastClient(id: string, employeeId: string, totalCount: int)
  datatype TopRealtor = TopRealtor(id: string, employeeId: string, totalCount: int)

  /** No two rows of `rows` share a key. */
  predicate UniqueBy<R, K(==)>(rows: seq<R>, key: R -> K) {
    forall i, j :: 0 <= i < j < |rows| ==> key(rows[i]) != key(rows[j])
  }

  /** An insert into a table with a unique column: refused (None) when the key is taken. */
  function InsertUnique<R, K(==)>(rows: seq<R>, row: R, key: R -> K): Option<seq<R>> {
    if exists i :: 0 <= i < |rows| && key(rows[i]) == key(row) then None else Some(rows + [row])
  }

  /** A unique insert either appends the row and keeps the keys unique, or is refused
      exactly because the key is already present. */
  lemma InsertUniqueKeepsKeysUnique<R, K>(rows: seq<R>, row: R, key: R -> K)
    requires UniqueBy(rows, key)
    ensures InsertUnique(rows, row, key).None? <==> exists i :: 0 <= i < |rows| && key(rows[i]) == key(row)
    ensures InsertUnique(rows, row, key).Some? ==>
              InsertUnique(rows, row, key).value == rows + [row]
              && UniqueBy(InsertUnique(rows, row, key).value, key)
  {
    if InsertUnique(rows, row, key).Some? {
      var r := rows + [row];
      forall i, j | 0 <= i < j < |r| ensures key(r[i]) != key(r[j]) {
        if j == |rows| {
          assert r[i] == rows[i];
        }
      }
    }
  }

  function PastClientEmployee(c: PastClient): string { c.employeeId }
  function TopRealtorEmployee(t: TopRealtor): string { t.employeeId }

  /** past_clients may hold at most one row per employee. */
  lemma PastClientsOnePerEmployee(rows: seq<PastClient>, c: PastClient)
    requires UniqueBy(rows, PastClientEmployee)
    ensures InsertUnique(rows, c, PastClientEmployee).Some? ==>
              UniqueBy(InsertUnique(rows, c, PastClientEmployee).value, PastClientEmployee)
    ensures (exists i :: 0 <= i < |rows| && rows[i].employeeId == c.employeeId) ==>
              InsertUnique(rows, c, PastClientEmployee).None?
  {
    InsertUniqueKeepsKeysUnique(rows, c, PastClientEmployee);
  }

  /** top_realtors may hold at most one row per employee. */
  lemma TopRealtorsOnePerEmployee(rows: seq<TopRealtor>, t: TopRealtor)
    requires UniqueBy(rows, TopRealtorEmployee)
    ensures InsertUnique(rows, t, TopRealtorEmployee).Some? ==>
              UniqueBy(InsertUnique(rows, t, TopRealtorEmployee).value, TopRealtorEmployee)
    ensures (exists i :: 0 <= i < |rows| && rows[i].employeeId == t.employeeId) ==>
              InsertUnique(rows, t, TopRealtorEmployee).None?
  {
    InsertUniqueKeepsKeysUnique(rows, t, TopRealtorEmployee);
  }

  /** The (employee, year) of a KPI target and the (employee, week start) of a weekly activity. */
  function KpiTargetKey(t: KpiTarget): (string, int) { (t.employeeId, t.year) }
  function WeeklyActivityKey(a: WeeklyActivity): (string, Date) { (a.employeeId, a.weekStartDate) }

  /** An insert into a table without a unique constraint: the row is stored after the
      existing ones, whatever its key. */
  function InsertAppend<R>(rows: seq<R>, row: R): (r: seq<R>)
    ensures |r| == |rows| + 1 && r[..|rows|] == rows && r[|rows|] == row
  {
    rows + [row]
  }

  /** Neither employee_kpi_targets nor weekly_activities declares a unique key: inserting a
      second row with the same (employee, year) or (employee, week start) stores both rows,
      where a unique column would have refused the second insert. */
  lemma NoNaturalKeyDeclared(targets: seq<KpiTarget>, t: KpiTarget, t': KpiTarget,
                             acts: seq<WeeklyActivity>, a: WeeklyActivity, a': WeeklyActivity)
    requires KpiTargetKey(t) == KpiTargetKey(t')
    requires WeeklyActivityKey(a) == WeeklyActivityKey(a')
    ensures var r := InsertAppend(InsertAppend(targets, t), t');
            |r| == |targets| + 2 && r[|targets|] == t && r[|targets| + 1] == t'
            && !UniqueBy(r, KpiTargetKey)
    ensures InsertUnique(InsertAppend(targets, t), t', KpiTargetKey).None?
    ensures var r := InsertAppend(InsertAppend(acts, a), a');
            |r| == |acts| + 2 && r[|acts|] == a && r[|acts| + 1] == a'
            && !UniqueBy(r, WeeklyActivityKey)
    ensures InsertUnique(InsertAppend(acts, a), a', WeeklyActivityKey).None?
  {
    var r := InsertAppend(InsertAppend(targets, t), t');
    assert r[..|targets| + 1] == InsertAppend(targets, t);
    assert r[|targets|] == t;
    var q := InsertAppend(InsertAppend(acts, a), a');
    assert q[..|acts| + 1] == InsertAppend(acts, a);
    assert q[|acts|] == a;
  }

  // ---------------------------------------------------------------- realtor_partners

  datatype RealtorPartner = RealtorPartner(
    id: string,
    employeeId: string,
    name: string,
    company: Option<string>,
    phone: Option<string>,
    email: Option<string>,
    lastContactDate: Option<Date>,
    relationshipStrength: string,
    loansReferred: int,
    notes: Option<string>)

  datatype RealtorPartnerInsert = RealtorPartnerInsert(
    employeeId: string,
    name: string,
    company: Option<string>,
    phone: Option<string>,
    email: Option<string>,
    lastContactDate: Option<Date>,
    relationshipStrength: Option<string>,
    loansReferred: Option<int>,
    notes: Option<string>)

  function CreateRealtorPartner(id: string, ins: RealtorPartnerInsert): RealtorPartner {
    RealtorPartner(id, ins.employeeId, ins.name, ins.company, ins.phone, ins.email,
      ins.lastContactDate, ins.relationshipStrength.GetOr("new"), ins.loansReferred.GetOr(0), ins.notes)
  }

  /** A new realtor partner is a "new" relationship with 0 loans referred unless told otherwise. */
  lemma RealtorPartnerDefaults(id: string, ins: RealtorPartnerInsert)
    ensures var r := CreateRealtorPartner(id, ins);
            (ins.relationshipStrength.None? ==> r.relationshipStrength == "new")
            && (ins.loansReferred.None? ==> r.loansReferred == 0)
            && r.name == ins.name && r.employeeId == ins.employeeId
  {
  }
}
