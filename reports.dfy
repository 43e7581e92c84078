/** The admin performance report of client/src/components/AdminReports.tsx: the
    aggregates over the employees that have a KPI target, the volume chart data and the
    CSV export text. Number formatting by `toLocaleString` depends on the browser's
    locale, so it is a parameter. */
module Reports {
  import opened Options
  import opened Seqs
  import opened Text
  import opened Schema
  import opened Csv

  /** One entry of `employeeData`. */
  datatype EmployeeReport = EmployeeReport(
    id: string,
    name: string,
    kpiTarget: Option<KpiTarget>,
    salesTarget: Option<SalesTarget>,
    weeklyActivityCount: nat)

  /** employeesWithTargets: the employees whose KPI target is set, in order. */
  function EmployeesWithTargets(employees: seq<EmployeeReport>): (r: seq<EmployeeReport>)
    ensures |r| <= |employees|
  {
    Filter(employees, (e: EmployeeReport) => e.kpiTarget.Some?)
  }

  /** `parseFloat(emp.kpiTarget?.annualVolumeGoal || "0")`, in hundredths. */
  function VolumeGoalOf(e: EmployeeReport): Hundredths {
    match e.kpiTarget
    case Some(t) => t.annualVolumeGoal
    case None => 0
  }

  /** `emp.kpiTarget?.requiredUnitsMonthly || 0`. */
  function UnitsOf(e: EmployeeReport): int {
    match e.kpiTarget
    case Some(t) => t.requiredUnitsMonthly
    case None => 0
  }

  function SumVolumeGoals(s: seq<EmployeeReport>): Hundredths {
    if s == [] then 0 else SumVolumeGoals(s[..|s| - 1]) + VolumeGoalOf(s[|s| - 1])
  }

  function SumUnits(s: seq<EmployeeReport>): int {
    if s == [] then 0 else SumUnits(s[..|s| - 1]) + UnitsOf(s[|s| - 1])
  }

  /** Unit counts that are not negative have a sum that is not negative. */
  lemma {:induction false} SumUnitsNonNegative(s: seq<EmployeeReport>)
    ensures (forall e :: e in s ==> UnitsOf(e) >= 0) ==> SumUnits(s) >= 0
    decreases |s|
  {
    if s != [] {
      assert s[|s| - 1] in s;
      SumUnitsNonNegative(s[..|s| - 1]);
    }
  }

  /** totalVolumeGoal, in hundredths: employees without a target add nothing. */
  function TotalVolumeGoal(employees: seq<EmployeeReport>): (r: Hundredths)
    ensures r == SumVolumeGoals(employees)
  {
    SumsOverTargetsOnly(employees);
    SumVolumeGoals(EmployeesWithTargets(employees))
  }

  /** `Math.round(total / n)` for n > 0: the integer r with r - 1/2 <= total / n < r + 1/2,
      that is the integer nearest the mean with halves rounded up. */
  function RoundedMean(total: int, n: nat): (r: int)
    requires n > 0
    ensures n * (2 * r - 1) <= 2 * total < n * (2 * r + 1)
  {
    (2 * total + n) / (2 * n)
  }

  /** The sign of a product with a positive factor is the sign of the other factor. */
  lemma ProductSign(n: int, x: int)
    requires n > 0
    ensures n * x <= 0 ==> x <= 0
    ensures n * x > 0 ==> x > 0
  {
  }

  /** avgUnitsTarget: the rounded mean of the required units of the employees with a
      target, or 0 when none has one. */
  function AvgUnitsTarget(employees: seq<EmployeeReport>): (r: int)
    ensures (forall e :: e in employees ==> UnitsOf(e) >= 0) ==> r >= 0
  {
    var withTargets := EmployeesWithTargets(employees);
    if |withTargets| > 0 then
      SumsOverTargetsOnly(employees);
      SumUnitsNonNegative(employees);
      RoundedMeanNonNegative(SumUnits(withTargets), |withTargets|);
      RoundedMean(SumUnits(withTargets), |withTargets|)
    else 0
  }

  /** The rounded mean of a total that is not negative is not negative. */
  lemma RoundedMeanNonNegative(total: int, n: nat)
    requires n > 0
    ensures total >= 0 ==> RoundedMean(total, n) >= 0
  {
    ProductSign(n, 2 * RoundedMean(total, n) + 1);
  }

  /** One bar of the volume chart, in millions of dollars. */
  datatype ChartPoint = ChartPoint(name: string, value: real, target: real)

  /** `annualVolumeGoal / 1000000` for a volume goal held in hundredths. */
  function Millions(goal: Hundredths): real {
    goal as real / 100000000.0
  }

  function ChartPointOf(e: EmployeeReport): ChartPoint {
    ChartPoint(FirstWord(e.name), Millions(VolumeGoalOf(e)), Millions(VolumeGoalOf(e)))
  }

  /** volumeByEmployee: the first five employees with a target, first name and volume goal. */
  function VolumeByEmployee(employees: seq<EmployeeReport>): seq<ChartPoint> {
    var withTargets := EmployeesWithTargets(employees);
    var firstFive := if |withTargets| <= 5 then withTargets else withTargets[..5];
    seq(|firstFive|, i requires 0 <= i < |firstFive| => ChartPointOf(firstFive[i]))
  }

  // ---------------------------------------------------------------- aggregates

  /** An employee is counted as having targets exactly when it is listed and has a KPI
      target; the filter keeps the order of the list. */
  lemma EmployeesWithTargetsExact(employees: seq<EmployeeReport>, more: seq<EmployeeReport>, e: EmployeeReport)
    ensures e in EmployeesWithTargets(employees) <==> e in employees && e.kpiTarget.Some?
    ensures EmployeesWithTargets(employees + more) == EmployeesWithTargets(employees) + EmployeesWithTargets(more)
  {
    FilterMembership(employees, (x: EmployeeReport) => x.kpiTarget.Some?, e);
    FilterAppend(employees, more, (x: EmployeeReport) => x.kpiTarget.Some?);
  }

  /** Employees without a target add nothing to a sum of goals or of units. */
  lemma {:induction false} SumsOverTargetsOnly(employees: seq<EmployeeReport>)
    ensures SumVolumeGoals(EmployeesWithTargets(employees)) == SumVolumeGoals(employees)
    ensures SumUnits(EmployeesWithTargets(employees)) == SumUnits(employees)
    decreases |employees|
  {
    if employees != [] {
      var s', x := employees[..|employees| - 1], employees[|employees| - 1];
      assert employees == s' + [x];
      SumsOverTargetsOnly(s');
      FilterSnoc(s', x, (e: EmployeeReport) => e.kpiTarget.Some?);
      var w := EmployeesWithTargets(s');
      assert (w + [x])[..|w|] == w;
    }
  }

  /** The total volume goal counts every employee's target once, and is 0 when no
      employee has a target. */
  lemma TotalVolumeGoalOverAll(employees: seq<EmployeeReport>)
    ensures TotalVolumeGoal(employees) == SumVolumeGoals(employees)
    ensures (forall e :: e in employees ==> e.kpiTarget.None?) ==> TotalVolumeGoal(employees) == 0
  {
    SumsOverTargetsOnly(employees);
    if forall e :: e in employees ==> e.kpiTarget.None? {
      FilterNone(employees, (e: EmployeeReport) => e.kpiTarget.Some?);
    }
  }

  /** The average is 0 without targets, and otherwise within one half of the exact mean
      of the units over the employees with targets. */
  lemma AvgUnitsTargetIsRoundedMean(employees: seq<EmployeeReport>)
    ensures var w := EmployeesWithTargets(employees);
            var r := AvgUnitsTarget(employees);
            (|w| == 0 ==> r == 0)
            && (|w| > 0 ==> |w| * (2 * r - 1) <= 2 * SumUnits(employees) < |w| * (2 * r + 1))
  {
    var w := EmployeesWithTargets(employees);
    if |w| > 0 {
      SumsOverTargetsOnly(employees);
      MeanWithinHalf(SumUnits(w), SumUnits(employees), |w|);
    }
  }

  /** The bound of RoundedMean, carried over to an equal total. */
  lemma MeanWithinHalf(total: int, total': int, n: nat)
    requires n > 0 && total == total'
    ensures var r := RoundedMean(total, n);
            n * (2 * r - 1) <= 2 * total' < n * (2 * r + 1)
  {
  }

  /** When every employee with a target asks for the same number of units, that is the average. */
  lemma {:induction false} UniformUnits(s: seq<EmployeeReport>, u: int)
    requires forall e :: e in s ==> UnitsOf(e) == u
    ensures SumUnits(s) == |s| * u
    decreases |s|
  {
    if s != [] {
      UniformUnits(s[..|s| - 1], u);
    }
  }

  lemma AvgOfUniformUnits(employees: seq<EmployeeReport>, u: int)
    requires EmployeesWithTargets(employees) != []
    requires forall e :: e in EmployeesWithTargets(employees) ==> UnitsOf(e) == u
    ensures AvgUnitsTarget(employees) == u
  {
    var w := EmployeesWithTargets(employees);
    UniformUnits(w, u);
    RoundedMeanOfMultiple(|w|, u);
  }

  /** The rounded mean of n equal values is that value. */
  lemma RoundedMeanOfMultiple(n: nat, u: int)
    requires n > 0
    ensures RoundedMean(n * u, n) == u
  {
    var r := RoundedMean(n * u, n);
    assert n * (2 * r - 1 - 2 * u) == n * (2 * r - 1) - 2 * (n * u);
    assert n * (2 * r + 1 - 2 * u) == n * (2 * r + 1) - 2 * (n * u);
    ProductSign(n, 2 * r - 1 - 2 * u);
    ProductSign(n, 2 * r + 1 - 2 * u);
  }

  /** The chart shows at most five employees, the first five with a target in order,
      each under its first name with value and target both its volume goal in millions. */
  lemma VolumeByEmployeeShape(employees: seq<EmployeeReport>)
    ensures var w := EmployeesWithTargets(employees);
            var v := VolumeByEmployee(employees);
            |v| <= 5
            && |v| == (if |w| <= 5 then |w| else 5)
            && (forall i :: 0 <= i < |v| ==> w[i].kpiTarget.Some?)
            && (forall i :: 0 <= i < |v| ==>
                  v[i].name == FirstWord(w[i].name)
                  && v[i].value == v[i].target == Millions(VolumeGoalOf(w[i])))
  {
    var w := EmployeesWithTargets(employees);
    var v := VolumeByEmployee(employees);
    forall i | 0 <= i < |w| ensures w[i].kpiTarget.Some? {
      FilterMembership(employees, (e: EmployeeReport) => e.kpiTarget.Some?, w[i]);
    }
    forall i | 0 <= i < |v| ensures v[i] == ChartPointOf(w[i]) {
    }
  }

  // ---------------------------------------------------------------- CSV export

  const CsvHeaders: seq<string> := [
    "Employee Name",
    "Annual Volume Goal",
    "Required Units Monthly",
    "Lock %",
    "Locked Loans Monthly",
    "Weekly Activities Logged",
    "Has Targets Set"]

  /** JavaScript's text of a number with at most two decimals, held in hundredths:
      no trailing zeros and no point for a whole number (`String(parseFloat("75.50"))`
      is "75.5"). */
  function ShortDecimalText(v: Hundredths): (r: string)
    ensures |r| >= 1
    ensures forall k :: 0 <= k < |r| ==> IsDigit(r[k]) || r[k] == '-' || r[k] == '.'
  {
    var a := if v < 0 then -v else v;
    (if v < 0 then "-" else "") + NatText(a / 100) + FractionTail(a % 100)
  }

  /** The lock cell's number reads back as the stored percentage. */
  lemma ShortDecimalTextValue(v: Hundredths)
    ensures DecimalValue(ShortDecimalText(v)) == Some(v)
  {
    var a := if v < 0 then -v else v;
    var u := NatText(a / 100) + FractionTail(a % 100);
    assert ShortDecimalText(v) == (if v < 0 then "-" else "") + u;
    UnsignedShortValue(a);
    SignedDecimalValue(u, a, v < 0);
  }

  /** The lock cell's number has a decimal point exactly when the percentage is not whole,
      and then it does not end in '0'. */
  lemma ShortDecimalTextPoint(v: Hundredths)
    ensures '.' in ShortDecimalText(v) <==> v % 100 != 0
    ensures '.' in ShortDecimalText(v) ==> ShortDecimalText(v)[|ShortDecimalText(v)| - 1] != '0'
  {
    var a := if v < 0 then -v else v;
    var sign := if v < 0 then "-" else "";
    var whole := NatText(a / 100);
    var tail := FractionTail(a % 100);
    var r := ShortDecimalText(v);
    assert r == sign + whole + tail;
    NatTextValue(a / 100);
    DigitsAvoidPoint(whole);
    assert '.' !in sign + whole;
    assert '.' in r <==> '.' in tail;
    if tail != "" {
      assert r[|r| - 1] == tail[|tail| - 1];
    }
    assert v % 100 == 0 <==> a % 100 == 0;
  }

  /** Without its sign, the number reads back as the magnitude. */
  lemma UnsignedShortValue(a: nat)
    ensures var u := NatText(a / 100) + FractionTail(a % 100);
            IsDigit(u[0]) && UnsignedDecimalValue(u) == Some(a)
  {
    NatTextValue(a / 100);
    WholeAndTailValue(NatText(a / 100), FractionTail(a % 100), a / 100, a % 100);
  }

  /** Whole digits followed by a tail of the form `FractionTail` gives read as both parts. */
  lemma WholeAndTailValue(whole: string, tail: string, w: nat, f: nat)
    requires AllDigits(whole) && |whole| >= 1 && DigitsValue(whole) == w
    requires tail == "" <==> f == 0
    requires tail != "" ==> 2 <= |tail| <= 3 && tail[0] == '.' && AllDigits(tail[1..])
                            && DigitsValue(tail[1..]) * Pow10(3 - |tail|) == f
    ensures IsDigit((whole + tail)[0]) && UnsignedDecimalValue(whole + tail) == Some(100 * w + f)
  {
    assert (whole + tail)[0] == whole[0];
    if tail == "" {
      assert whole + tail == whole;
      UnsignedWholeValue(whole);
    } else {
      var frac := tail[1..];
      assert whole + tail == whole + "." + frac;
      assert 2 - |frac| == 3 - |tail|;
      WholeAndFractionValue(whole, frac, w, f);
    }
  }

  /** The text after the whole part: nothing for a whole number, else '.' and one or two
      digits, the last of which is not '0'. */
  function FractionTail(f: nat): (t: string)
    requires f < 100
    ensures t == "" <==> f == 0
    ensures forall k :: 0 <= k < |t| ==> IsDigit(t[k]) || t[k] == '.'
    ensures t != "" ==> 2 <= |t| <= 3 && t[0] == '.' && '.' !in t[1..] && AllDigits(t[1..])
                        && DigitsValue(t[1..]) * Pow10(3 - |t|) == f && t[|t| - 1] != '0'
  {
    if f == 0 then ""
    else if f % 10 == 0 then
      assert ("." + [Digit(f / 10)])[1..] == [Digit(f / 10)];
      assert DigitsValue([Digit(f / 10)]) == f / 10 by {
        assert [Digit(f / 10)][..0] == [];
      }
      "." + [Digit(f / 10)]
    else
      var d := PadLeft(NatText(f), 2);
      TwoDigits(f);
      DigitsAvoidPoint(d);
      PadLeftLast(NatText(f), 2);
      NatTextLast(f);
      assert ("." + d)[1..] == d;
      "." + d
  }

  /** A count cell: `count || "N/A"`, where 0 counts as missing. */
  function CountCell(count: Option<int>): string {
    match count
    case Some(n) => if n == 0 then "N/A" else IntText(n)
    case None => "N/A"
  }

  /** One CSV row; `toLocale` is the browser's `toLocaleString` of the volume goal. */
  function CsvRow(e: EmployeeReport, toLocale: Hundredths -> string): seq<string> {
    [
      e.name,
      match e.kpiTarget case Some(t) => "$" + toLocale(t.annualVolumeGoal) case None => "N/A",
      CountCell(match e.kpiTarget case Some(t) => Some(t.requiredUnitsMonthly) case None => None),
      match e.kpiTarget case Some(t) => ShortDecimalText(t.lockPercentage) + "%" case None => "N/A",
      CountCell(match e.kpiTarget case Some(t) => Some(t.lockedLoansMonthly) case None => None),
      NatText(e.weeklyActivityCount),
      if e.kpiTarget.Some? then "Yes" else "No"
    ]
  }

  /** The lines of the export: the header line, then one line per employee. */
  function CsvLines(employees: seq<EmployeeReport>, toLocale: Hundredths -> string): (lines: seq<string>)
    ensures |lines| == 1 + |employees|
  {
    [HeaderLine()] + RowLines(employees, toLocale)
  }

  /** The header line: the headers joined by commas. */
  function HeaderLine(): string {
    JoinWith(CsvHeaders, ',')
  }

  /** The employees' lines, in order. */
  function RowLines(employees: seq<EmployeeReport>, toLocale: Hundredths -> string): (r: seq<string>)
    ensures |r| == |employees|
  {
    seq(|employees|, i requires 0 <= i < |employees| => RowLine(employees[i], toLocale))
  }

  /** An employee's line: the row's cells joined by commas. */
  function RowLine(e: EmployeeReport, toLocale: Hundredths -> string): string {
    JoinWith(CsvRow(e, toLocale), ',')
  }

  /** csvContent: the lines joined by "\n". */
  function CsvContent(employees: seq<EmployeeReport>, toLocale: Hundredths -> string): string {
    JoinWith(CsvLines(employees, toLocale), '\n')
  }

  /** Every row has one cell per header; the target cells read "N/A" exactly when there is
      no target, and the count cells also when the count is 0; the last cell says whether
      a target is set. */
  lemma CsvRowCells(e: EmployeeReport, toLocale: Hundredths -> string)
    ensures var row := CsvRow(e, toLocale);
            |row| == |CsvHeaders| == 7
            && row[0] == e.name
            && (row[1] == "N/A" <==> e.kpiTarget.None?)
            && (row[2] == "N/A" <==> e.kpiTarget.None? || e.kpiTarget.value.requiredUnitsMonthly == 0)
            && (row[3] == "N/A" <==> e.kpiTarget.None?)
            && (row[4] == "N/A" <==> e.kpiTarget.None? || e.kpiTarget.value.lockedLoansMonthly == 0)
            && row[5] == NatText(e.weeklyActivityCount)
            && (row[6] == "Yes" <==> e.kpiTarget.Some?)
            && (row[6] == "No" <==> e.kpiTarget.None?)
  {
    var row := CsvRow(e, toLocale);
    if e.kpiTarget.Some? {
      var t := e.kpiTarget.value;
      assert row[1][0] == '$';
      assert row[3][|row[3]| - 1] == '%';
      CountCellNotNA(t.requiredUnitsMonthly);
      CountCellNotNA(t.lockedLoansMonthly);
    }
  }

  /** A nonzero count is written as its number, never as "N/A". */
  lemma CountCellNotNA(n: int)
    ensures CountCell(Some(n)) == "N/A" <==> n == 0
  {
    if n != 0 {
      var r := IntText(n);
      assert r[0] == '-' || IsDigit(r[0]);
      assert "N/A"[0] == 'N';
    }
  }

  /** The lock cell's number reads back as the stored percentage for whole percentages. */
  lemma ShortDecimalTextWhole(v: nat)
    ensures ShortDecimalText(100 * v) == NatText(v)
  {
    assert (100 * v) / 100 == v && (100 * v) % 100 == 0;
  }

  /** Splitting the export at line breaks gives back the header line and one line per
      employee, in order, provided no cell holds a line break; splitting a line at commas
      gives back its cells provided no cell holds a comma. The export does not quote cells
      (section 2 of RFC 4180), so these provisions are needed. */
  lemma CsvReadsBack(employees: seq<EmployeeReport>, toLocale: Hundredths -> string, i: nat)
    requires forall e :: e in employees ==> '\n' !in e.name
    requires forall v :: '\n' !in toLocale(v)
    requires i < |employees|
    ensures SplitOn(CsvContent(employees, toLocale), '\n') == CsvLines(employees, toLocale)
    ensures SplitOn(CsvContent(employees, toLocale), '\n')[0] == JoinWith(CsvHeaders, ',')
    ensures SplitOn(CsvContent(employees, toLocale), '\n')[i + 1] == JoinWith(CsvRow(employees[i], toLocale), ',')
    ensures (forall k :: 0 <= k < 7 ==> ',' !in CsvRow(employees[i], toLocale)[k])
            ==> SplitOn(SplitOn(CsvContent(employees, toLocale), '\n')[i + 1], ',') == CsvRow(employees[i], toLocale)
  {
    var lines := CsvLines(employees, toLocale);
    LinesAvoidNewline(employees, toLocale);
    SplitJoin(lines, '\n');
    assert lines[i + 1] == RowLines(employees, toLocale)[i] == RowLine(employees[i], toLocale);
    var row := CsvRow(employees[i], toLocale);
    if forall k :: 0 <= k < 7 ==> ',' !in row[k] {
      CsvRowCells(employees[i], toLocale);
      SplitJoin(row, ',');
    }
  }

  /** No line of the export holds a line break when no name and no locale text does. */
  lemma LinesAvoidNewline(employees: seq<EmployeeReport>, toLocale: Hundredths -> string)
    requires forall e :: e in employees ==> '\n' !in e.name
    requires forall v :: '\n' !in toLocale(v)
    ensures forall k :: 0 <= k < |CsvLines(employees, toLocale)| ==> '\n' !in CsvLines(employees, toLocale)[k]
  {
    HeaderAvoidsNewline();
    RowLinesAvoidNewline(employees, toLocale);
    ConsAvoids(HeaderLine(), RowLines(employees, toLocale), '\n');
  }

  /** No employee line holds a line break when no name and no locale text does. */
  lemma RowLinesAvoidNewline(employees: seq<EmployeeReport>, toLocale: Hundredths -> string)
    requires forall e :: e in employees ==> '\n' !in e.name
    requires forall v :: '\n' !in toLocale(v)
    ensures forall j :: 0 <= j < |employees| ==> '\n' !in RowLines(employees, toLocale)[j]
  {
    forall j | 0 <= j < |employees| ensures '\n' !in RowLines(employees, toLocale)[j] {
      assert employees[j] in employees;
      RowLineAvoidsNewline(employees[j], toLocale);
    }
  }

  /** An employee's line holds no line break when the name and the locale text hold none. */
  lemma RowLineAvoidsNewline(e: EmployeeReport, toLocale: Hundredths -> string)
    requires '\n' !in e.name
    requires forall v :: '\n' !in toLocale(v)
    ensures '\n' !in JoinWith(CsvRow(e, toLocale), ',')
  {
    RowAvoidsNewline(e, toLocale);
    JoinWithAvoids(CsvRow(e, toLocale), ',', '\n');
  }

  /** The header line holds no line break. */
  lemma HeaderAvoidsNewline()
    ensures '\n' !in HeaderLine()
  {
    HeaderCellsAvoidNewline();
    JoinWithAvoids(CsvHeaders, ',', '\n');
  }

  /** No cell the export writes itself holds a line break. */
  lemma RowAvoidsNewline(e: EmployeeReport, toLocale: Hundredths -> string)
    requires '\n' !in e.name
    requires forall v :: '\n' !in toLocale(v)
    ensures forall k :: 0 <= k < |CsvRow(e, toLocale)| ==> '\n' !in CsvRow(e, toLocale)[k]
  {
    var row := CsvRow(e, toLocale);
    CsvRowCells(e, toLocale);
    forall k | 0 <= k < 7 ensures '\n' !in row[k] {
      if k == 5 {
        assert AllDigits(row[5]);
      }
    }
  }

  // ---------------------------------------------------------------- commas inside a cell

  /** The export as written does not quote its cells, so a volume goal the locale writes
      with a grouping comma ("100,000,000") spills over into the next column: the line
      splits into more fields than there are headers and no longer reads back as its row. */
  lemma GroupedGoalBreaksRow(e: EmployeeReport, toLocale: Hundredths -> string)
    requires e.kpiTarget.Some? && ',' in toLocale(e.kpiTarget.value.annualVolumeGoal)
    ensures |SplitOn(RowLine(e, toLocale), ',')| > |CsvHeaders|
    ensures SplitOn(RowLine(e, toLocale), ',') != CsvRow(e, toLocale)
  {
    var row := CsvRow(e, toLocale);
    CsvRowCells(e, toLocale);
    var goal := toLocale(e.kpiTarget.value.annualVolumeGoal);
    assert row[1] == "$" + goal;
    assert ',' in row[1] by {
      var k :| 0 <= k < |goal| && goal[k] == ',';
      assert row[1][k + 1] == ',';
    }
    CountCharPositive(row[1], ',');
    JoinCount(row, ',', 1);
    SplitCount(RowLine(e, toLocale), ',');
  }

  /** An employee's line with every cell quoted. */
  function QuotedRowLine(e: EmployeeReport, toLocale: Hundredths -> string): string {
    JoinWith(QuoteAll(CsvRow(e, toLocale)), ',')
  }

  /** The quoted export: the quoted header line, then one quoted line per employee. */
  function QuotedCsvLines(employees: seq<EmployeeReport>, toLocale: Hundredths -> string): (lines: seq<string>)
    ensures |lines| == 1 + |employees|
  {
    [QuotedHeaderLine()] + QuotedRowLines(employees, toLocale)
  }

  function QuotedHeaderLine(): string {
    JoinWith(QuoteAll(CsvHeaders), ',')
  }

  function QuotedRowLines(employees: seq<EmployeeReport>, toLocale: Hundredths -> string): (r: seq<string>)
    ensures |r| == |employees|
  {
    seq(|employees|, i requires 0 <= i < |employees| => QuotedRowLine(employees[i], toLocale))
  }

  function QuotedCsvContent(employees: seq<EmployeeReport>, toLocale: Hundredths -> string): string {
    JoinWith(QuotedCsvLines(employees, toLocale), '\n')
  }

  /** With the cells quoted every line reads back as its seven cells, whatever commas or
      quotes the names and the locale text hold; only a line break inside a cell still
      needs excluding. */
  lemma QuotedCsvReadsBack(employees: seq<EmployeeReport>, toLocale: Hundredths -> string, i: nat)
    requires forall e :: e in employees ==> '\n' !in e.name
    requires forall v :: '\n' !in toLocale(v)
    requires i < |employees|
    ensures SplitOn(QuotedCsvContent(employees, toLocale), '\n') == QuotedCsvLines(employees, toLocale)
    ensures ParseFields(SplitOn(QuotedCsvContent(employees, toLocale), '\n')[0]) == Some(CsvHeaders)
    ensures ParseFields(SplitOn(QuotedCsvContent(employees, toLocale), '\n')[i + 1]) == Some(CsvRow(employees[i], toLocale))
  {
    QuotedCsvSplitsIntoLines(employees, toLocale);
    var lines := QuotedCsvLines(employees, toLocale);
    assert lines[0] == QuotedHeaderLine();
    assert lines[i + 1] == QuotedRowLines(employees, toLocale)[i] == QuotedRowLine(employees[i], toLocale);
    QuotedHeaderReadsBack();
    QuotedRowReadsBack(employees[i], toLocale);
  }

  /** Splitting the quoted export at line breaks gives back its lines. */
  lemma QuotedCsvSplitsIntoLines(employees: seq<EmployeeReport>, toLocale: Hundredths -> string)
    requires forall e :: e in employees ==> '\n' !in e.name
    requires forall v :: '\n' !in toLocale(v)
    ensures SplitOn(QuotedCsvContent(employees, toLocale), '\n') == QuotedCsvLines(employees, toLocale)
  {
    QuotedHeaderAvoidsNewline();
    QuotedRowLinesAvoidNewline(employees, toLocale);
    ConsAvoids(QuotedHeaderLine(), QuotedRowLines(employees, toLocale), '\n');
    SplitJoin(QuotedCsvLines(employees, toLocale), '\n');
  }

  /** A line and some more lines, none of which holds `c`. */
  lemma ConsAvoids(first: string, rest: seq<string>, c: char)
    requires c !in first
    requires forall j :: 0 <= j < |rest| ==> c !in rest[j]
    ensures forall k :: 0 <= k < 1 + |rest| ==> c !in ([first] + rest)[k]
  {
    forall k | 0 <= k < 1 + |rest| ensures c !in ([first] + rest)[k] {
      if k > 0 {
        assert ([first] + rest)[k] == rest[k - 1];
      }
    }
  }

  lemma QuotedHeaderReadsBack()
    ensures ParseFields(QuotedHeaderLine()) == Some(CsvHeaders)
  {
    ParseQuotedJoin(CsvHeaders);
  }

  /** A quoted employee line reads back as the row's cells. */
  lemma QuotedRowReadsBack(e: EmployeeReport, toLocale: Hundredths -> string)
    ensures ParseFields(QuotedRowLine(e, toLocale)) == Some(CsvRow(e, toLocale))
  {
    ParseQuotedJoin(CsvRow(e, toLocale));
  }

  /** No quoted employee line holds a line break when no name and no locale text does. */
  lemma QuotedRowLinesAvoidNewline(employees: seq<EmployeeReport>, toLocale: Hundredths -> string)
    requires forall e :: e in employees ==> '\n' !in e.name
    requires forall v :: '\n' !in toLocale(v)
    ensures forall j :: 0 <= j < |employees| ==> '\n' !in QuotedRowLines(employees, toLocale)[j]
  {
    forall j | 0 <= j < |employees| ensures '\n' !in QuotedRowLines(employees, toLocale)[j] {
      assert employees[j] in employees;
      QuotedRowAvoidsNewline(employees[j], toLocale);
    }
  }

  lemma QuotedHeaderAvoidsNewline()
    ensures '\n' !in QuotedHeaderLine()
  {
    HeaderCellsAvoidNewline();
    QuotedJoinAvoids(CsvHeaders, '\n');
  }

  lemma QuotedRowAvoidsNewline(e: EmployeeReport, toLocale: Hundredths -> string)
    requires '\n' !in e.name
    requires forall v :: '\n' !in toLocale(v)
    ensures '\n' !in QuotedRowLine(e, toLocale)
  {
    RowAvoidsNewline(e, toLocale);
    QuotedJoinAvoids(CsvRow(e, toLocale), '\n');
  }

  /** No header holds a line break. */
  lemma HeaderCellsAvoidNewline()
    ensures forall j :: 0 <= j < |CsvHeaders| ==> '\n' !in CsvHeaders[j]
  {
    forall j | 0 <= j < |CsvHeaders| ensures '\n' !in CsvHeaders[j] {
    }
  }
}
