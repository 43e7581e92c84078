# EmployeeKPI core, modelled in Dafny

EmployeeKPI is a web application for mortgage loan officers and their managers. This
project models the parts of it that compute or decide something, and proves properties
of the model.

- **Progress** (`progress.dfy`) models the employee KPI-progress endpoint:
  - it answers `null` when the employee has no KPI target for the current year;
  - otherwise it sums the weekly activities of the current year and of the current month;
  - it groups the current month's activities into week-of-month buckets and reports weeks 1 to 4;
  - it builds twelve monthly rows with an activity count each.
- **TargetValidation** (`target_validation.dfy`) models the "Set Targets" dialog:
  - the forms it opens with, and loading a stored target into a form;
  - the twelve checks of "Save All Targets", their order and their messages;
  - the PUT-or-POST choice for each target;
  - the rule that the dialog closes only when both saves succeed.
- **Pipeline** (`pipeline.dfy`) models the loan pipeline board:
  - the six stage columns, their loans and their dollar values;
  - the status-update body, which stamps a lock or close date;
  - the add/edit loan form, including its reset, edit and save-success transitions;
  - the save request, which updates or creates a loan.
- **Reports** (`reports.dfy`) models the admin report:
  - the employees with a target, the total volume goal and the rounded average of units;
  - the data of the five-bar volume chart;
  - the CSV export text.
- **Schema** (`schema.dfy`) models the stored records:
  - their column bounds (32-bit integers, `decimal(p, 2)`) and their column defaults;
  - the one-row-per-employee uniqueness of past clients and top realtors;
  - the absence of any declared key on KPI targets and weekly activities;
  - the `yyyy-MM-dd` text of a date.
- Small supporting modules:
  - `Options` gives an option type;
  - `Seqs` gives `Array.filter` over sequences and permutation helpers;
  - `Text` gives decimal text, padding, `join` and `split`, and `DecimalValue`, a reader of
    decimal text with at most two decimals that the round-trip lemmas use;
  - `Api` gives a request as a verb, a path and a body.

Money and percentages are stored as `decimal(p, 2)` columns, so the model holds the stored
values exactly, as integer hundredths. The target dialog's form fields are exact reals
(`Option<real>`), and `TargetValidation.FromHundredths` turns a loaded target's hundredths into
them; the browser's floating point is not modelled. Dates are `(year, month, day)` triples. The clock is a parameter: the current year
and month, or "today". The browser's `toLocaleString` is also a parameter.

Behaviour of the code as written that the model keeps:
- The second pipeline stage's value is `"pre-qual"`, not `"pre-qualified"`. A loan stored as
  `"pre-qualified"` therefore appears in no column (`Pipeline.UnstagedLoanInNoColumn`).
- The schema declares no unique key on `(employee, year)` for KPI targets. It declares none on
  `(employee, week start)` for weekly activities either, so a second insert with the same key
  stores a second row (`Schema.NoNaturalKeyDeclared`).
- The thank-you-card totals of the progress endpoint read a field that does not exist, so they
  are NaN for any partition with at least one activity, which `res.json` sends as `null`
  (see Findings).
- The weekly breakdown reports weeks 1 to 4 only. Activities whose week starts on day 29 or
  later are in no weekly row, although they do count in the month totals
  (`Progress.MonthEndWeekDropped`, `Progress.FiveWeeksPartitionMonth`).
- The CSV export does not quote its cells, so a volume goal the locale writes with grouping
  commas spills into the next column (see Findings).

## Model

| member | source | states |
|---|---|---|
| Progress.WeekOf | server/routes.ts:367 | `Math.ceil(day / 7)`: the week w satisfies 7(w-1) < day <= 7w. It lies between 1 and 5, and it is 5 exactly from day 29 on |
| Progress.SumTotals | server/routes.ts:333-355 | With no activities every total is 0. The summed counters are counts, so their totals are never below 0 |
| Progress.YearActivities | server/routes.ts:322-326 | `currentYearActivities` holds exactly the stored activities whose week starts in the current year, and no more of them |
| Progress.MonthActivities | server/routes.ts:328-331 | `currentMonthActivities` holds exactly the stored activities whose week starts in the current month of the current year |
| Progress.WeeklyRows | server/routes.ts:388-398 | The weekly breakdown has four rows, numbered 1 to 4 in order |
| Progress.MonthlyRows | server/routes.ts:400-425 | The monthly breakdown has twelve rows, for months 1 to 12 in order. No month counts more activities than the year has |
| Progress.Report | server/routes.ts:316-441 | There is no report exactly when there is no KPI target. A report has 4 weekly and 12 monthly rows, and `activitiesThisMonth` ≤ `activitiesThisYear` ≤ the stored activities |
| Progress.WeeklyBreakdown | server/routes.ts:363-398 | The map-then-push loops produce exactly `WeeklyRows`: one row per week 1..4, holding the totals of that week's activities, or zeros |
| Progress.MonthlyBreakdown | server/routes.ts:400-425 | The loop over months 1..12 produces exactly `MonthlyRows`: each month's totals and activity count over the year's activities |
| Progress.KpiProgress | server/routes.ts:310-441 | The handler's answer is `null` exactly when there is no KPI target, whatever the activities. Otherwise it is the report built from the year filter, the month filter and the breakdowns |
| Progress.SumTotalsSnoc | server/routes.ts:333-343 | The reduce adds the last activity's counters to the totals of the others |
| Progress.SumTotalsAppend | server/routes.ts:333-355 | The totals of two runs of activities are the field-wise sum of their totals |
| Progress.SumTotalsPermutation | server/routes.ts:333-355 | The totals do not depend on the order of the activities |
| Progress.FilterPermutation | server/routes.ts:323-331 | Filtering two arrangements of the same activities yields arrangements of the same activities |
| Progress.MonthActivitiesWithinYear | server/routes.ts:323-331 | The current month's activities are exactly the current year's activities of that month, so there are no more of them |
| Progress.OtherYearsIgnored | server/routes.ts:323-331 | An activity whose week starts in another year leaves the whole report unchanged |
| Progress.ReportOrderIndependent | server/routes.ts:316-441 | The report is the same for any order of the stored activities |
| Progress.WeeklyBreakdownShape | server/routes.ts:388-398 | There are exactly four rows, numbered 1 to 4 in order, and never a week 5. An empty week is all zeros |
| Progress.WeekRowsSum | server/routes.ts:388-398 | The four reported rows sum to buckets 1 to 4 |
| Progress.FiveBucketsSnoc | server/routes.ts:366-386 | One more activity is added to exactly one of the five week buckets |
| Progress.FiveBucketsPartitionMonth | server/routes.ts:366-386 | The five week buckets together hold the month's totals |
| Progress.FiveWeeksPartitionMonth | server/routes.ts:345-398 | The four reported weeks plus the unreported week-5 bucket equal the month totals |
| Progress.WeekFiveIsMonthEnd | server/routes.ts:367 | An activity is in week bucket 5 exactly when its week starts on day 29 or later |
| Progress.WeeksCoverMonth | server/routes.ts:388-398 | When no week starts after day 28, the four reported weeks sum to the month totals |
| Progress.MonthEndWeekDropped | server/routes.ts:366-398 | Any activity of the month whose week starts on day 29 or later is in none of the four reported weeks but in bucket 5. The month totals are the four weekly rows plus bucket 5 |
| Progress.MonthEndMeetingDropped | server/routes.ts:345-398 | Example of `MonthEndWeekDropped`: one meeting in a week starting on the 29th shows in the month totals and in none of the weekly rows |
| Progress.MonthRowForSnoc | server/routes.ts:402-424 | One more activity changes only its own month's row: one more in the count, and its counters added to the totals |
| Progress.AddToOneRow | server/routes.ts:401-425 | Adding an activity to one monthly row adds it once to the sums over all rows |
| Progress.MonthlyBreakdownCoversYear | server/routes.ts:401-425 | The twelve monthly counts sum to the number of the year's activities, and the twelve monthly totals sum to the year totals |
| Progress.CurrentMonthRowMatches | server/routes.ts:401-439 | The current month's monthly row repeats `monthTotals` and `activitiesThisMonth` |
| Progress.MonthlyCountsSumToYear | server/routes.ts:401-439 | The monthly counts sum to `activitiesThisYear`, and the monthly totals sum to `yearTotals` |
| Progress.NoActivitiesAllZero | server/routes.ts:333-439 | With a target and no activities, every total, row and count is zero |
| Progress.ThankYouCardsAsWrittenIsNaN | server/routes.ts:338 | As written, the thank-you-card total is NaN exactly when there is at least one activity. It is then never the true count |
| Progress.ThankYouCardsCounted | shared/schema.ts:78 | The intended total counts each activity's own `thankYouCards` |
| Seqs.Filter | server/routes.ts:323-326 | `Array.filter` keeps at most as many elements as it is given |
| Seqs.FilterAppend | client/src/components/AdminReports.tsx:70 | Filtering a concatenation is the concatenation of the filtered parts: order is kept |
| Seqs.FilterMembership | client/src/components/LoanPipelineBoard.tsx:125 | An element survives the filter exactly when it is in the list and satisfies the predicate |
| Seqs.FilterFilter | server/routes.ts:403-406 | Filtering twice is filtering once by the conjunction |
| TargetValidation.Validate | client/src/components/KPITargetDialog.tsx:136-251 | Forms that are refused fail the reported check, and pass every earlier check. Forms are accepted exactly when they meet all twelve conditions |
| TargetValidation.AcceptsIffNoCheckFails | client/src/components/KPITargetDialog.tsx:144-251 | The chain accepts exactly when no check fails |
| TargetValidation.MessagesDistinct | client/src/components/KPITargetDialog.tsx:144-251 | Two checks never share a toast message, so the message names the failing check |
| TargetValidation.KpiSaveRequestTargets | client/src/components/KPITargetDialog.tsx:90-99 | `KpiSaveRequest` is a PUT to the stored target's own path exactly when a target with a non-empty id was loaded. Otherwise it is a POST to the collection. The body is the form |
| TargetValidation.SalesSaveRequestTargets | client/src/components/KPITargetDialog.tsx:113-122 | `SalesSaveRequest` makes the same choice for the sales target |
| TargetValidation.SaveAllSendsOnlyValid | client/src/components/KPITargetDialog.tsx:136-257 | `HandleSaveAll` sends both requests exactly when every check passes. A rejection carries the first failing check and its message |
| TargetValidation.DialogClosesOnlyWhenAllSaved | client/src/components/KPITargetDialog.tsx:136-261 | After Save All the dialog closes exactly when both forms pass every check and both requests succeed. A form failing any check keeps it open whatever the server answers |
| TargetValidation.InitialKpiFormRejected | client/src/components/KPITargetDialog.tsx:46-56 | Saving the dialog as it opens fails at the first check: the volume goal is empty |
| TargetValidation.InitialSalesFormValid | client/src/components/KPITargetDialog.tsx:58-66 | The opening sales form passes every sales check and equals the column defaults |
| TargetValidation.LockPercentageRange | client/src/components/KPITargetDialog.tsx:140-176 | The lock check admits exactly 0 to 100, both ends included. An empty field reads as 0 and passes |
| TargetValidation.ZeroCounts | client/src/components/KPITargetDialog.tsx:162-251 | Required and locked units pass exactly when present and positive, so 0 is refused like a missing count. Each of the five sales targets passes exactly when present and at least 0, so 0 is accepted |
| TargetValidation.ValidationIgnoresIdentity | client/src/components/KPITargetDialog.tsx:136-251 | Validation does not read the id, the employee or the year |
| TargetValidation.LoadedTargetIsUpdated | client/src/components/KPITargetDialog.tsx:78-99 | A stored target loaded into the form is saved again as a PUT to itself |
| TargetValidation.TargetDialog.constructor | client/src/components/KPITargetDialog.tsx:46-66 | The dialog opens with the initial forms and no stored targets |
| TargetValidation.TargetDialog.ReceiveKpiTarget | client/src/components/KPITargetDialog.tsx:78-82 | A found KPI target replaces the KPI form. A missing one leaves it as it was. The sales state does not change |
| TargetValidation.TargetDialog.ReceiveSalesTarget | client/src/components/KPITargetDialog.tsx:84-88 | A found sales target replaces the sales form. The KPI state does not change |
| TargetValidation.TargetDialog.SaveAll | client/src/components/KPITargetDialog.tsx:136-262 | Saving from the current state is `HandleSaveAll`, and it submits exactly when both forms are acceptable |
| Pipeline.LoansByStage | client/src/components/LoanPipelineBoard.tsx:124-126 | A loan is in a column exactly when it is listed and has that status. A column never has more loans than the list |
| Pipeline.LoansByStageAppend | client/src/components/LoanPipelineBoard.tsx:124-126 | A column keeps the order of the loan list |
| Pipeline.SumAmountsAppend | client/src/components/LoanPipelineBoard.tsx:130 | Amounts add up over consecutive parts of a list |
| Pipeline.SumAmounts | client/src/components/LoanPipelineBoard.tsx:130 | The sum of amounts none of which is negative is not negative |
| Pipeline.StageValue | client/src/components/LoanPipelineBoard.tsx:128-131 | A stage whose loans have no negative amount is worth at least 0 |
| Pipeline.StageValueAppend | client/src/components/LoanPipelineBoard.tsx:128-131 | A stage's value is the sum of its values over two parts of the list |
| Pipeline.EmptyStageValue | client/src/components/LoanPipelineBoard.tsx:128-131 | A stage without loans has no loans listed and is worth 0 |
| Pipeline.StagesDistinct | client/src/components/LoanPipelineBoard.tsx:16-23 | There are six stage values, and no two are equal |
| Pipeline.AtMostOneColumn | client/src/components/LoanPipelineBoard.tsx:251-253 | A loan shows in at most one column |
| Pipeline.UnstagedLoanInNoColumn | client/src/components/LoanPipelineBoard.tsx:16-23 | A loan whose status is not a stage value, such as "pre-qualified", shows in no column |
| Pipeline.ColumnCountsSnoc | client/src/components/LoanPipelineBoard.tsx:251-259 | One more loan adds one to the column counts exactly when its status is a stage |
| Pipeline.ColumnCountsAreStagedLoans | client/src/components/LoanPipelineBoard.tsx:251-259 | For distinct stages, the column counts sum to the number of loans that have one of those stages |
| Pipeline.StageCountsSum | client/src/components/LoanPipelineBoard.tsx:251-259 | The six badge counts sum to the number of loans that have a stage status |
| Pipeline.ColumnCounts | client/src/components/LoanPipelineBoard.tsx:251-259 | The badge counts sum to 0 exactly when every column is empty |
| Pipeline.StatusUpdatePayload | client/src/components/LoanPipelineBoard.tsx:78-84 | The body has the status. It stamps today as `lockedDate` exactly for "locked" and as `closedDate` exactly for "closed", never both. The stamped text reads back as today |
| Pipeline.StatusUpdateRequest | client/src/components/LoanPipelineBoard.tsx:76-86 | A status change is a PUT to the loan's own path, and it carries a date exactly for "locked" or "closed" |
| Pipeline.EditFormOf | client/src/components/LoanPipelineBoard.tsx:109-116 | Missing loan fields fall back to the empty form's defaults. Present borrower name, referral source, type and status are copied unchanged, and the amount is the stored decimal's text |
| Pipeline.EditFormDateRoundTrip | client/src/components/LoanPipelineBoard.tsx:114 | The edit form's close date reads back as the loan's date. It is empty when the loan has none |
| Pipeline.NewLoanStartsAsLead | shared/schema.ts:128 | A loan created with no status opens in the first ("lead") column |
| Pipeline.LoanPipelineState.constructor | client/src/components/LoanPipelineBoard.tsx:28-47 | The board opens with the empty form, nothing being edited and the dialog closed |
| Pipeline.LoanPipelineState.ResetForm | client/src/components/LoanPipelineBoard.tsx:96-105 | The form is back to the empty "purchase"/"lead" form. Nothing else changes |
| Pipeline.LoanPipelineState.AddLoan | client/src/components/LoanPipelineBoard.tsx:154-159 | "Add Loan" forgets the edited loan, clears the form and opens the dialog |
| Pipeline.LoanPipelineState.HandleEdit | client/src/components/LoanPipelineBoard.tsx:107-118 | Editing remembers the loan, fills the form from it and opens the dialog |
| Pipeline.LoanPipelineState.SaveRequest | client/src/components/LoanPipelineBoard.tsx:49-56 | The save is a PUT to the edited loan's path exactly when a loan is being edited, and a POST to the collection otherwise. The body is the form |
| Pipeline.LoanPipelineState.OnSaveSuccess | client/src/components/LoanPipelineBoard.tsx:57-66 | A successful save closes the dialog, forgets the loan and clears the form. The toast says "updated" when a loan was being edited and "added" otherwise |
| Api.PathIdOfItem | client/src/components/LoanPipelineBoard.tsx:52 | An item path `collection/id` names exactly that id, and the collection path names none |
| Reports.EmployeesWithTargets | client/src/components/AdminReports.tsx:70 | The filter never adds employees |
| Reports.EmployeesWithTargetsExact | client/src/components/AdminReports.tsx:70 | An employee is counted exactly when it is listed and has a KPI target. Order is kept |
| Reports.SumsOverTargetsOnly | client/src/components/AdminReports.tsx:71-79 | Employees without a target add nothing to the goal and unit sums |
| Reports.TotalVolumeGoalOverAll | client/src/components/AdminReports.tsx:71-74 | The total counts every target's goal once, and it is 0 when nobody has a target |
| Reports.TotalVolumeGoal | client/src/components/AdminReports.tsx:70-74 | The total goal over the employees with a target equals the sum over all employees: those without one add nothing |
| Reports.AvgUnitsTarget | client/src/components/AdminReports.tsx:76-81 | When no unit count is negative the average is not negative, including the 0 given without targets |
| Reports.SumUnitsNonNegative | client/src/components/AdminReports.tsx:78 | Unit counts that are not negative sum to a value that is not negative |
| Reports.RoundedMean | client/src/components/AdminReports.tsx:77-80 | `Math.round(total / n)` is the integer r with r − ½ ≤ total/n < r + ½, so halves round up |
| Reports.AvgUnitsTargetIsRoundedMean | client/src/components/AdminReports.tsx:76-81 | The average is 0 without targets. Otherwise it lies within one half of the exact mean units over the employees with targets |
| Reports.UniformUnits | client/src/components/AdminReports.tsx:78 | n equal unit counts sum to n times the count |
| Reports.RoundedMeanOfMultiple | client/src/components/AdminReports.tsx:77-80 | The rounded mean of n equal values is that value |
| Reports.AvgOfUniformUnits | client/src/components/AdminReports.tsx:76-81 | When every employee with a target asks for the same units, that number is the average |
| Reports.VolumeByEmployeeShape | client/src/components/AdminReports.tsx:84-88 | `VolumeByEmployee` has at most five bars: the first five employees with a target, in order, under their first names. Value and target both show the goal in millions |
| Reports.ShortDecimalText | client/src/components/AdminReports.tsx:41 | The lock cell's number text is made only of digits, '-' and '.' |
| Reports.ShortDecimalTextValue | client/src/components/AdminReports.tsx:41 | The lock cell's number reads back, with `Text.DecimalValue`, as exactly the stored percentage |
| Reports.ShortDecimalTextPoint | client/src/components/AdminReports.tsx:41 | The number has a decimal point exactly when the percentage is not whole, and then its last digit is not '0', as `String(parseFloat(...))` writes it |
| Reports.ShortDecimalTextWhole | client/src/components/AdminReports.tsx:41 | A whole percentage is written without a decimal point |
| Reports.CountCellNotNA | client/src/components/AdminReports.tsx:40-42 | A count cell is "N/A" exactly when the count is 0 |
| Reports.CsvLines | client/src/components/AdminReports.tsx:47-50 | The export has one header line plus one line per employee |
| Reports.CsvRowCells | client/src/components/AdminReports.tsx:27-45 | A `CsvRow` has one cell per header (seven). Its target cells are "N/A" exactly without a target, and its count cells also when the count is 0. The last cell is "Yes" or "No" |
| Reports.CsvReadsBack | client/src/components/AdminReports.tsx:47-50 | When no cell holds a line break, splitting `CsvContent` at line breaks gives back the header line and each employee's line. When a row's cells hold no comma, splitting that line at commas gives back its cells |
| Reports.RowAvoidsNewline | client/src/components/AdminReports.tsx:37-45 | The cells the export writes itself hold no line break |
| Reports.HeaderAvoidsNewline | client/src/components/AdminReports.tsx:27-35 | The header line holds no line break |
| Reports.LinesAvoidNewline | client/src/components/AdminReports.tsx:47-50 | No line of the export holds a line break when no name and no locale text does |
| Reports.GroupedGoalBreaksRow | client/src/components/AdminReports.tsx:37-50 | As written, a volume goal whose locale text holds a comma makes its line split into more than seven fields, so the line no longer reads back as its row |
| Reports.QuotedCsvReadsBack | client/src/components/AdminReports.tsx:47-50 | With every cell quoted, the export splits into its header line and one line per employee, and each line reads back as exactly its seven cells, whatever commas or quotes they hold |
| Reports.QuotedRowReadsBack | client/src/components/AdminReports.tsx:37-50 | A quoted employee line reads back as that employee's cells |
| Csv.SplitCount | client/src/components/AdminReports.tsx:47-50 | Splitting at a separator gives one piece more than the separators in the text |
| Csv.JoinCount | client/src/components/AdminReports.tsx:47-50 | Joining n cells adds n − 1 separators, and a separator inside a cell adds to them |
| Csv.UnquoteEscape | client/src/components/AdminReports.tsx:47-50 | The inside of a quoted cell reads back as the cell and leaves the text after its closing quote |
| Csv.ParseQuotedJoin | client/src/components/AdminReports.tsx:47-50 | Cells quoted and joined with commas read back as exactly those cells |
| Text.NatTextValue | client/src/components/AdminReports.tsx:43 | The decimal text of a count reads back as the count |
| Text.NatTextLength | client/src/components/LoanPipelineBoard.tsx:80 | A number below 10^k has at most k digits, so `yyyy`, `MM` and `dd` fields take their width from padding |
| Text.PadLeftValue | client/src/components/LoanPipelineBoard.tsx:80 | Zero padding does not change a number's value |
| Text.SplitJoin | client/src/components/AdminReports.tsx:47-50 | Joining strings that hold no separator and splitting the result gives the strings back |
| Text.FirstWord | client/src/components/AdminReports.tsx:85 | The first name is a prefix of the name, holds no space, and is followed by a space when shorter than the name |
| Text.FirstWordIsFirstPiece | client/src/components/AdminReports.tsx:85 | The first name is the first piece of `split(" ")` |
| Schema.DateTextRoundTrip | client/src/components/LoanPipelineBoard.tsx:80 | The `yyyy-MM-dd` text of a date with a four-digit year parses back as that date |
| Schema.DecimalText | shared/schema.ts:126 | The text of a `decimal(p, 2)` has at least four characters, so a loan amount is never the empty string |
| Schema.DecimalTextValue | shared/schema.ts:126 | The text of a `decimal(p, 2)` reads back, with `Text.DecimalValue`, as exactly the stored value |
| Schema.WeeklyActivityDefaults | shared/schema.ts:69-82 | `CreateWeeklyActivity` of an insert without counters stores zero in each counter and `"0"` hours |
| Schema.HoursProspectedBound | shared/schema.ts:77 | `decimal(5, 2)` hours lie strictly between −1000 and 1000. 999.99 fits and 1000.00 does not |
| Schema.LockPercentageStorageRange | shared/schema.ts:30 | The column admits −999.99..999.99, so the 0..100 rule is not a storage rule |
| Schema.SalesTargetDefaults | shared/schema.ts:51-55 | `CreateSalesTarget` of an insert without targets stores 52, 240, 365, 365 and 365 |
| Schema.LoanDefaults | shared/schema.ts:127-128 | `CreateLoan` of an insert without type or status stores a "purchase" "lead", and keeps the amount and the dates |
| Schema.InsertUniqueKeepsKeysUnique | shared/schema.ts:94 | An insert into a unique column is refused exactly when the key is taken. Otherwise it appends the row and keeps the keys unique |
| Schema.InsertAppend | shared/schema.ts:69-82 | An insert into a table with no unique key, such as `weekly_activities` or `employee_kpi_targets` (lines 23-36), keeps every existing row and stores the new row after them |
| Schema.PastClientsOnePerEmployee | shared/schema.ts:92-97 | `past_clients` keeps at most one row per employee |
| Schema.TopRealtorsOnePerEmployee | shared/schema.ts:107-112 | `top_realtors` keeps at most one row per employee |
| Schema.NoNaturalKeyDeclared | shared/schema.ts:23-36 | Inserting a second KPI target with the same (employee, year), or a second weekly activity (lines 69-82) with the same (employee, week start), stores both rows, so the key is no longer unique. A unique column would have refused that second insert |
| Schema.RealtorPartnerDefaults | shared/schema.ts:200-201 | `CreateRealtorPartner` of an insert without strength or referral count stores a "new" relationship with 0 loans referred |

## Left out

- Authentication, the other CRUD routes and the storage layer are left out. Storage is
  modelled only as the records it returns and the defaults and keys of its tables.
- The loan metrics of the progress endpoint (`volumeCompleted`, `unitsThisMonth`,
  `lockedLoansThisMonth`) are left out. They are fixed fractions of the target, standing in
  for a loan system the code does not have.
- JavaScript `Date` parsing and time zones are not modelled. An activity's week-start date is
  taken as the `(year, month, day)` stored in the column, and "now" is a parameter.
- `parseFloat` of malformed text (NaN) is not modelled; form fields hold numbers or nothing.
- `TargetValidation.Validate`: the model has no case for a NaN field. The source's
  comparisons let NaN through every decimal check; this is not captured.
- The CSV `Blob` download and the locale-dependent `toLocaleString` are left out. The
  locale is a parameter of `Reports.CsvRow`.
- Floating-point rounding of sums is not modelled. Sums of `decimal(p, 2)` values are exact
  in hundredths.
- `Reports.RoundedMean`: stated over integers, with unit counts as integers, not over
  floating-point division followed by `Math.round`.
- The form `onChange` handlers and the rest of the UI rendering are left out.
- The `|| "0"` fallback on a loan's amount is never taken: the column is not null, and
  its text is never empty (`Schema.DecimalText`).
- Error toasts, request failures and the network are left out. A request's success is a
  boolean parameter of `TargetValidation.DialogCloses`.
- Weekly activity counters are `nat`, so the model excludes the negative counters that the
  Postgres `integer` columns (shared/schema.ts:74-79) would accept.
- Postgres 32-bit overflow on insert is not modelled. `Schema.FitsInteger` and
  `Schema.FitsDecimal` state the column bounds, but no operation enforces them.

## Findings

| source | as written | input that shows it | evidently intended | confidence | as-written member | corrected member |
|---|---|---|---|---|---|---|
| client/src/components/AdminReports.tsx:39, 47-50 | Cells are joined with "," and never quoted, yet the volume goal cell is `toLocaleString()` output | A locale with grouping separators writes the goal 100000000 as "100,000,000", so the line splits into more than seven fields | Quote each cell (section 2 of RFC 4180) so that every line reads back as its seven cells | medium; not executed | Reports.GroupedGoalBreaksRow | Reports.QuotedCsvReadsBack |
| server/routes.ts:338, 350, 383, 413 | The thank-you-card totals add `activity.thankyouCards`, a field the record does not have (its column is `thankYouCards`, shared/schema.ts:78). `0 + undefined` is NaN | Any employee with a target and one weekly activity: `yearTotals.thankyouCards` is NaN | Sum each activity's `thankYouCards` | high; not executed | Progress.ThankYouCardsAsWrittenIsNaN | Progress.ThankYouCardsCounted |

The rest of the model uses the corrected sum: `Progress.SumTotals` adds each activity's
`thankYouCards`. The export keeps the unquoted `Reports.CsvContent` as written, and
`Reports.QuotedCsvContent` is the corrected export.
