/** The "Set Targets" dialog of client/src/components/KPITargetDialog.tsx: the KPI and
    sales target forms, the validation chain of "Save All Targets" with its first-error
    toast, and the choice between updating the stored targets (PUT) and creating them
    (POST). Text fields have already been read as numbers: an empty field is `None`,
    which the handler reads as "0". */
module TargetValidation {
  import opened Options
  import opened Schema
  import opened Api

  /** The KPI form (`Partial<KPITarget>`). The five decimal fields are text inputs;
      the two unit counts are numbers, `None` when undefined. */
  datatype KpiForm = KpiForm(
    id: Option<string>,
    employeeId: string,
    year: int,
    annualVolumeGoal: Option<real>,
    avgLoanAmount: Option<real>,
    requiredUnitsMonthly: Option<int>,
    lockPercentage: Option<real>,
    lockedLoansMonthly: Option<int>,
    newFileToLockedPercentage: Option<real>,
    newFilesMonthly: Option<real>)

  /** The sales form (`Partial<SalesTarget>`); a target is `None` when undefined or null. */
  datatype SalesForm = SalesForm(
    id: Option<string>,
    employeeId: string,
    year: int,
    eventsTarget: Option<int>,
    meetingsTarget: Option<int>,
    thankyouTarget: Option<int>,
    prospectingTarget: Option<int>,
    videosTarget: Option<int>)

  /** The KPI form the dialog opens with: empty decimal fields and zero unit counts. */
  function InitialKpiForm(employeeId: string, currentYear: int): KpiForm {
    KpiForm(None, employeeId, currentYear, None, None, Some(0), None, Some(0), None, None)
  }

  /** The sales form the dialog opens with. */
  function InitialSalesForm(employeeId: string, currentYear: int): SalesForm {
    SalesForm(None, employeeId, currentYear, Some(52), Some(240), Some(365), Some(365), Some(365))
  }

  /** A stored decimal, in hundredths, as the number the form field holds. */
  function FromHundredths(v: Hundredths): real {
    v as real / 100.0
  }

  /** The KPI form filled from the stored target (`setKpiData(existingKpiData.target)`). */
  function KpiFormOf(t: KpiTarget): KpiForm {
    KpiForm(Some(t.id), t.employeeId, t.year,
      Some(FromHundredths(t.annualVolumeGoal)), Some(FromHundredths(t.avgLoanAmount)),
      Some(t.requiredUnitsMonthly), Some(FromHundredths(t.lockPercentage)),
      Some(t.lockedLoansMonthly), Some(FromHundredths(t.newFileToLockedPercentage)),
      Some(FromHundredths(t.newFilesMonthly)))
  }

  /** The sales form filled from the stored target. */
  function SalesFormOf(t: SalesTarget): SalesForm {
    SalesForm(Some(t.id), t.employeeId, t.year, Some(t.eventsTarget), Some(t.meetingsTarget),
      Some(t.thankyouTarget), Some(t.prospectingTarget), Some(t.videosTarget))
  }

  // ---------------------------------------------------------------- validation

  /** The checks of handleSaveAll, in the order it makes them. */
  datatype ValidationError =
    | VolumeGoalNotPositive
    | AvgLoanNotPositive
    | UnitsNotPositive
    | LockPercentageOutOfRange
    | LockedLoansNotPositive
    | NewFilePercentageOutOfRange
    | NewFilesNegative
    | EventsTargetInvalid
    | MeetingsTargetInvalid
    | ThankYouTargetInvalid
    | ProspectingTargetInvalid
    | VideosTargetInvalid

  /** The position of a check in the chain. */
  function Rank(e: ValidationError): nat {
    match e
    case VolumeGoalNotPositive => 0
    case AvgLoanNotPositive => 1
    case UnitsNotPositive => 2
    case LockPercentageOutOfRange => 3
    case LockedLoansNotPositive => 4
    case NewFilePercentageOutOfRange => 5
    case NewFilesNegative => 6
    case EventsTargetInvalid => 7
    case MeetingsTargetInvalid => 8
    case ThankYouTargetInvalid => 9
    case ProspectingTargetInvalid => 10
    case VideosTargetInvalid => 11
  }

  /** The field a check is about, as its message names it. */
  function Subject(e: ValidationError): string {
    match e
    case VolumeGoalNotPositive => "Annual volume goal"
    case AvgLoanNotPositive => "Average loan amount"
    case UnitsNotPositive => "Required units monthly"
    case LockPercentageOutOfRange => "Lock percentage"
    case LockedLoansNotPositive => "Locked loans monthly"
    case NewFilePercentageOutOfRange => "New file to locked percentage"
    case NewFilesNegative => "New files monthly"
    case EventsTargetInvalid => "Events target"
    case MeetingsTargetInvalid => "Meetings target"
    case ThankYouTargetInvalid => "Thank you cards target"
    case ProspectingTargetInvalid => "Prospecting target"
    case VideosTargetInvalid => "Videos target"
  }

  /** What a check demands of its field. */
  function Demand(e: ValidationError): string {
    match e
    case VolumeGoalNotPositive | AvgLoanNotPositive | UnitsNotPositive | LockedLoansNotPositive =>
      " must be greater than 0"
    case LockPercentageOutOfRange | NewFilePercentageOutOfRange => " must be between 0 and 100"
    case NewFilesNegative => " cannot be negative"
    case EventsTargetInvalid | MeetingsTargetInvalid | ThankYouTargetInvalid
       | ProspectingTargetInvalid | VideosTargetInvalid => " must be 0 or greater"
  }

  /** The description of the "Validation Error" toast for each check: the field, then
      what it must be ("Annual volume goal must be greater than 0"). */
  function Message(e: ValidationError): string {
    Subject(e) + Demand(e)
  }

  /** `parseFloat(field || "0")`: an empty field reads as 0. */
  function NumberOrZero(field: Option<real>): real {
    field.GetOr(0.0)
  }

  /** `!n || n <= 0`: undefined, 0 and negative counts are all refused. */
  predicate NotPositiveCount(n: Option<int>) {
    n.None? || n.value <= 0
  }

  /** `n === undefined || n === null || n < 0`: 0 is allowed. */
  predicate MissingOrNegative(n: Option<int>) {
    n.None? || n.value < 0
  }

  /** Whether the forms fail check `e`. */
  predicate Fails(e: ValidationError, kpi: KpiForm, sales: SalesForm) {
    match e
    case VolumeGoalNotPositive => NumberOrZero(kpi.annualVolumeGoal) <= 0.0
    case AvgLoanNotPositive => NumberOrZero(kpi.avgLoanAmount) <= 0.0
    case UnitsNotPositive => NotPositiveCount(kpi.requiredUnitsMonthly)
    case LockPercentageOutOfRange =>
      NumberOrZero(kpi.lockPercentage) < 0.0 || NumberOrZero(kpi.lockPercentage) > 100.0
    case LockedLoansNotPositive => NotPositiveCount(kpi.lockedLoansMonthly)
    case NewFilePercentageOutOfRange =>
      NumberOrZero(kpi.newFileToLockedPercentage) < 0.0 || NumberOrZero(kpi.newFileToLockedPercentage) > 100.0
    case NewFilesNegative => NumberOrZero(kpi.newFilesMonthly) < 0.0
    case EventsTargetInvalid => MissingOrNegative(sales.eventsTarget)
    case MeetingsTargetInvalid => MissingOrNegative(sales.meetingsTarget)
    case ThankYouTargetInvalid => MissingOrNegative(sales.thankyouTarget)
    case ProspectingTargetInvalid => MissingOrNegative(sales.prospectingTarget)
    case VideosTargetInvalid => MissingOrNegative(sales.videosTarget)
  }

  /** The forms the dialog submits, stated field by field: positive volume goal and
      average loan, at least one required and one locked unit, both percentages within
      0 to 100 inclusive, no negative new files, and every sales target present and
      not negative. */
  predicate Accepts(kpi: KpiForm, sales: SalesForm) {
    NumberOrZero(kpi.annualVolumeGoal) > 0.0
    && NumberOrZero(kpi.avgLoanAmount) > 0.0
    && kpi.requiredUnitsMonthly.Some? && kpi.requiredUnitsMonthly.value >= 1
    && 0.0 <= NumberOrZero(kpi.lockPercentage) <= 100.0
    && kpi.lockedLoansMonthly.Some? && kpi.lockedLoansMonthly.value >= 1
    && 0.0 <= NumberOrZero(kpi.newFileToLockedPercentage) <= 100.0
    && NumberOrZero(kpi.newFilesMonthly) >= 0.0
    && sales.eventsTarget.Some? && sales.eventsTarget.value >= 0
    && sales.meetingsTarget.Some? && sales.meetingsTarget.value >= 0
    && sales.thankyouTarget.Some? && sales.thankyouTarget.value >= 0
    && sales.prospectingTarget.Some? && sales.prospectingTarget.value >= 0
    && sales.videosTarget.Some? && sales.videosTarget.value >= 0
  }

  /** The validation chain of handleSaveAll: the first check that fails, if any. */
  function Validate(kpi: KpiForm, sales: SalesForm): (r: Option<ValidationError>)
    ensures r.Some? ==> Fails(r.value, kpi, sales)
    ensures r.None? <==> Accepts(kpi, sales)
    ensures r.Some? ==> forall e :: Rank(e) < Rank(r.value) ==> !Fails(e, kpi, sales)
  {
    var volumeGoal := NumberOrZero(kpi.annualVolumeGoal);
    var avgLoan := NumberOrZero(kpi.avgLoanAmount);
    var lockPct := NumberOrZero(kpi.lockPercentage);
    var newFilePct := NumberOrZero(kpi.newFileToLockedPercentage);
    var newFilesMonthly := NumberOrZero(kpi.newFilesMonthly);
    if volumeGoal <= 0.0 then Some(VolumeGoalNotPositive)
    else if avgLoan <= 0.0 then Some(AvgLoanNotPositive)
    else if kpi.requiredUnitsMonthly.None? || kpi.requiredUnitsMonthly.value <= 0 then Some(UnitsNotPositive)
    else if lockPct < 0.0 || lockPct > 100.0 then Some(LockPercentageOutOfRange)
    else if kpi.lockedLoansMonthly.None? || kpi.lockedLoansMonthly.value <= 0 then Some(LockedLoansNotPositive)
    else if newFilePct < 0.0 || newFilePct > 100.0 then Some(NewFilePercentageOutOfRange)
    else if newFilesMonthly < 0.0 then Some(NewFilesNegative)
    else if sales.eventsTarget.None? || sales.eventsTarget.value < 0 then Some(EventsTargetInvalid)
    else if sales.meetingsTarget.None? || sales.meetingsTarget.value < 0 then Some(MeetingsTargetInvalid)
    else if sales.thankyouTarget.None? || sales.thankyouTarget.value < 0 then Some(ThankYouTargetInvalid)
    else if sales.prospectingTarget.None? || sales.prospectingTarget.value < 0 then Some(ProspectingTargetInvalid)
    else if sales.videosTarget.None? || sales.videosTarget.value < 0 then Some(VideosTargetInvalid)
    else None
  }

  /** The forms pass the chain exactly when they fail none of its checks. */
  lemma AcceptsIffNoCheckFails(kpi: KpiForm, sales: SalesForm)
    ensures Validate(kpi, sales).None? <==> forall e :: !Fails(e, kpi, sales)
  {
    var r := Validate(kpi, sales);
    if r.Some? {
      assert Fails(r.value, kpi, sales);
    }
  }

  /** The first letter and the length of each message, which already tell them apart
      (the messages of 45 and 55 letters by their length alone). */
  function MessageKey(e: ValidationError): (char, nat) {
    match e
    case VolumeGoalNotPositive => ('A', 41)
    case AvgLoanNotPositive => ('A', 42)
    case UnitsNotPositive => ('R', 45)
    case LockPercentageOutOfRange => ('L', 41)
    case LockedLoansNotPositive => ('L', 43)
    case NewFilePercentageOutOfRange => ('N', 55)
    case NewFilesNegative => ('N', 36)
    case EventsTargetInvalid => ('E', 34)
    case MeetingsTargetInvalid => ('M', 36)
    case ThankYouTargetInvalid => ('T', 43)
    case ProspectingTargetInvalid => ('P', 39)
    case VideosTargetInvalid => ('V', 34)
  }

  lemma MessageHasKey(e: ValidationError)
    ensures |Message(e)| == MessageKey(e).1
    ensures Message(e)[0] == MessageKey(e).0
  {
    assert Message(e)[0] == Subject(e)[0];
  }

  /** Two checks never share a message, so the toast names the check that failed. */
  lemma MessagesDistinct(e1: ValidationError, e2: ValidationError)
    ensures Message(e1) == Message(e2) <==> e1 == e2
  {
    if e1 != e2 {
      KeysDistinct(e1, e2);
      MessageHasKey(e1);
      MessageHasKey(e2);
      var m1, m2 := Message(e1), Message(e2);
      assert |m1| != |m2| || m1[0] != m2[0];
    }
  }

  lemma KeysDistinct(e1: ValidationError, e2: ValidationError)
    requires e1 != e2
    ensures MessageKey(e1) != MessageKey(e2)
  {
  }

  // ---------------------------------------------------------------- requests

  const KpiTargetsPath: string := "/api/admin/kpi-targets"
  const SalesTargetsPath: string := "/api/admin/sales-targets"

  /** An id as a JavaScript condition sees it: absent or empty is false. */
  predicate Truthy(id: Option<string>) {
    id.Some? && id.value != ""
  }

  /** saveKpiMutation: PUT to the stored target's path when the query returned a target
      with an id, else POST to the collection. The body is the form as it stands. */
  function KpiSaveRequest(existing: Option<KpiTarget>, data: KpiForm): Request<KpiForm> {
    if existing.Some? && existing.value.id != "" then Request(Put, KpiTargetsPath + "/" + existing.value.id, data)
    else Request(Post, KpiTargetsPath, data)
  }

  /** saveSalesMutation, the same choice for the sales target. */
  function SalesSaveRequest(existing: Option<SalesTarget>, data: SalesForm): Request<SalesForm> {
    if existing.Some? && existing.value.id != "" then Request(Put, SalesTargetsPath + "/" + existing.value.id, data)
    else Request(Post, SalesTargetsPath, data)
  }

  /** The KPI request updates exactly when a stored target with an id was found, and then
      names that id; it always carries the form unchanged. */
  lemma KpiSaveRequestTargets(existing: Option<KpiTarget>, data: KpiForm)
    ensures var r := KpiSaveRequest(existing, data);
            (r.verb == Put <==> existing.Some? && Truthy(Some(existing.value.id)))
            && (r.verb == Put ==> PathId(KpiTargetsPath, r.path) == Some(existing.value.id))
            && (r.verb == Post ==> r.path == KpiTargetsPath && PathId(KpiTargetsPath, r.path).None?)
            && r.body == data
  {
    var r := KpiSaveRequest(existing, data);
    if r.verb == Put {
      PathIdOfItem(KpiTargetsPath, existing.value.id);
    } else {
      PathIdOfItem(KpiTargetsPath, "x");
    }
  }

  /** The same for the sales request. */
  lemma SalesSaveRequestTargets(existing: Option<SalesTarget>, data: SalesForm)
    ensures var r := SalesSaveRequest(existing, data);
            (r.verb == Put <==> existing.Some? && Truthy(Some(existing.value.id)))
            && (r.verb == Put ==> PathId(SalesTargetsPath, r.path) == Some(existing.value.id))
            && (r.verb == Post ==> r.path == SalesTargetsPath && PathId(SalesTargetsPath, r.path).None?)
            && r.body == data
  {
    var r := SalesSaveRequest(existing, data);
    if r.verb == Put {
      PathIdOfItem(SalesTargetsPath, existing.value.id);
    } else {
      PathIdOfItem(SalesTargetsPath, "x");
    }
  }

  /** What "Save All Targets" does: a validation toast and nothing sent, or both
      requests sent together. */
  datatype SaveOutcome =
    | Rejected(error: ValidationError, description: string)
    | Submitted(kpiRequest: Request<KpiForm>, salesRequest: Request<SalesForm>)

  function HandleSaveAll(kpi: KpiForm, sales: SalesForm, existingKpi: Option<KpiTarget>,
                         existingSales: Option<SalesTarget>): SaveOutcome
  {
    match Validate(kpi, sales)
    case Some(e) => Rejected(e, Message(e))
    case None => Submitted(KpiSaveRequest(existingKpi, kpi), SalesSaveRequest(existingSales, sales))
  }

  /** Nothing is sent unless both forms pass every check; a rejection reports the first
      failing check's message; an accepted save sends both forms. */
  lemma SaveAllSendsOnlyValid(kpi: KpiForm, sales: SalesForm, existingKpi: Option<KpiTarget>,
                              existingSales: Option<SalesTarget>)
    ensures var o := HandleSaveAll(kpi, sales, existingKpi, existingSales);
            (o.Submitted? <==> Accepts(kpi, sales))
            && (o.Rejected? ==> Fails(o.error, kpi, sales) && o.description == Message(o.error)
                                && forall e :: Rank(e) < Rank(o.error) ==> !Fails(e, kpi, sales))
            && (o.Submitted? ==> o.kpiRequest.body == kpi && o.salesRequest.body == sales)
  {
  }

  /** Promise.all: the dialog closes only when the save was submitted and both requests
      succeeded; a failure leaves it open (its toast comes from the mutation). */
  function DialogCloses(o: SaveOutcome, kpiSucceeded: bool, salesSucceeded: bool): bool {
    o.Submitted? && kpiSucceeded && salesSucceeded
  }

  /** The dialog closes after Save All exactly when both forms pass every check and both
      requests succeed; a form that fails any check keeps it open whatever the server says. */
  lemma DialogClosesOnlyWhenAllSaved(kpi: KpiForm, sales: SalesForm, existingKpi: Option<KpiTarget>,
                                     existingSales: Option<SalesTarget>, kpiSucceeded: bool, salesSucceeded: bool)
    ensures DialogCloses(HandleSaveAll(kpi, sales, existingKpi, existingSales), kpiSucceeded, salesSucceeded)
            <==> Accepts(kpi, sales) && kpiSucceeded && salesSucceeded
    ensures (exists e :: Fails(e, kpi, sales))
            ==> !DialogCloses(HandleSaveAll(kpi, sales, existingKpi, existingSales), kpiSucceeded, salesSucceeded)
  {
    SaveAllSendsOnlyValid(kpi, sales, existingKpi, existingSales);
    AcceptsIffNoCheckFails(kpi, sales);
  }

  // ---------------------------------------------------------------- checks in detail

  /** Saving the dialog as it opens fails at the first check: the volume goal is empty. */
  lemma InitialKpiFormRejected(employeeId: string, currentYear: int, sales: SalesForm)
    ensures Validate(InitialKpiForm(employeeId, currentYear), sales) == Some(VolumeGoalNotPositive)
  {
  }

  /** The opening sales form passes every sales check and agrees with the defaults the
      table applies to omitted sales targets. */
  lemma InitialSalesFormValid(employeeId: string, currentYear: int, kpi: KpiForm)
    ensures forall e :: Rank(e) >= 7 ==> !Fails(e, kpi, InitialSalesForm(employeeId, currentYear))
    ensures var f := InitialSalesForm(employeeId, currentYear);
            var d := CreateSalesTarget("", SalesTargetInsert(employeeId, currentYear, None, None, None, None, None));
            f.eventsTarget == Some(d.eventsTarget) && f.meetingsTarget == Some(d.meetingsTarget)
            && f.thankyouTarget == Some(d.thankyouTarget) && f.prospectingTarget == Some(d.prospectingTarget)
            && f.videosTarget == Some(d.videosTarget)
  {
  }

  /** The lock-percentage check admits exactly 0 to 100, both ends included; an empty
      field reads as 0 and passes. */
  lemma LockPercentageRange(kpi: KpiForm, sales: SalesForm)
    ensures !Fails(LockPercentageOutOfRange, kpi, sales) <==> 0.0 <= NumberOrZero(kpi.lockPercentage) <= 100.0
    ensures kpi.lockPercentage.None? ==> !Fails(LockPercentageOutOfRange, kpi, sales)
  {
  }

  /** The two KPI counts refuse 0 and an undefined count alike, and accept exactly the
      positive counts; the five sales targets accept 0 and refuse an undefined or negative
      target. */
  lemma ZeroCounts(kpi: KpiForm, sales: SalesForm)
    ensures !Fails(UnitsNotPositive, kpi, sales)
            <==> kpi.requiredUnitsMonthly.Some? && kpi.requiredUnitsMonthly.value > 0
    ensures !Fails(LockedLoansNotPositive, kpi, sales)
            <==> kpi.lockedLoansMonthly.Some? && kpi.lockedLoansMonthly.value > 0
    ensures kpi.requiredUnitsMonthly == Some(0) ==> Fails(UnitsNotPositive, kpi, sales)
    ensures kpi.lockedLoansMonthly == Some(0) ==> Fails(LockedLoansNotPositive, kpi, sales)
    ensures !Fails(EventsTargetInvalid, kpi, sales) <==> sales.eventsTarget.Some? && sales.eventsTarget.value >= 0
    ensures !Fails(MeetingsTargetInvalid, kpi, sales) <==> sales.meetingsTarget.Some? && sales.meetingsTarget.value >= 0
    ensures !Fails(ThankYouTargetInvalid, kpi, sales) <==> sales.thankyouTarget.Some? && sales.thankyouTarget.value >= 0
    ensures !Fails(ProspectingTargetInvalid, kpi, sales)
            <==> sales.prospectingTarget.Some? && sales.prospectingTarget.value >= 0
    ensures !Fails(VideosTargetInvalid, kpi, sales) <==> sales.videosTarget.Some? && sales.videosTarget.value >= 0
  {
  }

  /** The checks read only the numbers and counts: the id, employee and year of the
      forms never make a save fail. */
  lemma ValidationIgnoresIdentity(kpi: KpiForm, sales: SalesForm, id: Option<string>, employeeId: string, year: int)
    ensures Validate(kpi.(id := id, employeeId := employeeId, year := year),
                     sales.(id := id, employeeId := employeeId, year := year)) == Validate(kpi, sales)
  {
  }

  /** A stored target loaded into the form is saved again as an update of that target. */
  lemma LoadedTargetIsUpdated(t: KpiTarget)
    requires t.id != ""
    ensures KpiSaveRequest(Some(t), KpiFormOf(t)) == Request(Put, KpiTargetsPath + "/" + t.id, KpiFormOf(t))
    ensures KpiFormOf(t).annualVolumeGoal == Some(t.annualVolumeGoal as real / 100.0)
  {
  }

  // ---------------------------------------------------------------- the dialog's state

  /** The dialog's state: the two forms and the stored targets the two queries returned. */
  class TargetDialog {
    var kpiData: KpiForm
    var salesData: SalesForm
    var existingKpi: Option<KpiTarget>
    var existingSales: Option<SalesTarget>

    constructor(employeeId: string, currentYear: int)
      ensures kpiData == InitialKpiForm(employeeId, currentYear)
      ensures salesData == InitialSalesForm(employeeId, currentYear)
      ensures existingKpi == None && existingSales == None
    {
      kpiData := InitialKpiForm(employeeId, currentYear);
      salesData := InitialSalesForm(employeeId, currentYear);
      existingKpi := None;
      existingSales := None;
    }

    /** The KPI query answered: remember the answer, and load a found target into the form. */
    method ReceiveKpiTarget(target: Option<KpiTarget>)
      modifies this
      ensures existingKpi == target
      ensures kpiData == if target.Some? then KpiFormOf(target.value) else old(kpiData)
      ensures salesData == old(salesData) && existingSales == old(existingSales)
    {
      existingKpi := target;
      if target.Some? {
        kpiData := KpiFormOf(target.value);
      }
    }

    /** The sales query answered: remember the answer, and load a found target into the form. */
    method ReceiveSalesTarget(target: Option<SalesTarget>)
      modifies this
      ensures existingSales == target
      ensures salesData == if target.Some? then SalesFormOf(target.value) else old(salesData)
      ensures kpiData == old(kpiData) && existingKpi == old(existingKpi)
    {
      existingSales := target;
      if target.Some? {
        salesData := SalesFormOf(target.value);
      }
    }

    /** handleSaveAll on the current state: validate, then build both requests. The
        state itself is not changed. */
    method SaveAll() returns (outcome: SaveOutcome)
      ensures outcome == HandleSaveAll(kpiData, salesData, existingKpi, existingSales)
      ensures outcome.Submitted? <==> Accepts(kpiData, salesData)
    {
      var error := Validate(kpiData, salesData);
      if error.Some? {
        return Rejected(error.value, Message(error.value));
      }
      var kpiRequest := KpiSaveRequest(existingKpi, kpiData);
      var salesRequest := SalesSaveRequest(existingSales, salesData);
      outcome := Submitted(kpiRequest, salesRequest);
    }
  }
}
