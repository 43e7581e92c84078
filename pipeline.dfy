/** The loan pipeline board of client/src/components/LoanPipelineBoard.tsx: the six
    stage columns and the loans and dollar value of each, the status-update request
    that stamps the lock or close date, and the add/edit loan form. */
module Pipeline {
  import opened Options
  import opened Seqs
  import opened Schema
  import opened Api

  /** The `value` of each stage column, left to right. */
  const PipelineStages: seq<string> := ["lead", "pre-qual", "application", "processing", "locked", "closed"]

  /** getLoansByStage: the loans whose status is `stage`, in the order of the list. */
  function LoansByStage(loans: seq<Loan>, stage: string): (r: seq<Loan>)
    ensures |r| <= |loans|
    ensures forall l :: l in r <==> l in loans && l.status == stage
  {
    FilterMembers(loans, (l: Loan) => l.status == stage);
    Filter(loans, (l: Loan) => l.status == stage)
  }

  /** The sum of the amounts of some loans, in hundredths, summed left to right. */
  function SumAmounts(loans: seq<Loan>): (r: Hundredths)
    ensures (forall l :: l in loans ==> l.loanAmount >= 0) ==> r >= 0
  {
    if loans == [] then 0 else SumAmounts(loans[..|loans| - 1]) + loans[|loans| - 1].loanAmount
  }

  /** calculateStageValue: the total amount of the stage's loans. */
  function StageValue(loans: seq<Loan>, stage: string): (r: Hundredths)
    ensures (forall l :: l in loans && l.status == stage ==> l.loanAmount >= 0) ==> r >= 0
  {
    SumAmounts(LoansByStage(loans, stage))
  }

  // ---------------------------------------------------------------- columns

  /** A column keeps the order of the list: the column of a concatenation is the
      concatenation of the columns. */
  lemma LoansByStageAppend(a: seq<Loan>, b: seq<Loan>, stage: string)
    ensures LoansByStage(a + b, stage) == LoansByStage(a, stage) + LoansByStage(b, stage)
  {
    FilterAppend(a, b, (x: Loan) => x.status == stage);
  }

  lemma {:induction false} SumAmountsAppend(a: seq<Loan>, b: seq<Loan>)
    ensures SumAmounts(a + b) == SumAmounts(a) + SumAmounts(b)
    decreases |b|
  {
    if b == [] {
      assert a + b == a;
    } else {
      var b', x := b[..|b| - 1], b[|b| - 1];
      assert b == b' + [x];
      assert a + b == (a + b') + [x];
      assert (a + b)[..|a + b| - 1] == a + b';
      SumAmountsAppend(a, b');
    }
  }

  /** The value of a stage adds up over two parts of the list. */
  lemma StageValueAppend(a: seq<Loan>, b: seq<Loan>, stage: string)
    ensures StageValue(a + b, stage) == StageValue(a, stage) + StageValue(b, stage)
  {
    LoansByStageAppend(a, b, stage);
    SumAmountsAppend(LoansByStage(a, stage), LoansByStage(b, stage));
  }

  /** A stage without loans is worth 0. */
  lemma EmptyStageValue(loans: seq<Loan>, stage: string)
    requires forall l :: l in loans ==> l.status != stage
    ensures LoansByStage(loans, stage) == [] && StageValue(loans, stage) == 0
  {
    FilterNone(loans, (x: Loan) => x.status == stage);
  }

  /** The six stage values are distinct. */
  lemma StagesDistinct()
    ensures |PipelineStages| == 6
    ensures forall i, j :: 0 <= i < j < |PipelineStages| ==> PipelineStages[i] != PipelineStages[j]
  {
  }

  /** A loan shows in at most one column. */
  lemma AtMostOneColumn(loans: seq<Loan>, l: Loan, i: nat, j: nat)
    requires i < |PipelineStages| && j < |PipelineStages|
    requires l in LoansByStage(loans, PipelineStages[i]) && l in LoansByStage(loans, PipelineStages[j])
    ensures i == j
  {
    StagesDistinct();
  }

  /** A loan whose status is no stage value, such as "pre-qualified", shows in no column. */
  lemma UnstagedLoanInNoColumn(loans: seq<Loan>, l: Loan)
    requires l.status !in PipelineStages
    ensures forall i :: 0 <= i < |PipelineStages| ==> l !in LoansByStage(loans, PipelineStages[i])
    ensures "pre-qualified" !in PipelineStages
  {
  }

  /** The column sizes over a list of stages, added up. */
  function ColumnCounts(loans: seq<Loan>, stages: seq<string>): (r: nat)
    ensures r == 0 <==> forall i :: 0 <= i < |stages| ==> LoansByStage(loans, stages[i]) == []
  {
    if stages == [] then 0
    else ColumnCounts(loans, stages[..|stages| - 1]) + |LoansByStage(loans, stages[|stages| - 1])|
  }

  /** The loans whose status is one of `stages`. */
  function StagedLoans(loans: seq<Loan>, stages: seq<string>): seq<Loan> {
    Filter(loans, (l: Loan) => l.status in stages)
  }

  predicate Distinct(stages: seq<string>) {
    forall i, j :: 0 <= i < j < |stages| ==> stages[i] != stages[j]
  }

  /** One more loan adds one to the column counts when its status is one of the
      distinct stages, and nothing otherwise. */
  lemma {:induction false} ColumnCountsSnoc(loans: seq<Loan>, x: Loan, stages: seq<string>)
    requires Distinct(stages)
    ensures ColumnCounts(loans + [x], stages) == ColumnCounts(loans, stages) + if x.status in stages then 1 else 0
    decreases |stages|
  {
    if stages != [] {
      var init, last := stages[..|stages| - 1], stages[|stages| - 1];
      assert stages == init + [last];
      assert Distinct(init);
      ColumnCountsSnoc(loans, x, init);
      FilterSnoc(loans, x, (l: Loan) => l.status == last);
      assert x.status in stages <==> x.status in init || x.status == last;
      if x.status == last {
        assert x.status !in init;
      }
    }
  }

  /** The column counts add up to the number of loans whose status is one of the
      distinct stages. */
  lemma {:induction false} ColumnCountsAreStagedLoans(loans: seq<Loan>, stages: seq<string>)
    requires Distinct(stages)
    ensures ColumnCounts(loans, stages) == |StagedLoans(loans, stages)|
    decreases |loans|
  {
    if loans == [] {
      ZeroColumnCounts(stages);
    } else {
      var l', x := loans[..|loans| - 1], loans[|loans| - 1];
      assert loans == l' + [x];
      ColumnCountsAreStagedLoans(l', stages);
      ColumnCountsSnoc(l', x, stages);
      FilterSnoc(l', x, (l: Loan) => l.status in stages);
    }
  }

  lemma {:induction false} ZeroColumnCounts(stages: seq<string>)
    ensures ColumnCounts([], stages) == 0
    decreases |stages|
  {
    if stages != [] {
      ZeroColumnCounts(stages[..|stages| - 1]);
    }
  }

  /** The counts on the six column badges add up to the number of loans whose status is
      one of the stage values. */
  lemma StageCountsSum(loans: seq<Loan>)
    ensures ColumnCounts(loans, PipelineStages) == |StagedLoans(loans, PipelineStages)|
  {
    StagesDistinct();
    ColumnCountsAreStagedLoans(loans, PipelineStages);
  }

  // ---------------------------------------------------------------- status updates

  const LoansPath: string := "/api/employee/loans"

  /** The body of a status update: the status, and a lock or close date when stamped. */
  datatype StatusUpdate = StatusUpdate(status: string, lockedDate: Option<string>, closedDate: Option<string>)

  /** updateStatusMutation: the body starts as `{ status }`; moving to "locked" stamps
      today as lockedDate, moving to "closed" stamps it as closedDate. */
  method StatusUpdatePayload(status: string, today: Date) returns (updateData: StatusUpdate)
    ensures updateData.status == status
    ensures updateData.lockedDate == if status == "locked" then Some(DateText(today)) else None
    ensures updateData.closedDate == if status == "closed" then Some(DateText(today)) else None
    ensures !(updateData.lockedDate.Some? && updateData.closedDate.Some?)
    ensures today.year <= 9999 && updateData.lockedDate.Some? ==> ParseDate(updateData.lockedDate.value) == Some(today)
    ensures today.year <= 9999 && updateData.closedDate.Some? ==> ParseDate(updateData.closedDate.value) == Some(today)
  {
    updateData := StatusUpdate(status, None, None);
    if status == "locked" {
      updateData := updateData.(lockedDate := Some(DateText(today)));
    }
    if status == "closed" {
      updateData := updateData.(closedDate := Some(DateText(today)));
    }
    if today.year <= 9999 {
      DateTextRoundTrip(today);
    }
  }

  /** The status update is a PUT to the loan's own path. */
  method StatusUpdateRequest(loanId: string, status: string, today: Date) returns (r: Request<StatusUpdate>)
    requires loanId != ""
    ensures r.verb == Put && PathId(LoansPath, r.path) == Some(loanId)
    ensures r.body.status == status
    ensures r.body.lockedDate.Some? <==> status == "locked"
    ensures r.body.closedDate.Some? <==> status == "closed"
  {
    var updateData := StatusUpdatePayload(status, today);
    PathIdOfItem(LoansPath, loanId);
    r := Request(Put, LoansPath + "/" + loanId, updateData);
  }

  // ---------------------------------------------------------------- the loan form

  /** The add/edit loan form: every field is text. */
  datatype LoanForm = LoanForm(
    borrowerName: string,
    loanAmount: string,
    loanType: string,
    status: string,
    expectedCloseDate: string,
    referralSource: string)

  /** The empty form: a "purchase" "lead". */
  const InitialLoanForm: LoanForm := LoanForm("", "", "purchase", "lead", "", "")

  /** `s || fallback`: an empty string is replaced. */
  function OrElse(s: string, fallback: string): string {
    if s == "" then fallback else s
  }

  /** `x || ""` for a nullable text column. */
  function TextOrEmpty(x: Option<string>): string {
    x.GetOr("")
  }

  /** handleEdit's form: the loan's fields as text, with missing ones filled by the
      defaults of the empty form; the amount is its decimal text. */
  function EditFormOf(loan: Loan): (f: LoanForm)
    ensures loan.borrowerName.None? ==> f.borrowerName == InitialLoanForm.borrowerName
    ensures loan.borrowerName.Some? ==> f.borrowerName == loan.borrowerName.value
    ensures loan.referralSource.Some? ==> f.referralSource == loan.referralSource.value
    ensures f.loanAmount == DecimalText(loan.loanAmount)
    ensures loan.loanType == "" ==> f.loanType == InitialLoanForm.loanType
    ensures loan.status == "" ==> f.status == InitialLoanForm.status
    ensures loan.expectedCloseDate.None? ==> f.expectedCloseDate == InitialLoanForm.expectedCloseDate
    ensures loan.referralSource.None? ==> f.referralSource == InitialLoanForm.referralSource
    ensures loan.status != "" ==> f.status == loan.status
    ensures loan.loanType != "" ==> f.loanType == loan.loanType
    ensures f.loanAmount != ""
  {
    LoanForm(
      TextOrEmpty(loan.borrowerName),
      OrElse(DecimalText(loan.loanAmount), ""),
      OrElse(loan.loanType, "purchase"),
      OrElse(loan.status, "lead"),
      match loan.expectedCloseDate case Some(d) => DateText(d) case None => "",
      TextOrEmpty(loan.referralSource))
  }

  /** The edit form's close date reads back as the loan's date. */
  lemma EditFormDateRoundTrip(loan: Loan)
    requires loan.expectedCloseDate.Some? ==> loan.expectedCloseDate.value.year <= 9999
    ensures loan.expectedCloseDate.Some? ==> ParseDate(EditFormOf(loan).expectedCloseDate) == loan.expectedCloseDate
    ensures loan.expectedCloseDate.None? ==> EditFormOf(loan).expectedCloseDate == ""
  {
    if loan.expectedCloseDate.Some? {
      DateTextRoundTrip(loan.expectedCloseDate.value);
    }
  }

  /** A loan created through the schema with its status left out opens in the "lead" column. */
  lemma NewLoanStartsAsLead(loans: seq<Loan>, id: string, ins: LoanInsert)
    requires ins.status.None?
    ensures CreateLoan(id, ins) in LoansByStage(loans + [CreateLoan(id, ins)], PipelineStages[0])
  {
  }

  /** The board's own state: the form, the loan being edited and whether the dialog is open. */
  class LoanPipelineState {
    var formData: LoanForm
    var editingLoan: Option<Loan>
    var isDialogOpen: bool

    constructor()
      ensures formData == InitialLoanForm && editingLoan == None && !isDialogOpen
    {
      formData := InitialLoanForm;
      editingLoan := None;
      isDialogOpen := false;
    }

    /** resetForm: back to the empty form; nothing else changes. */
    method ResetForm()
      modifies this
      ensures formData == InitialLoanForm
      ensures editingLoan == old(editingLoan) && isDialogOpen == old(isDialogOpen)
    {
      formData := InitialLoanForm;
    }

    /** "Add Loan": forget the edited loan, clear the form, open the dialog. */
    method AddLoan()
      modifies this
      ensures formData == InitialLoanForm && editingLoan == None && isDialogOpen
    {
      editingLoan := None;
      ResetForm();
      isDialogOpen := true;
    }

    /** handleEdit: edit `loan`, its fields in the form, with the dialog open. */
    method HandleEdit(loan: Loan)
      modifies this
      ensures editingLoan == Some(loan) && formData == EditFormOf(loan) && isDialogOpen
    {
      editingLoan := Some(loan);
      formData := EditFormOf(loan);
      isDialogOpen := true;
    }

    /** saveMutation: PUT the form to the edited loan's path, or POST a new loan. */
    method SaveRequest() returns (r: Request<LoanForm>)
      ensures r.body == formData
      ensures r.verb == Put <==> editingLoan.Some?
      ensures r.verb == Put && editingLoan.value.id != "" ==> PathId(LoansPath, r.path) == Some(editingLoan.value.id)
      ensures r.verb == Post ==> r.path == LoansPath
    {
      if editingLoan.Some? {
        r := Request(Put, LoansPath + "/" + editingLoan.value.id, formData);
        if editingLoan.value.id != "" {
          PathIdOfItem(LoansPath, editingLoan.value.id);
        }
      } else {
        r := Request(Post, LoansPath, formData);
      }
    }

    /** A successful save closes the dialog, forgets the edited loan and clears the form;
        the toast says whether a loan was updated or added. */
    method OnSaveSuccess() returns (description: string)
      modifies this
      ensures !isDialogOpen && editingLoan == None && formData == InitialLoanForm
      ensures description == if old(editingLoan).Some? then "Loan updated successfully" else "Loan added successfully"
    {
      description := if editingLoan.Some? then "Loan updated successfully" else "Loan added successfully";
      isDialogOpen := false;
      editingLoan := None;
      ResetForm();
    }
  }
}
