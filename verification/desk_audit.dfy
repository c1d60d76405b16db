/** The audit log is a complete history of the desk's copies and loans. */
module DeskAudit {
  import opened Tables
  import opened Domain
  import opened DeskModel
  import DeskCoupling

  /** What a reader of the log alone can reconstruct. */
  datatype Ledger = Ledger(copies: map<CopyId, Copy>, open: map<LoanId, (CopyId, UserId)>)

  function SetStatus(copies: map<CopyId, Copy>, c: CopyId, status: CopyStatus): map<CopyId, Copy> {
    if c in copies then copies[c := copies[c].(status := status)] else copies
  }

  function Apply(ledger: Ledger, event: Event): Ledger {
    match event
    case CopyAdded(c, book, accession, policy) =>
      ledger.(copies := ledger.copies[c := Copy(book, accession, policy, Available)])
    case CopyUpdated(c, policy, status) =>
      if c in ledger.copies
      then ledger.(copies := ledger.copies[c := Edited(ledger.copies[c], policy, status)]) else ledger
    case CopyMarked(c, status) =>
      Ledger(SetStatus(ledger.copies, c, status), map l | l in ledger.open && ledger.open[l].0 != c :: ledger.open[l])
    case LoanIssued(l, c, member) => Issue(ledger, l, c, member)
    case SelfCheckedOut(l, c, member) => Issue(ledger, l, c, member)
    case LoanReturned(l, c, _) => Ledger(SetStatus(ledger.copies, c, Available), ledger.open - {l})
  }

  function Issue(ledger: Ledger, l: LoanId, c: CopyId, member: UserId): Ledger {
    Ledger(SetStatus(ledger.copies, c, OnLoan), ledger.open[l := (c, member)])
  }

  function Replay(log: seq<AuditLine>): Ledger {
    if log == [] then Ledger(map[], map[])
    else Apply(Replay(log[..|log| - 1]), log[|log| - 1].event)
  }

  /** What the tables hold: every copy's book, number, policy and status, and the open loans. */
  function View(s: State): Ledger {
    Ledger(map c: nat | c < |s.copies| :: s.copies[c],
           map l: nat | l < |s.loans| && s.loans[l].open :: (s.loans[l].copy, s.loans[l].user))
  }

  /** The call either changed nothing the log is about, or logged exactly what it changed. */
  ghost predicate Accounted(s: State, s': State) {
    || (s'.log == s.log && View(s') == View(s))
    || (|s'.log| == |s.log| + 1 && s'.log[..|s.log|] == s.log && View(s') == Apply(View(s), s'.log[|s.log|].event))
  }

  lemma AddCopyAccounted(s: State, book: BookId, accession: string, policy: Option<LoanPolicy>, staff: UserId)
    ensures Accounted(s, AddCopyStep(s, book, accession, policy, staff).0)
  {
  }

  lemma MarkAccounted(s: State, copy: CopyId, status: CopyStatus, staff: UserId)
    requires copy < |s.copies|
    ensures Accounted(s, MarkCopy(s, copy, status, staff))
  {
  }

  lemma EditAccounted(s: State, copy: CopyId, policy: Option<LoanPolicy>, status: Option<CopyStatus>, staff: UserId)
    requires copy < |s.copies|
    ensures Accounted(s, EditCopy(s, copy, policy, status, staff))
  {
  }

  lemma UpdateCopyAccounted(s: State, copy: CopyId, policy: Option<LoanPolicy>, status: Option<CopyStatus>,
                            staff: UserId)
    ensures Accounted(s, UpdateCopyStep(s, copy, policy, status, staff).0)
  {
    if copy < |s.copies| {
      EditAccounted(s, copy, policy, status, staff);
      if status.Some? {
        MarkAccounted(s, copy, status.value, staff);
      }
    }
  }

  lemma IssueView(s: State, copy: CopyId, member: UserId, copies: seq<Copy>, loans: seq<Loan>)
    requires copy < |s.copies| && copies == s.copies[copy := s.copies[copy].(status := OnLoan)]
    requires loans == s.loans + [Loan(copy, member, true)]
    ensures View(s.(copies := copies, loans := loans)) == Issue(View(s), |s.loans|, copy, member)
  {
    var after := View(s.(copies := copies, loans := loans));
    assert after.copies == SetStatus(View(s).copies, copy, OnLoan);
    assert after.open == View(s).open[|s.loans| := (copy, member)];
  }

  lemma BorrowAccounted(s: State, copy: CopyId, member: UserId, actor: UserId, limit: nat, self: bool)
    ensures Accounted(s, BorrowTransaction(s, copy, member, actor, limit, self).0)
  {
    var (s', reply) := BorrowTransaction(s, copy, member, actor, limit, self);
    if reply.Lent? {
      IssueView(s, copy, member, s'.copies, s'.loans);
      assert View(s') == View(s.(copies := s'.copies, loans := s'.loans));
      assert s'.log[|s.log|].event == IssueEvent(|s.loans|, copy, member, self);
    }
  }

  lemma ReturnView(s: State, loan: LoanId, copies: seq<Copy>, loans: seq<Loan>)
    requires loan < |s.loans| && s.loans[loan].open && s.loans[loan].copy < |s.copies|
    requires var copy := s.loans[loan].copy; copies == s.copies[copy := s.copies[copy].(status := Available)]
    requires loans == s.loans[loan := s.loans[loan].(open := false)]
    ensures View(s.(copies := copies, loans := loans))
      == Apply(View(s), LoanReturned(loan, s.loans[loan].copy, s.loans[loan].user))
  {
  }

  /** The log says the copy is back on the shelf; coupling is what makes that true. */
  lemma ReturnAccounted(s: State, loan: LoanId, staff: UserId, now: int, hookRuns: bool)
    requires DeskCoupling.Coupled(s)
    ensures Accounted(s, ReturnStep(s, loan, staff, now, hookRuns).0)
  {
    var (s', reply) := ReturnStep(s, loan, staff, now, hookRuns);
    if reply.Done? {
      DeskCoupling.OpenLoanMeansOnLoan(s, loan);
      ReturnView(s, loan, s'.copies, s'.loans);
      assert View(s') == View(s.(copies := s'.copies, loans := s'.loans));
    }
  }

  lemma StepAccounted(s: State, call: Call)
    requires DeskCoupling.Coupled(s)
    ensures Accounted(s, Step(s, call).0)
  {
    match call
    case AddCopy(book, accession, policy, staff) => AddCopyAccounted(s, book, accession, policy, staff);
    case UpdateCopy(copy, policy, status, staff) => UpdateCopyAccounted(s, copy, policy, status, staff);
    case Borrow(copy, member, staff) =>
      var e := EntitlementOf(s.roll, member, false);
      if e.Entitled? { BorrowAccounted(s, copy, member, staff, e.limit, false); }
    case SelfCheckout(copy, member) =>
      var e := EntitlementOf(s.roll, member, true);
      if e.Entitled? { BorrowAccounted(s, copy, member, member, e.limit, true); }
    case Return(loan, staff, now, hookRuns) => ReturnAccounted(s, loan, staff, now, hookRuns);
    case Reserve(_, _) => assert View(Step(s, call).0) == View(s);
    case Cancel(_, _, _, _) => assert View(Step(s, call).0) == View(s);
    case ExpireStale(_) => assert View(Step(s, call).0) == View(s);
  }

  lemma AccountedReplay(s: State, s': State)
    requires Accounted(s, s') && Replay(s.log) == View(s)
    ensures Replay(s'.log) == View(s')
  {
  }

  /** In every state the desk can reach, replaying the log from nothing gives the tables back. */
  lemma {:induction false} LogReproducesDesk(titles: set<BookId>, roll: map<UserId, Account>, calls: seq<Call>)
    ensures Replay(Run(Empty(titles, roll), calls).log) == View(Run(Empty(titles, roll), calls))
  {
    var start := Empty(titles, roll);
    if calls == [] {
      assert View(start) == Ledger(map[], map[]);
    } else {
      var front := calls[..|calls| - 1];
      LogReproducesDesk(titles, roll, front);
      DeskCoupling.CoupledInEveryRun(titles, roll, front);
      StepAccounted(Run(start, front), calls[|calls| - 1]);
      AccountedReplay(Run(start, front), Run(start, calls));
    }
  }
}
