/** Copy status and loan records stay coupled through every run of the desk. */
module DeskCoupling {
  import opened Tables
  import opened Domain
  import opened DeskModel

  /** A copy is on loan exactly when exactly one open loan names it. */
  ghost predicate Coupled(s: State) {
    && (forall l :: 0 <= l < |s.loans| ==> s.loans[l].copy < |s.copies|)
    && (forall c :: 0 <= c < |s.copies| ==> CountIf(s.loans, OpenLoanOn(c)) == Bit(s.copies[c].status == OnLoan))
    && (forall c :: 0 <= c < |s.copies| && s.copies[c].status == OnLoan ==> s.copies[c].policy == Circulating)
  }

  lemma MarkKeepsCoupling(s: State, copy: CopyId, status: CopyStatus, staff: UserId)
    requires Coupled(s) && copy < |s.copies| && status != OnLoan
    ensures Coupled(MarkCopy(s, copy, status, staff))
  {
    var s' := MarkCopy(s, copy, status, staff);
    forall c | 0 <= c < |s'.copies|
      ensures CountIf(s'.loans, OpenLoanOn(c)) == Bit(s'.copies[c].status == OnLoan)
    {
      if c == copy {
        CountZero(s'.loans, OpenLoanOn(c));
      } else {
        CountSame(s.loans, s'.loans, OpenLoanOn(c));
      }
    }
  }

  lemma IssueKeepsCoupling(s: State, s': State, loan: Loan)
    requires Coupled(s) && loan.open && loan.copy < |s.copies| && OnShelf(s.copies[loan.copy])
    requires s'.loans == s.loans + [loan]
    requires s'.copies == s.copies[loan.copy := s.copies[loan.copy].(status := OnLoan)]
    ensures Coupled(s')
  {
    forall c | 0 <= c < |s'.copies|
      ensures CountIf(s'.loans, OpenLoanOn(c)) == Bit(s'.copies[c].status == OnLoan)
    {
      CountAppend(s.loans, loan, OpenLoanOn(c));
    }
  }

  lemma OpenLoanMeansOnLoan(s: State, loan: LoanId)
    requires Coupled(s) && loan < |s.loans| && s.loans[loan].open
    ensures s.copies[s.loans[loan].copy].status == OnLoan && s.copies[s.loans[loan].copy].policy == Circulating
  {
    CountZero(s.loans, OpenLoanOn(s.loans[loan].copy));
  }

  lemma ReturnKeepsCoupling(s: State, s': State, loan: LoanId)
    requires Coupled(s) && loan < |s.loans| && s.loans[loan].open
    requires s'.loans == s.loans[loan := s.loans[loan].(open := false)]
    requires s'.copies == Reshelve(s.copies, s.loans[loan].copy)
    ensures Coupled(s')
  {
    OpenLoanMeansOnLoan(s, loan);
    forall c | 0 <= c < |s'.copies|
      ensures CountIf(s'.loans, OpenLoanOn(c)) == Bit(s'.copies[c].status == OnLoan)
    {
      CountUpdate(s.loans, loan, s.loans[loan].(open := false), OpenLoanOn(c));
    }
  }

  lemma AddCopyKeepsCoupling(s: State, book: BookId, accession: string, policy: Option<LoanPolicy>, staff: UserId)
    requires Coupled(s)
    ensures Coupled(AddCopyStep(s, book, accession, policy, staff).0)
  {
  }

  lemma EditKeepsCoupling(s: State, copy: CopyId, policy: Option<LoanPolicy>, status: Option<CopyStatus>, staff: UserId)
    requires Coupled(s) && copy < |s.copies|
    requires status.Some? ==> (status.value == OnLoan <==> s.copies[copy].status == OnLoan)
    requires policy.Some? ==> s.copies[copy].status != OnLoan
    ensures Coupled(EditCopy(s, copy, policy, status, staff))
  {
  }

  lemma UpdateCopyKeepsCoupling(s: State, copy: CopyId, policy: Option<LoanPolicy>, status: Option<CopyStatus>,
                                staff: UserId)
    requires Coupled(s)
    ensures Coupled(UpdateCopyStep(s, copy, policy, status, staff).0)
  {
    if copy < |s.copies| && (status.Some? ==> CanTransitionTo(s.copies[copy].status, status.value)) {
      var current := s.copies[copy].status;
      if status.Some? && status.value != current && current == OnLoan {
        MarkKeepsCoupling(s, copy, status.value, staff);
      } else if policy.None? || current != OnLoan {
        EditKeepsCoupling(s, copy, policy, status, staff);
      }
    }
  }

  lemma BorrowKeepsCoupling(s: State, copy: CopyId, member: UserId, actor: UserId, limit: nat, self: bool)
    requires Coupled(s)
    ensures Coupled(BorrowTransaction(s, copy, member, actor, limit, self).0)
  {
    var (s', reply) := BorrowTransaction(s, copy, member, actor, limit, self);
    if reply.Lent? {
      IssueKeepsCoupling(s, s', Loan(copy, member, true));
    }
  }

  lemma StepKeepsCoupling(s: State, call: Call)
    requires Coupled(s)
    ensures Coupled(Step(s, call).0)
  {
    match call
    case AddCopy(book, accession, policy, staff) => AddCopyKeepsCoupling(s, book, accession, policy, staff);
    case UpdateCopy(copy, policy, status, staff) => UpdateCopyKeepsCoupling(s, copy, policy, status, staff);
    case Borrow(copy, member, staff) =>
      var e := EntitlementOf(s.roll, member, false);
      if e.Entitled? { BorrowKeepsCoupling(s, copy, member, staff, e.limit, false); }
    case SelfCheckout(copy, member) =>
      var e := EntitlementOf(s.roll, member, true);
      if e.Entitled? { BorrowKeepsCoupling(s, copy, member, member, e.limit, true); }
    case Return(loan, _, _, _) =>
      if loan < |s.loans| && s.loans[loan].open { ReturnKeepsCoupling(s, Step(s, call).0, loan); }
    case Reserve(_, _) =>
    case Cancel(_, _, _, _) =>
    case ExpireStale(_) =>
  }

  lemma {:induction false} RunKeepsCoupling(s: State, calls: seq<Call>)
    requires Coupled(s)
    ensures Coupled(Run(s, calls))
  {
    if calls != [] {
      RunKeepsCoupling(s, calls[..|calls| - 1]);
      StepKeepsCoupling(Run(s, calls[..|calls| - 1]), calls[|calls| - 1]);
    }
  }

  /** In every state the desk can reach, coupling holds. */
  lemma CoupledInEveryRun(titles: set<BookId>, roll: map<UserId, Account>, calls: seq<Call>)
    ensures Coupled(Run(Empty(titles, roll), calls))
  {
    RunKeepsCoupling(Empty(titles, roll), calls);
  }

  // What no later call can undo.

  predicate Final(status: HoldStatus) {
    status == Fulfilled || status == Cancelled || status == Expired
  }

  ghost predicate CopiesEvolve(before: seq<Copy>, after: seq<Copy>) {
    && |before| <= |after|
    && forall c :: 0 <= c < |before| ==>
        && after[c].book == before[c].book && after[c].accession == before[c].accession
        && (before[c].status == Withdrawn ==> after[c].status == Withdrawn)
  }

  ghost predicate LoansEvolve(before: seq<Loan>, after: seq<Loan>) {
    && |before| <= |after|
    && forall l :: 0 <= l < |before| ==>
        && after[l].copy == before[l].copy && after[l].user == before[l].user
        && (after[l].open ==> before[l].open)
  }

  ghost predicate QueueEvolves(before: seq<Reservation>, after: seq<Reservation>) {
    && |before| <= |after|
    && forall r :: 0 <= r < |before| ==>
        && after[r].book == before[r].book && after[r].user == before[r].user
        && (Final(before[r].status) ==> after[r] == before[r])
        && (after[r].status == Pending ==> before[r].status == Pending)
  }

  /** Everything the desk may do to its records over time, and nothing else. */
  ghost predicate Evolves(s: State, s': State) {
    && s'.titles == s.titles && s'.roll == s.roll && s.log <= s'.log
    && CopiesEvolve(s.copies, s'.copies) && LoansEvolve(s.loans, s'.loans) && QueueEvolves(s.queue, s'.queue)
  }

  lemma UpdateCopyEvolves(s: State, copy: CopyId, policy: Option<LoanPolicy>, status: Option<CopyStatus>, staff: UserId)
    ensures Evolves(s, UpdateCopyStep(s, copy, policy, status, staff).0)
  {
    if copy < |s.copies| && status.Some? && s.copies[copy].status != status.value {
      var s1 := MarkCopy(s, copy, status.value, staff);
      assert s.copies[copy].status != Withdrawn ==> Evolves(s, s1);
    }
  }

  lemma BorrowEvolves(s: State, copy: CopyId, member: UserId, actor: UserId, limit: nat, self: bool)
    ensures Evolves(s, BorrowTransaction(s, copy, member, actor, limit, self).0)
  {
  }

  lemma ReturnEvolves(s: State, loan: LoanId, staff: UserId, now: int, hookRuns: bool)
    ensures Evolves(s, ReturnStep(s, loan, staff, now, hookRuns).0)
  {
  }

  lemma CancelEvolves(s: State, hold: HoldId, member: UserId, now: int, hookRuns: bool)
    ensures Evolves(s, CancelStep(s, hold, member, now, hookRuns).0)
  {
  }

  lemma ReserveEvolves(s: State, book: BookId, member: UserId)
    ensures Evolves(s, ReserveStep(s, book, member).0)
  {
  }

  lemma ExpireEvolves(s: State, now: int)
    ensures Evolves(s, ExpireStep(s, now).0)
  {
  }

  lemma StepEvolves(s: State, call: Call)
    ensures Evolves(s, Step(s, call).0)
  {
    match call
    case UpdateCopy(copy, policy, status, staff) => UpdateCopyEvolves(s, copy, policy, status, staff);
    case Borrow(copy, member, staff) =>
      var e := EntitlementOf(s.roll, member, false);
      if e.Entitled? { BorrowEvolves(s, copy, member, staff, e.limit, false); }
    case SelfCheckout(copy, member) =>
      var e := EntitlementOf(s.roll, member, true);
      if e.Entitled? { BorrowEvolves(s, copy, member, member, e.limit, true); }
    case Return(loan, staff, now, hookRuns) => ReturnEvolves(s, loan, staff, now, hookRuns);
    case Cancel(hold, member, now, hookRuns) => CancelEvolves(s, hold, member, now, hookRuns);
    case Reserve(book, member) => ReserveEvolves(s, book, member);
    case ExpireStale(now) => ExpireEvolves(s, now);
    case _ =>
  }

  lemma EvolvesTransitive(a: State, b: State, c: State)
    requires Evolves(a, b) && Evolves(b, c)
    ensures Evolves(a, c)
  {
  }

  lemma NextEvolves(titles: set<BookId>, roll: map<UserId, Account>, calls: seq<Call>, k: nat)
    requires k < |calls|
    ensures Evolves(After(titles, roll, calls, k), After(titles, roll, calls, k + 1))
  {
    StepEvolves(After(titles, roll, calls, k), calls[k]);
    AfterStep(titles, roll, calls, k);
  }

  /** Withdrawn is permanent, a closed loan is never reopened, a finished
    reservation never changes and no row or log line is ever lost. */
  lemma {:induction false} HistoryIsPermanent(titles: set<BookId>, roll: map<UserId, Account>, calls: seq<Call>,
                                              i: nat, j: nat)
    requires i <= j <= |calls|
    ensures Evolves(After(titles, roll, calls, i), After(titles, roll, calls, j))
    decreases j - i
  {
    if i < j {
      HistoryIsPermanent(titles, roll, calls, i + 1, j);
      NextEvolves(titles, roll, calls, i);
      EvolvesTransitive(After(titles, roll, calls, i), After(titles, roll, calls, i + 1),
                        After(titles, roll, calls, j));
    }
  }
}
