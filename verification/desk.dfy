/** The desk's tables, updated in place by the services and their transactions.

  Every method is proved to take exactly the step `DeskModel.Step` describes and to
  keep `Valid`, the conjunction of the invariants proved of that step function. A
  refused transaction rolls back, as the deferred Rollback does. */
module DeskTables {
  import opened Tables
  import opened Domain
  import opened DeskModel
  import DeskCoupling
  import DeskQueue
  import DeskLending
  import DeskAudit
  import DeskOutcomes
  import Text

  class Desk {
    const titles: set<BookId>
    const roll: map<UserId, Account>
    var copies: seq<Copy>
    var loans: seq<Loan>
    var queue: seq<Reservation>
    var log: seq<AuditLine>

    function State(): State
      reads this
    {
      DeskModel.State(titles, roll, copies, loans, queue, log)
    }

    ghost predicate Valid()
      reads this
    {
      Sound(State())
    }

    constructor (titles: set<BookId>, roll: map<UserId, Account>)
      ensures State() == Empty(titles, roll) && Valid()
    {
      this.titles, this.roll := titles, roll;
      copies, loans, queue, log := [], [], [], [];
      new;
      EmptySound(titles, roll);
    }

    method AddCopy(book: BookId, accession: string, policy: Option<LoanPolicy>, staff: UserId) returns (reply: Reply)
      requires Valid()
      modifies this
      ensures (State(), reply) == Step(old(State()), Call.AddCopy(book, accession, policy, staff)) && Valid()
    {
      StepKeepsSound(State(), Call.AddCopy(book, accession, policy, staff));
      var number := Text.Trim(accession);
      if number == "" || AccessionTaken(copies, number) {
        return Refused(DuplicateAccession);
      }
      if book !in titles {
        return Refused(Conflict);
      }
      var id := |copies|;
      copies := copies + [Copy(book, number, policy.GetOr(Circulating), Available)];
      log := log + [AuditLine(staff, CopyAdded(id, book, number, copies[id].policy))];
      return Added(id);
    }

    method UpdateCopy(copy: CopyId, newPolicy: Option<LoanPolicy>, newStatus: Option<CopyStatus>, staff: UserId)
      returns (reply: Reply)
      requires Valid()
      modifies this
      ensures (State(), reply) == Step(old(State()), Call.UpdateCopy(copy, newPolicy, newStatus, staff)) && Valid()
    {
      StepKeepsSound(State(), Call.UpdateCopy(copy, newPolicy, newStatus, staff));
      if copy >= |copies| {
        return Refused(NotFound);
      }
      var current := copies[copy].status;
      var status := newStatus;
      if status.Some? && status.value != current {
        if !CanTransitionTo(current, status.value) {
          return Refused(InvalidTransition);
        }
        if current == OnLoan && ClosesAnOpenLoan(status.value) {
          SetCopyStatusClosingLoan(copy, status.value, staff);
          status := None;
        }
      }
      if newPolicy.Some? && current == OnLoan {
        return Refused(CopyIsOnLoan);
      }
      if newPolicy.Some? || status.Some? {
        WriteCopy(copy, newPolicy, status, staff);
      }
      return Done;
    }

    method SetCopyStatusClosingLoan(copy: CopyId, status: CopyStatus, staff: UserId)
      requires copy < |copies|
      modifies this
      ensures State() == MarkCopy(old(State()), copy, status, staff)
    {
      loans := CloseLoansOn(loans, copy);
      copies := copies[copy := copies[copy].(status := status)];
      log := log + [AuditLine(staff, CopyMarked(copy, status))];
    }

    method WriteCopy(copy: CopyId, newPolicy: Option<LoanPolicy>, newStatus: Option<CopyStatus>, staff: UserId)
      requires copy < |copies|
      modifies this
      ensures State() == EditCopy(old(State()), copy, newPolicy, newStatus, staff)
    {
      if newPolicy.Some? {
        copies := copies[copy := copies[copy].(policy := newPolicy.value)];
      }
      if newStatus.Some? {
        copies := copies[copy := copies[copy].(status := newStatus.value)];
      }
      log := log + [AuditLine(staff, CopyUpdated(copy, newPolicy, newStatus))];
    }

    method Borrow(copy: CopyId, member: UserId, librarian: UserId) returns (reply: Reply)
      requires Valid()
      modifies this
      ensures (State(), reply) == Step(old(State()), Call.Borrow(copy, member, librarian)) && Valid()
      ensures reply.Lent? ==> DeskOutcomes.Entitled(roll, member)
      ensures DeskOutcomes.Entitled(roll, member) ==>
        DeskOutcomes.LendingAnswer(old(State()), copy, member, reply)
    {
      DeskOutcomes.BorrowOutcome(State(), copy, member, librarian);
      StepKeepsSound(State(), Call.Borrow(copy, member, librarian));
      match EntitlementOf(roll, member, false)
      case NotEntitled(error) => reply := Refused(error);
      case Entitled(limit) => reply := Lend(copy, member, librarian, limit, false);
    }

    method SelfCheckout(copy: CopyId, member: UserId) returns (reply: Reply)
      requires Valid()
      modifies this
      ensures (State(), reply) == Step(old(State()), Call.SelfCheckout(copy, member)) && Valid()
      ensures reply.Lent? ==> DeskOutcomes.Entitled(roll, member) && roll[member].role == MemberRole
      ensures DeskOutcomes.Entitled(roll, member) && roll[member].role == MemberRole ==>
        DeskOutcomes.LendingAnswer(old(State()), copy, member, reply)
    {
      DeskOutcomes.SelfCheckoutOutcome(State(), copy, member);
      StepKeepsSound(State(), Call.SelfCheckout(copy, member));
      match EntitlementOf(roll, member, true)
      case NotEntitled(error) => reply := Refused(error);
      case Entitled(limit) => reply := Lend(copy, member, member, limit, true);
    }

    /** The borrowing transaction: head check, claim, retention, limit, insert, fulfil, log. */
    method Lend(copy: CopyId, member: UserId, actor: UserId, limit: nat, self: bool) returns (reply: Reply)
      modifies this
      ensures (State(), reply) == BorrowTransaction(old(State()), copy, member, actor, limit, self)
    {
      var head := if copy < |copies| then First(queue, WaitingFor(copies[copy].book)) else None;
      if head.Some? && queue[head.value].user != member {
        return Refused(ReservedForOther);
      }

      if copy >= |copies| || !OnShelf(copies[copy]) {
        return Refused(Unclaimable(copies, copy));
      }
      var begun := copies;
      copies := copies[copy := copies[copy].(status := OnLoan)];

      var stock := CountIf(copies, StockOf(copies[copy].book));
      var left := CountIf(copies, ShelfOf(copies[copy].book));
      if stock >= 2 && left == 0 {
        copies := begun;
        return Refused(LastCopyRetained);
      }
      if CountIf(loans, OpenLoanBy(member)) >= limit {
        copies := begun;
        return Refused(LoanLimitReached);
      }
      var loan := |loans|;
      if CountIf(loans, OpenLoanOn(copy)) > 0 {
        copies := begun;
        return Refused(CopyNotAvailable);
      }
      loans := loans + [Loan(copy, member, true)];
      if head.Some? {
        queue := queue[head.value := queue[head.value].(status := Fulfilled)];
      }
      log := log + [AuditLine(actor, IssueEvent(loan, copy, member, self))];
      return Lent(loan);
    }

    method Return(loan: LoanId, librarian: UserId, now: int, hookRuns: bool) returns (reply: Reply)
      requires Valid()
      modifies this
      ensures (State(), reply) == Step(old(State()), Call.Return(loan, librarian, now, hookRuns)) && Valid()
    {
      StepKeepsSound(State(), Call.Return(loan, librarian, now, hookRuns));
      if loan >= |loans| {
        return Refused(NotFound);
      }
      if !loans[loan].open {
        return Refused(LoanAlreadyClosed);
      }
      var l := loans[loan];
      loans := loans[loan := l.(open := false)];
      if l.copy < |copies| && copies[l.copy].status == OnLoan {
        copies := copies[l.copy := copies[l.copy].(status := Available)];
      }
      log := log + [AuditLine(librarian, LoanReturned(loan, l.copy, l.user))];
      if hookRuns && l.copy < |copies| {
        Promote(copies[l.copy].book, now);
      }
      return Done;
    }

    method Promote(book: BookId, now: int)
      modifies this`queue
      ensures queue == PromoteNext(old(queue), book, now)
      ensures DeskOutcomes.NextIsReady(old(queue), queue, book, now)
    {
      DeskOutcomes.PromotesTheNext(queue, book, now);
      var next := First(queue, PendingFor(book));
      if next.Some? {
        queue := queue[next.value := queue[next.value].(status := Ready, expiresAt := Some(now + HOLD_PERIOD))];
      }
    }

    method Reserve(book: BookId, member: UserId) returns (reply: Reply)
      requires Valid()
      modifies this
      ensures (State(), reply) == Step(old(State()), Call.Reserve(book, member)) && Valid()
    {
      StepKeepsSound(State(), Call.Reserve(book, member));
      if CountIf(copies, ReservableOf(book)) == 0 {
        return Refused(NotReservable);
      }
      var stock, available := CountIf(copies, StockOf(book)), CountIf(copies, ShelfOf(book));
      if BorrowableCount(stock, available) > 0 {
        return Refused(CopiesAvailable);
      }
      if CountIf(queue, OpenHoldBy(book, member)) > 0 {
        return Refused(AlreadyReserved);
      }
      if member !in roll {
        return Refused(Conflict);
      }
      var id, position := |queue|, CountIf(queue, PendingFor(book)) + 1;
      queue := queue + [Reservation(book, member, Pending, None)];
      return Queued(id, position);
    }

    method Cancel(hold: HoldId, member: UserId, now: int, hookRuns: bool) returns (reply: Reply)
      requires Valid()
      modifies this
      ensures (State(), reply) == Step(old(State()), Call.Cancel(hold, member, now, hookRuns)) && Valid()
    {
      StepKeepsSound(State(), Call.Cancel(hold, member, now, hookRuns));
      if hold >= |queue| || queue[hold].user != member || !Waiting(queue[hold]) {
        return Refused(NotFound);
      }
      var wasReady := queue[hold].status == Ready;
      queue := queue[hold := queue[hold].(status := Cancelled)];
      if wasReady && hookRuns {
        Promote(queue[hold].book, now);
      }
      return Done;
    }

    method ExpireStale(now: int) returns (reply: Reply)
      requires Valid()
      modifies this
      ensures (State(), reply) == Step(old(State()), Call.ExpireStale(now)) && Valid()
    {
      StepKeepsSound(State(), Call.ExpireStale(now));
      var stale := CountIf(queue, (r: Reservation) => Uncollected(r, now));
      queue := ExpireAll(queue, now);
      return Swept(stale);
    }
  }

  /** Every invariant of the desk at once. */
  ghost predicate Sound(s: State) {
    && DeskCoupling.Coupled(s)
    && DeskQueue.ReadyFirst(s.queue) && DeskQueue.OneHoldEach(s.queue)
    && DeskLending.WithinLimits(s)
    && DeskAudit.Replay(s.log) == DeskAudit.View(s)
  }

  lemma EmptySound(titles: set<BookId>, roll: map<UserId, Account>)
    ensures Sound(Empty(titles, roll))
  {
  }

  /** One service call keeps every invariant, whatever it answers. */
  lemma StepKeepsSound(s: State, call: Call)
    requires Sound(s)
    ensures Sound(Step(s, call).0)
  {
    DeskCoupling.StepKeepsCoupling(s, call);
    DeskQueue.StepKeepsQueue(s, call);
    DeskLending.StepKeepsLimits(s, call);
    DeskAudit.StepAccounted(s, call);
    DeskAudit.AccountedReplay(s, Step(s, call).0);
  }
}
