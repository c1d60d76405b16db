/** The circulation desk as a state machine: one service call is one step.

  `Step` follows the services and the transactions they run, branch by branch
  and in the order the code tests them. The class in desk.dfy is proved to
  compute exactly these steps by updating its tables in place. */
module DeskModel {
  import opened Tables
  import opened Domain
  import Text

  datatype Event =
    | CopyAdded(copy: CopyId, book: BookId, accession: string, policy: LoanPolicy)
    | CopyUpdated(copy: CopyId, newPolicy: Option<LoanPolicy>, newStatus: Option<CopyStatus>)
    | CopyMarked(copy: CopyId, status: CopyStatus)
    | LoanIssued(loan: LoanId, copy: CopyId, member: UserId)
    | SelfCheckedOut(loan: LoanId, copy: CopyId, member: UserId)
    | LoanReturned(loan: LoanId, copy: CopyId, member: UserId)

  datatype AuditLine = AuditLine(actor: UserId, event: Event)

  /** `titles` and `roll` are the books and accounts; no desk call changes them. */
  datatype State = State(
    titles: set<BookId>,
    roll: map<UserId, Account>,
    copies: seq<Copy>,
    loans: seq<Loan>,
    queue: seq<Reservation>,
    log: seq<AuditLine>)

  /** A service call. `now` is the clock it reads; `hookRuns` is false when the
    promotion that follows a return or a cancellation failed and was swallowed. */
  datatype Call =
    | AddCopy(book: BookId, accession: string, policy: Option<LoanPolicy>, staff: UserId)
    | UpdateCopy(copy: CopyId, newPolicy: Option<LoanPolicy>, newStatus: Option<CopyStatus>, staff: UserId)
    | Borrow(copy: CopyId, member: UserId, staff: UserId)
    | SelfCheckout(copy: CopyId, member: UserId)
    | Return(loan: LoanId, staff: UserId, now: int, hookRuns: bool)
    | Reserve(book: BookId, member: UserId)
    | Cancel(hold: HoldId, member: UserId, now: int, hookRuns: bool)
    | ExpireStale(now: int)

  datatype Reply =
    | Done
    | Added(copy: CopyId)
    | Lent(loan: LoanId)
    | Queued(hold: HoldId, position: nat)
    | Swept(count: nat)
    | Refused(error: Error)

  function Empty(titles: set<BookId>, roll: map<UserId, Account>): State {
    State(titles, roll, [], [], [], [])
  }

  function Step(s: State, call: Call): (State, Reply) {
    match call
    case AddCopy(book, accession, policy, staff) => AddCopyStep(s, book, accession, policy, staff)
    case UpdateCopy(copy, policy, status, staff) => UpdateCopyStep(s, copy, policy, status, staff)
    case Borrow(copy, member, staff) => LendingStep(s, copy, member, staff, false)
    case SelfCheckout(copy, member) => LendingStep(s, copy, member, member, true)
    case Return(loan, staff, now, hookRuns) => ReturnStep(s, loan, staff, now, hookRuns)
    case Reserve(book, member) => ReserveStep(s, book, member)
    case Cancel(hold, member, now, hookRuns) => CancelStep(s, hold, member, now, hookRuns)
    case ExpireStale(now) => ExpireStep(s, now)
  }

  // Copies

  predicate AccessionTaken(copies: seq<Copy>, accession: string) {
    exists c :: 0 <= c < |copies| && copies[c].accession == accession
  }

  function AddCopyStep(s: State, book: BookId, accession: string, policy: Option<LoanPolicy>,
                       staff: UserId): (State, Reply) {
    var number := Text.Trim(accession);
    if number == "" || AccessionTaken(s.copies, number) then (s, Refused(DuplicateAccession))
    else if book !in s.titles then (s, Refused(Conflict))
    else
      var copy := Copy(book, number, policy.GetOr(Circulating), Available);
      var line := AuditLine(staff, CopyAdded(|s.copies|, book, number, copy.policy));
      (s.(copies := s.copies + [copy], log := s.log + [line]), Added(|s.copies|))
  }

  /** CatalogueService.UpdateCopy: checks against the status it read, then at most
    two repository transactions. The first may stand when the second is refused. */
  function UpdateCopyStep(s: State, copy: CopyId, policy: Option<LoanPolicy>, status: Option<CopyStatus>,
                          staff: UserId): (State, Reply) {
    if copy >= |s.copies| then (s, Refused(NotFound))
    else
      var current := s.copies[copy].status;
      if status.Some? && !CanTransitionTo(current, status.value) then (s, Refused(InvalidTransition))
      else
        var closes := status.Some? && status.value != current && current == OnLoan && ClosesAnOpenLoan(status.value);
        var s' := if closes then MarkCopy(s, copy, status.value, staff) else s;
        var rest := if closes then None else status;
        if policy.Some? && current == OnLoan then (s', Refused(CopyIsOnLoan))
        else if policy.None? && rest.None? then (s', Done)
        else (EditCopy(s', copy, policy, rest, staff), Done)
  }

  /** SetCopyStatusClosingLoan: every open loan on the copy closes with the status change. */
  function MarkCopy(s: State, copy: CopyId, status: CopyStatus, staff: UserId): State
    requires copy < |s.copies|
  {
    s.(loans := CloseLoansOn(s.loans, copy),
       copies := s.copies[copy := s.copies[copy].(status := status)],
       log := s.log + [AuditLine(staff, CopyMarked(copy, status))])
  }

  function CloseLoansOn(loans: seq<Loan>, copy: CopyId): (r: seq<Loan>)
    ensures |r| == |loans|
    ensures forall l :: 0 <= l < |loans| ==>
      r[l] == if loans[l].copy == copy then loans[l].(open := false) else loans[l]
  {
    seq(|loans|, l requires 0 <= l < |loans| => if loans[l].copy == copy then loans[l].(open := false) else loans[l])
  }

  /** The repository's UpdateCopy: a given field is written, an omitted one left alone. */
  function EditCopy(s: State, copy: CopyId, policy: Option<LoanPolicy>, status: Option<CopyStatus>,
                    staff: UserId): State
    requires copy < |s.copies|
  {
    s.(copies := s.copies[copy := Edited(s.copies[copy], policy, status)],
       log := s.log + [AuditLine(staff, CopyUpdated(copy, policy, status))])
  }

  function Edited(c: Copy, policy: Option<LoanPolicy>, status: Option<CopyStatus>): Copy {
    c.(policy := policy.GetOr(c.policy), status := status.GetOr(c.status))
  }

  // Lending

  datatype Entitlement = Entitled(limit: nat) | NotEntitled(error: Error)

  function EntitlementOf(roll: map<UserId, Account>, member: UserId, self: bool): Entitlement {
    if member !in roll then NotEntitled(NotFound)
    else
      var account := roll[member];
      if self && account.role != MemberRole then NotEntitled(Forbidden)
      else if self && account.status == Suspended then NotEntitled(MemberSuspended)
      else if account.status != Active then NotEntitled(MemberNotActive)
      else if account.category.None? then NotEntitled(NoCategory)
      else Entitled(LoanLimit(account.category.value))
  }

  function LendingStep(s: State, copy: CopyId, member: UserId, actor: UserId, self: bool): (State, Reply) {
    match EntitlementOf(s.roll, member, self)
    case NotEntitled(error) => (s, Refused(error))
    case Entitled(limit) => BorrowTransaction(s, copy, member, actor, limit, self)
  }

  /** The reservation at the front of the queue for the copy's title. */
  function HeadFor(s: State, copy: CopyId): Option<HoldId> {
    if copy < |s.copies| then First(s.queue, WaitingFor(s.copies[copy].book)) else None
  }

  function Unclaimable(copies: seq<Copy>, copy: CopyId): Error {
    if copy >= |copies| then CopyNotFound
    else if copies[copy].policy != Circulating then CopyNotBorrowable
    else CopyNotAvailable
  }

  function BorrowTransaction(s: State, copy: CopyId, member: UserId, actor: UserId, limit: nat,
                             self: bool): (State, Reply) {
    var head := HeadFor(s, copy);
    if head.Some? && s.queue[head.value].user != member then (s, Refused(ReservedForOther))
    else if copy >= |s.copies| || !OnShelf(s.copies[copy]) then (s, Refused(Unclaimable(s.copies, copy)))
    else
      var copies := s.copies[copy := s.copies[copy].(status := OnLoan)];
      var book := s.copies[copy].book;
      if CountIf(copies, StockOf(book)) >= 2 && CountIf(copies, ShelfOf(book)) == 0 then
        (s, Refused(LastCopyRetained))
      else if CountIf(s.loans, OpenLoanBy(member)) >= limit then (s, Refused(LoanLimitReached))
      else if CountIf(s.loans, OpenLoanOn(copy)) > 0 then (s, Refused(CopyNotAvailable))
      else
        (s.(copies := copies,
            loans := s.loans + [Loan(copy, member, true)],
            queue := Fulfil(s.queue, head),
            log := s.log + [AuditLine(actor, IssueEvent(|s.loans|, copy, member, self))]),
         Lent(|s.loans|))
  }

  function IssueEvent(loan: LoanId, copy: CopyId, member: UserId, self: bool): Event {
    if self then SelfCheckedOut(loan, copy, member) else LoanIssued(loan, copy, member)
  }

  function Fulfil(queue: seq<Reservation>, head: Option<HoldId>): seq<Reservation>
    requires head.Some? ==> head.value < |queue|
  {
    if head.None? then queue else queue[head.value := queue[head.value].(status := Fulfilled)]
  }

  // Returns and the queue

  function ReturnStep(s: State, loan: LoanId, staff: UserId, now: int, hookRuns: bool): (State, Reply) {
    if loan >= |s.loans| then (s, Refused(NotFound))
    else if !s.loans[loan].open then (s, Refused(LoanAlreadyClosed))
    else
      var l := s.loans[loan];
      var s' := s.(loans := s.loans[loan := l.(open := false)],
                   copies := Reshelve(s.copies, l.copy),
                   log := s.log + [AuditLine(staff, LoanReturned(loan, l.copy, l.user))]);
      (if hookRuns && l.copy < |s.copies| then s'.(queue := PromoteNext(s.queue, s.copies[l.copy].book, now)) else s',
       Done)
  }

  function Reshelve(copies: seq<Copy>, copy: CopyId): seq<Copy> {
    if copy < |copies| && copies[copy].status == OnLoan
    then copies[copy := copies[copy].(status := Available)] else copies
  }

  function PromoteNext(queue: seq<Reservation>, book: BookId, now: int): seq<Reservation> {
    match First(queue, PendingFor(book))
    case None => queue
    case Some(r) => queue[r := queue[r].(status := Ready, expiresAt := Some(now + HOLD_PERIOD))]
  }

  function OpenHoldBy(book: BookId, member: UserId): Reservation -> bool {
    (r: Reservation) => r.book == book && r.user == member && Waiting(r)
  }

  function ReserveStep(s: State, book: BookId, member: UserId): (State, Reply) {
    if CountIf(s.copies, ReservableOf(book)) == 0 then (s, Refused(NotReservable))
    else if BorrowableCount(CountIf(s.copies, StockOf(book)), CountIf(s.copies, ShelfOf(book))) > 0 then
      (s, Refused(CopiesAvailable))
    else if CountIf(s.queue, OpenHoldBy(book, member)) > 0 then (s, Refused(AlreadyReserved))
    else if member !in s.roll then (s, Refused(Conflict))
    else
      (s.(queue := s.queue + [Reservation(book, member, Pending, None)]),
       Queued(|s.queue|, CountIf(s.queue, PendingFor(book)) + 1))
  }

  function CancelStep(s: State, hold: HoldId, member: UserId, now: int, hookRuns: bool): (State, Reply) {
    if hold >= |s.queue| || s.queue[hold].user != member || !Waiting(s.queue[hold]) then (s, Refused(NotFound))
    else
      var queue := s.queue[hold := s.queue[hold].(status := Cancelled)];
      (if s.queue[hold].status == Ready && hookRuns
       then s.(queue := PromoteNext(queue, s.queue[hold].book, now)) else s.(queue := queue),
       Done)
  }

  predicate Uncollected(r: Reservation, now: int) {
    r.status == Ready && r.expiresAt.Some? && r.expiresAt.value < now
  }

  function ExpireStep(s: State, now: int): (State, Reply) {
    (s.(queue := ExpireAll(s.queue, now)), Swept(CountIf(s.queue, (r: Reservation) => Uncollected(r, now))))
  }

  function ExpireAll(queue: seq<Reservation>, now: int): (r: seq<Reservation>)
    ensures |r| == |queue|
    ensures forall i :: 0 <= i < |queue| ==>
      r[i] == if Uncollected(queue[i], now) then queue[i].(status := Expired) else queue[i]
  {
    seq(|queue|, i requires 0 <= i < |queue| =>
      if Uncollected(queue[i], now) then queue[i].(status := Expired) else queue[i])
  }

  // Runs

  function Run(s: State, calls: seq<Call>): State {
    if calls == [] then s else Step(Run(s, calls[..|calls| - 1]), calls[|calls| - 1]).0
  }

  /** The state after the first `k` calls of a run that starts empty. */
  function After(titles: set<BookId>, roll: map<UserId, Account>, calls: seq<Call>, k: nat): State
    requires k <= |calls|
  {
    Run(Empty(titles, roll), calls[..k])
  }

  lemma AfterStep(titles: set<BookId>, roll: map<UserId, Account>, calls: seq<Call>, k: nat)
    requires k < |calls|
    ensures After(titles, roll, calls, k + 1) == Step(After(titles, roll, calls, k), calls[k]).0
  {
    assert calls[..k + 1][..k] == calls[..k];
  }
}
