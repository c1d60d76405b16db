/** Entities and constants of the library (internal/domain/domain.go). */
module Domain {
  import opened Tables

  type BookId = nat
  type CopyId = nat
  type UserId = nat
  type LoanId = nat
  type HoldId = nat

  datatype LoanPolicy = Circulating | ReferenceOnly | OnDisplay | Restricted
  datatype CopyStatus = Available | OnLoan | Lost | Damaged | Withdrawn

  datatype Role = MemberRole | LibrarianRole | AdminRole
  datatype UserStatus = Active | Suspended | Inactive
  datatype Category = Undergraduate | Postgraduate | Staff

  datatype Account = Account(role: Role, status: UserStatus, category: Option<Category>)

  /** One physical volume of a title. */
  datatype Copy = Copy(book: BookId, accession: string, policy: LoanPolicy, status: CopyStatus)

  /** Custody of one copy by one member; `open` means `returned_at IS NULL`. */
  datatype Loan = Loan(copy: CopyId, user: UserId, open: bool)

  datatype HoldStatus = Pending | Ready | Fulfilled | Cancelled | Expired

  datatype Reservation = Reservation(book: BookId, user: UserId, status: HoldStatus, expiresAt: Option<int>)

  datatype Error =
    | NotFound | Forbidden | Conflict
    | MemberSuspended | MemberNotActive | NoCategory
    | ReservedForOther | CopyNotFound | CopyNotAvailable | CopyNotBorrowable
    | LastCopyRetained | LoanLimitReached | LoanAlreadyClosed
    | DuplicateAccession | InvalidTransition | CopyIsOnLoan
    | NotReservable | CopiesAvailable | AlreadyReserved
    | InvalidMemberCategory

  /** How long a promoted reader has to collect the book, in nanoseconds. */
  const HOLD_PERIOD: int := 3 * 24 * 3600 * 1_000_000_000

  const COPY_TRANSITIONS: map<CopyStatus, seq<CopyStatus>> := map[
    Available := [Damaged, Lost, Withdrawn],
    OnLoan := [Lost, Damaged],
    Lost := [Available, Withdrawn],
    Damaged := [Available, Withdrawn],
    Withdrawn := []
  ]

  predicate CanTransitionTo(current: CopyStatus, next: CopyStatus) {
    current == next || (current in COPY_TRANSITIONS && next in COPY_TRANSITIONS[current])
  }

  predicate ClosesAnOpenLoan(next: CopyStatus) {
    next == Lost || next == Damaged
  }

  /** MaxConcurrentLoans of the category's terms. */
  function LoanLimit(c: Category): nat {
    match c
    case Undergraduate => 2
    case Postgraduate => 4
    case Staff => 6
  }

  function BorrowableCount(stock: int, available: int): int {
    if stock < 2 then available
    else if available <= 1 then 0
    else available - 1
  }

  // Row predicates: the WHERE clauses over copies, loans and reservations.

  predicate OnShelf(c: Copy) {
    c.policy == Circulating && c.status == Available
  }

  predicate InStock(c: Copy) {
    c.policy == Circulating && (c.status == Available || c.status == OnLoan)
  }

  predicate Reservable(c: Copy) {
    (c.policy == Circulating || c.policy == OnDisplay) && c.status != Withdrawn
  }

  predicate Waiting(r: Reservation) {
    r.status == Pending || r.status == Ready
  }

  function ShelfOf(b: BookId): Copy -> bool {
    (c: Copy) => c.book == b && OnShelf(c)
  }

  function StockOf(b: BookId): Copy -> bool {
    (c: Copy) => c.book == b && InStock(c)
  }

  function ReservableOf(b: BookId): Copy -> bool {
    (c: Copy) => c.book == b && Reservable(c)
  }

  function OpenLoanBy(u: UserId): Loan -> bool {
    (l: Loan) => l.user == u && l.open
  }

  function OpenLoanOn(c: CopyId): Loan -> bool {
    (l: Loan) => l.copy == c && l.open
  }

  function WaitingFor(b: BookId): Reservation -> bool {
    (r: Reservation) => r.book == b && Waiting(r)
  }

  function PendingFor(b: BookId): Reservation -> bool {
    (r: Reservation) => r.book == b && r.status == Pending
  }

  function ReadyFor(b: BookId): Reservation -> bool {
    (r: Reservation) => r.book == b && r.status == Ready
  }
}
