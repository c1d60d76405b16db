/** When a loan is made, what it leaves behind, and what a refusal leaves behind. */
module DeskLending {
  import opened Tables
  import opened Domain
  import opened DeskModel
  import opened DeskCoupling

  // Renderings of "can it be borrowed"

  function Total(copies: seq<Copy>, b: BookId): nat {
    CountIf(copies, (c: Copy) => c.book == b && c.status != Withdrawn)
  }

  function OnLoanCount(copies: seq<Copy>, b: BookId): nat {
    CountIf(copies, (c: Copy) => c.book == b && c.status == OnLoan)
  }

  function NotForLoan(copies: seq<Copy>, b: BookId): nat {
    CountIf(copies, (c: Copy) => c.book == b && c.status == Available && c.policy != Circulating)
  }

  function Missing(copies: seq<Copy>, b: BookId): nat {
    CountIf(copies, (c: Copy) => c.book == b && (c.status == Lost || c.status == Damaged))
  }

  /** borrowableExpression: the catalogue search's CASE over the copy counts. */
  function BorrowableSql(copies: seq<Copy>, b: BookId): int {
    if CountIf(copies, StockOf(b)) < 2 then CountIf(copies, ShelfOf(b))
    else
      var rest := CountIf(copies, ShelfOf(b)) - 1;
      if rest > 0 then rest else 0
  }

  function Borrowable(copies: seq<Copy>, b: BookId): int {
    BorrowableCount(CountIf(copies, StockOf(b)), CountIf(copies, ShelfOf(b)))
  }

  function AfterClaim(copies: seq<Copy>, c: CopyId): seq<Copy>
    requires c < |copies|
  {
    copies[c := copies[c].(status := OnLoan)]
  }

  predicate Retained(copies: seq<Copy>, b: BookId) {
    CountIf(copies, StockOf(b)) >= 2 && CountIf(copies, ShelfOf(b)) == 0
  }

  /** For a claimable copy, the borrowing transaction's retention test passes exactly when the count was positive. */
  lemma RetentionMatchesCount(copies: seq<Copy>, b: BookId, c: CopyId)
    requires c < |copies| && copies[c].book == b && OnShelf(copies[c])
    ensures !Retained(AfterClaim(copies, c), b) <==> Borrowable(copies, b) > 0
  {
    var lent := copies[c].(status := OnLoan);
    CountUpdate(copies, c, lent, StockOf(b));
    CountUpdate(copies, c, lent, ShelfOf(b));
    CountZero(copies, ShelfOf(b));
  }

  /** One rule, four renderings, on every collection of copies: the search's expression, the
    domain function, the borrowing transaction's retention test and the reservation's test. */
  lemma RenderingsAgree(s: State, b: BookId, member: UserId)
    ensures BorrowableSql(s.copies, b) == Borrowable(s.copies, b)
    ensures Step(s, Reserve(b, member)).1 == Refused(CopiesAvailable) <==> Borrowable(s.copies, b) > 0
    ensures forall c: CopyId :: c < |s.copies| && ShelfOf(b)(s.copies[c]) ==>
      (!Retained(AfterClaim(s.copies, c), b) <==> Borrowable(s.copies, b) > 0)
  {
    CountZero(s.copies, ReservableOf(b));
    CountZero(s.copies, ShelfOf(b));
    forall c: CopyId | c < |s.copies| && ShelfOf(b)(s.copies[c])
      ensures ReservableOf(b)(s.copies[c])
      ensures !Retained(AfterClaim(s.copies, c), b) <==> Borrowable(s.copies, b) > 0
    {
      RetentionMatchesCount(s.copies, b, c);
    }
  }

  /** The counts a catalogue page shows add up: what is neither on the shelf, out nor
    kept in the building is lost or damaged, and nothing is counted twice. */
  lemma CountsPartitionTotal(copies: seq<Copy>, b: BookId)
    ensures Total(copies, b)
      == CountIf(copies, ShelfOf(b)) + OnLoanCount(copies, b) + NotForLoan(copies, b) + Missing(copies, b)
  {
    var onLoan := (c: Copy) => c.book == b && c.status == OnLoan;
    var inHouse := (c: Copy) => c.book == b && c.status == Available && c.policy != Circulating;
    var missing := (c: Copy) => c.book == b && (c.status == Lost || c.status == Damaged);
    var total := (c: Copy) => c.book == b && c.status != Withdrawn;
    var lendable := (c: Copy) => ShelfOf(b)(c) || onLoan(c);
    var kept := (c: Copy) => inHouse(c) || missing(c);
    CountSplit(copies, ShelfOf(b), onLoan, lendable);
    CountSplit(copies, inHouse, missing, kept);
    CountSplit(copies, lendable, kept, total);
  }

  // When a loan is made

  /** Nobody but the member is at the front of the queue for the copy's title. */
  ghost predicate FirstInLine(s: State, copy: CopyId, member: UserId) {
    copy < |s.copies| ==>
      forall r :: 0 <= r < |s.queue| && WaitingFor(s.copies[copy].book)(s.queue[r])
        && (forall j :: 0 <= j < r ==> !WaitingFor(s.copies[copy].book)(s.queue[j]))
        ==> s.queue[r].user == member
  }

  ghost predicate Claimable(s: State, copy: CopyId) {
    copy < |s.copies| && OnShelf(s.copies[copy])
  }

  ghost predicate SpareCopy(s: State, copy: CopyId)
    requires copy < |s.copies|
  {
    Borrowable(s.copies, s.copies[copy].book) > 0
  }

  ghost predicate UnderLimit(s: State, member: UserId, limit: nat) {
    CountIf(s.loans, OpenLoanBy(member)) < limit
  }

  /** The outcome of every lending transaction on a coupled desk: lent exactly when all
    four conditions hold, and otherwise the refusal names the first that fails. */
  lemma LendingOutcome(s: State, copy: CopyId, member: UserId, actor: UserId, limit: nat, self: bool)
    requires Coupled(s)
    ensures var reply := BorrowTransaction(s, copy, member, actor, limit, self).1;
      && (reply.Lent? <==>
            FirstInLine(s, copy, member) && Claimable(s, copy) && SpareCopy(s, copy) && UnderLimit(s, member, limit))
      && (reply == Refused(ReservedForOther) <==> !FirstInLine(s, copy, member))
      && (reply == Refused(LastCopyRetained) <==>
            FirstInLine(s, copy, member) && Claimable(s, copy) && !SpareCopy(s, copy))
      && (reply == Refused(LoanLimitReached) <==>
            FirstInLine(s, copy, member) && Claimable(s, copy) && SpareCopy(s, copy) && !UnderLimit(s, member, limit))
      && (reply in {Refused(CopyNotFound), Refused(CopyNotBorrowable), Refused(CopyNotAvailable)} <==>
            FirstInLine(s, copy, member) && !Claimable(s, copy))
  {
    var head := HeadFor(s, copy);
    if head.Some? {
      assert WaitingFor(s.copies[copy].book)(s.queue[head.value]);
    }
    assert FirstInLine(s, copy, member) <==> (head.None? || s.queue[head.value].user == member);
    if Claimable(s, copy) {
      RetentionMatchesCount(s.copies, s.copies[copy].book, copy);
    }
  }

  /** A loan opens a custody record for the member, takes the copy off the shelf and
    finishes the member's own reservation if one was at the front. */
  lemma LoanEffect(s: State, copy: CopyId, member: UserId, actor: UserId, limit: nat, self: bool)
    requires BorrowTransaction(s, copy, member, actor, limit, self).1.Lent?
    ensures var s' := BorrowTransaction(s, copy, member, actor, limit, self).0;
      && CountIf(s'.loans, OpenLoanBy(member)) == CountIf(s.loans, OpenLoanBy(member)) + 1
      && (forall u :: u != member ==> CountIf(s'.loans, OpenLoanBy(u)) == CountIf(s.loans, OpenLoanBy(u)))
      && CountIf(s'.copies, ShelfOf(s.copies[copy].book)) == CountIf(s.copies, ShelfOf(s.copies[copy].book)) - 1
      && (forall c :: 0 <= c < |s.copies| && c != copy ==> s'.copies[c] == s.copies[c])
      && (forall r :: 0 <= r < |s.queue| && s.queue[r].user != member ==> s'.queue[r] == s.queue[r])
  {
    CountUpdate(s.copies, copy, s.copies[copy].(status := OnLoan), ShelfOf(s.copies[copy].book));
    forall u {
      CountAppend(s.loans, Loan(copy, member, true), OpenLoanBy(u));
    }
  }

  // Limits

  function LimitOf(roll: map<UserId, Account>, u: UserId): nat {
    if u in roll && roll[u].category.Some? then LoanLimit(roll[u].category.value) else 0
  }

  ghost predicate WithinLimits(s: State) {
    forall u :: CountIf(s.loans, OpenLoanBy(u)) <= LimitOf(s.roll, u)
  }

  lemma BorrowKeepsLimits(s: State, copy: CopyId, member: UserId, actor: UserId, limit: nat, self: bool)
    requires WithinLimits(s) && limit <= LimitOf(s.roll, member)
    ensures WithinLimits(BorrowTransaction(s, copy, member, actor, limit, self).0)
  {
    forall u {
      CountAppend(s.loans, Loan(copy, member, true), OpenLoanBy(u));
    }
  }

  lemma StepKeepsLimits(s: State, call: Call)
    requires WithinLimits(s)
    ensures WithinLimits(Step(s, call).0)
  {
    match call
    case Borrow(copy, member, staff) =>
      var e := EntitlementOf(s.roll, member, false);
      if e.Entitled? { BorrowKeepsLimits(s, copy, member, staff, e.limit, false); }
    case SelfCheckout(copy, member) =>
      var e := EntitlementOf(s.roll, member, true);
      if e.Entitled? { BorrowKeepsLimits(s, copy, member, member, e.limit, true); }
    case Return(loan, _, _, _) =>
      if loan < |s.loans| {
        forall u { CountUpdate(s.loans, loan, s.loans[loan].(open := false), OpenLoanBy(u)); }
      }
    case UpdateCopy(copy, _, _, _) =>
      forall u { CountShrinks(s.loans, CloseLoansOn(s.loans, copy), OpenLoanBy(u)); }
    case AddCopy(_, _, _, _) =>
    case Reserve(_, _) =>
    case Cancel(_, _, _, _) =>
    case ExpireStale(_) =>
  }

  /** No run of the desk leaves anyone with more open loans than their category allows. */
  lemma {:induction false} LimitsHoldInEveryRun(titles: set<BookId>, roll: map<UserId, Account>, calls: seq<Call>)
    ensures WithinLimits(Run(Empty(titles, roll), calls))
  {
    var start := Empty(titles, roll);
    if calls == [] {
      forall u { CountZero(start.loans, OpenLoanBy(u)); }
    } else {
      LimitsHoldInEveryRun(titles, roll, calls[..|calls| - 1]);
      StepKeepsLimits(Run(start, calls[..|calls| - 1]), calls[|calls| - 1]);
    }
  }

  // Refusals

  /** Reporting a borrowed copy lost or damaged and changing its policy in one call. */
  predicate HalfApplied(s: State, call: Call) {
    && call.UpdateCopy? && call.copy < |s.copies| && s.copies[call.copy].status == OnLoan
    && call.newPolicy.Some? && call.newStatus.Some? && ClosesAnOpenLoan(call.newStatus.value)
  }

  /** A refused call leaves every table as it was, except the one half-applied edit. */
  lemma RefusalChangesNothing(s: State, call: Call)
    requires Step(s, call).1.Refused?
    ensures Step(s, call).0 == s <==> !HalfApplied(s, call)
    ensures HalfApplied(s, call) ==>
      && Step(s, call).0 == MarkCopy(s, call.copy, call.newStatus.value, call.staff)
      && Step(s, call).1 == Refused(CopyIsOnLoan)
  {
  }

  /** Marking a borrowed copy closes its loan and no other, and frees its borrower's allowance. */
  lemma MarkClosesTheLoan(s: State, copy: CopyId, status: CopyStatus, staff: UserId)
    requires Coupled(s) && copy < |s.copies| && s.copies[copy].status == OnLoan && ClosesAnOpenLoan(status)
    ensures var reply := Step(s, UpdateCopy(copy, None, Some(status), staff));
      && reply.1 == Done && reply.0.copies[copy].status == status
      && CountIf(reply.0.loans, OpenLoanOn(copy)) == 0
      && (forall l :: 0 <= l < |s.loans| && s.loans[l].copy != copy ==> reply.0.loans[l] == s.loans[l])
      && (exists l :: 0 <= l < |s.loans| && s.loans[l].copy == copy && s.loans[l].open && !reply.0.loans[l].open)
  {
  }
}
