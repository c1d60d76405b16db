/** The reservation queue over whole runs: order, fulfilment and holds against the shelf. */
module DeskQueue {
  import opened Tables
  import opened Domain
  import opened DeskModel
  import opened DeskCoupling

  /** For one title, every ready reservation was made before every pending one. */
  ghost predicate ReadyFirst(queue: seq<Reservation>) {
    forall i, j :: 0 <= i < j < |queue| && queue[i].book == queue[j].book && queue[i].status == Pending
      ==> queue[j].status != Ready
  }

  /** A member waits for a title at most once. */
  ghost predicate OneHoldEach(queue: seq<Reservation>) {
    forall b, u :: CountIf(queue, OpenHoldBy(b, u)) <= 1
  }

  lemma PromoteKeepsOrder(queue: seq<Reservation>, book: BookId, now: int)
    requires ReadyFirst(queue)
    ensures ReadyFirst(PromoteNext(queue, book, now))
  {
  }

  lemma PromoteKeepsHolds(queue: seq<Reservation>, book: BookId, now: int)
    requires OneHoldEach(queue)
    ensures OneHoldEach(PromoteNext(queue, book, now))
  {
    var queue' := PromoteNext(queue, book, now);
    forall b, u
      ensures CountIf(queue', OpenHoldBy(b, u)) <= 1
    {
      CountSame(queue, queue', OpenHoldBy(b, u));
    }
  }

  /** A promotion readies at most one reservation, and only for its own title. */
  lemma PromoteReadiesOne(queue: seq<Reservation>, book: BookId, now: int, b: BookId)
    ensures CountIf(PromoteNext(queue, book, now), ReadyFor(b)) <= CountIf(queue, ReadyFor(b)) + Bit(b == book)
  {
    var next := First(queue, PendingFor(book));
    if next.Some? {
      var r := next.value;
      CountUpdate(queue, r, queue[r].(status := Ready, expiresAt := Some(now + HOLD_PERIOD)), ReadyFor(b));
    }
  }

  lemma FinishKeepsQueue(queue: seq<Reservation>, r: HoldId, status: HoldStatus)
    requires ReadyFirst(queue) && OneHoldEach(queue) && r < |queue| && Final(status)
    ensures ReadyFirst(queue[r := queue[r].(status := status)])
    ensures OneHoldEach(queue[r := queue[r].(status := status)])
  {
    var queue' := queue[r := queue[r].(status := status)];
    forall b, u
      ensures CountIf(queue', OpenHoldBy(b, u)) <= 1
    {
      CountShrinks(queue, queue', OpenHoldBy(b, u));
    }
  }

  lemma JoinKeepsQueue(s: State, book: BookId, member: UserId)
    requires ReadyFirst(s.queue) && OneHoldEach(s.queue)
    ensures ReadyFirst(ReserveStep(s, book, member).0.queue)
    ensures OneHoldEach(ReserveStep(s, book, member).0.queue)
  {
    var queue' := ReserveStep(s, book, member).0.queue;
    if queue' != s.queue {
      forall b, u
        ensures CountIf(queue', OpenHoldBy(b, u)) <= 1
      {
        CountAppend(s.queue, Reservation(book, member, Pending, None), OpenHoldBy(b, u));
      }
    }
  }

  lemma ExpireKeepsQueue(queue: seq<Reservation>, now: int)
    requires ReadyFirst(queue) && OneHoldEach(queue)
    ensures ReadyFirst(ExpireAll(queue, now)) && OneHoldEach(ExpireAll(queue, now))
  {
    forall b, u
      ensures CountIf(ExpireAll(queue, now), OpenHoldBy(b, u)) <= 1
    {
      CountShrinks(queue, ExpireAll(queue, now), OpenHoldBy(b, u));
    }
  }

  lemma CancelKeepsQueue(s: State, hold: HoldId, member: UserId, now: int, hookRuns: bool)
    requires ReadyFirst(s.queue) && OneHoldEach(s.queue)
    ensures ReadyFirst(CancelStep(s, hold, member, now, hookRuns).0.queue)
    ensures OneHoldEach(CancelStep(s, hold, member, now, hookRuns).0.queue)
  {
    if hold < |s.queue| {
      FinishKeepsQueue(s.queue, hold, Cancelled);
      var queue' := s.queue[hold := s.queue[hold].(status := Cancelled)];
      PromoteKeepsOrder(queue', s.queue[hold].book, now);
      PromoteKeepsHolds(queue', s.queue[hold].book, now);
    }
  }

  lemma BorrowKeepsQueue(s: State, copy: CopyId, member: UserId, actor: UserId, limit: nat, self: bool)
    requires ReadyFirst(s.queue) && OneHoldEach(s.queue)
    ensures ReadyFirst(BorrowTransaction(s, copy, member, actor, limit, self).0.queue)
    ensures OneHoldEach(BorrowTransaction(s, copy, member, actor, limit, self).0.queue)
  {
    var head := HeadFor(s, copy);
    if head.Some? {
      FinishKeepsQueue(s.queue, head.value, Fulfilled);
    }
  }

  lemma StepKeepsQueue(s: State, call: Call)
    requires ReadyFirst(s.queue) && OneHoldEach(s.queue)
    ensures ReadyFirst(Step(s, call).0.queue) && OneHoldEach(Step(s, call).0.queue)
  {
    match call
    case Borrow(copy, member, staff) =>
      var e := EntitlementOf(s.roll, member, false);
      if e.Entitled? { BorrowKeepsQueue(s, copy, member, staff, e.limit, false); }
    case SelfCheckout(copy, member) =>
      var e := EntitlementOf(s.roll, member, true);
      if e.Entitled? { BorrowKeepsQueue(s, copy, member, member, e.limit, true); }
    case Return(loan, _, now, _) =>
      if loan < |s.loans| && s.loans[loan].copy < |s.copies| {
        PromoteKeepsOrder(s.queue, s.copies[s.loans[loan].copy].book, now);
        PromoteKeepsHolds(s.queue, s.copies[s.loans[loan].copy].book, now);
      }
    case Reserve(book, member) => JoinKeepsQueue(s, book, member);
    case Cancel(hold, member, now, hookRuns) => CancelKeepsQueue(s, hold, member, now, hookRuns);
    case ExpireStale(now) => ExpireKeepsQueue(s.queue, now);
    case AddCopy(_, _, _, _) =>
    case UpdateCopy(_, _, _, _) =>
  }

  lemma {:induction false} QueueSoundInEveryRun(titles: set<BookId>, roll: map<UserId, Account>, calls: seq<Call>)
    ensures ReadyFirst(Run(Empty(titles, roll), calls).queue)
    ensures OneHoldEach(Run(Empty(titles, roll), calls).queue)
  {
    var start := Empty(titles, roll);
    if calls == [] {
      forall b, u ensures CountIf(start.queue, OpenHoldBy(b, u)) <= 1 { CountZero(start.queue, OpenHoldBy(b, u)); }
    } else {
      QueueSoundInEveryRun(titles, roll, calls[..|calls| - 1]);
      StepKeepsQueue(Run(start, calls[..|calls| - 1]), calls[|calls| - 1]);
    }
  }

  // Holds against the shelf

  function Holds(s: State, b: BookId): nat {
    CountIf(s.queue, ReadyFor(b))
  }

  function Shelf(s: State, b: BookId): nat {
    CountIf(s.copies, ShelfOf(b))
  }

  /** The call is an edit of a copy of `b` on the shelf to a policy other than circulating, or by a
    permitted transition to a status other than available. */
  predicate TakesOffShelf(s: State, call: Call, b: BookId) {
    && call.UpdateCopy? && call.copy < |s.copies| && ShelfOf(b)(s.copies[call.copy])
    && (call.newStatus.Some? ==> CanTransitionTo(Available, call.newStatus.value))
    && (call.newPolicy.GetOr(Circulating) != Circulating || call.newStatus.GetOr(Available) != Available)
  }

  /** The call is an edit of a copy of `b` that is neither on the shelf nor out, by a permitted
    transition if any, to circulating and available. */
  predicate PutsOnShelf(s: State, call: Call, b: BookId) {
    && call.UpdateCopy? && call.copy < |s.copies|
    && var c := s.copies[call.copy];
       && c.book == b && !OnShelf(c) && c.status != OnLoan
       && (call.newStatus.Some? ==> CanTransitionTo(c.status, call.newStatus.value))
       && call.newPolicy.GetOr(c.policy) == Circulating && call.newStatus.GetOr(c.status) == Available
  }

  /** What an edit does to the shelf, told from its fields. */
  lemma EditMovesShelf(s: State, call: Call, b: BookId)
    requires Coupled(s) && call.UpdateCopy?
    ensures Shelf(Step(s, call).0, b)
      == Shelf(s, b) + Bit(PutsOnShelf(s, call, b)) - Bit(TakesOffShelf(s, call, b))
  {
    var s' := Step(s, call).0;
    if call.copy < |s.copies| {
      assert s'.copies == s.copies[call.copy := s'.copies[call.copy]];
      CountUpdate(s.copies, call.copy, s'.copies[call.copy], ShelfOf(b));
    }
  }

  function OffShelfEdits(titles: set<BookId>, roll: map<UserId, Account>, calls: seq<Call>, b: BookId): nat {
    if calls == [] then 0
    else
      var front := calls[..|calls| - 1];
      OffShelfEdits(titles, roll, front, b)
      + Bit(TakesOffShelf(Run(Empty(titles, roll), front), calls[|calls| - 1], b))
  }

  /** If a pending reservation heads the queue, nobody holds a copy. */
  lemma PendingHeadMeansNoHolds(queue: seq<Reservation>, b: BookId, head: HoldId)
    requires ReadyFirst(queue) && head < |queue| && First(queue, WaitingFor(b)) == Some(head)
    requires queue[head].status == Pending
    ensures CountIf(queue, ReadyFor(b)) == 0
  {
  }

  lemma BorrowKeepsHolds(s: State, copy: CopyId, member: UserId, actor: UserId, limit: nat, self: bool, b: BookId,
                         edits: nat)
    requires ReadyFirst(s.queue) && Holds(s, b) <= Shelf(s, b) + edits
    ensures var s' := BorrowTransaction(s, copy, member, actor, limit, self).0; Holds(s', b) <= Shelf(s', b) + edits
  {
    var (s', reply) := BorrowTransaction(s, copy, member, actor, limit, self);
    if reply.Lent? {
      var head := HeadFor(s, copy);
      CountUpdate(s.copies, copy, s.copies[copy].(status := OnLoan), ShelfOf(b));
      if head.Some? {
        CountUpdate(s.queue, head.value, s.queue[head.value].(status := Fulfilled), ReadyFor(b));
        if s.copies[copy].book == b && s.queue[head.value].status == Pending {
          PendingHeadMeansNoHolds(s.queue, b, head.value);
        }
      } else if s.copies[copy].book == b {
        CountZero(s.queue, ReadyFor(b));
        assert forall j :: 0 <= j < |s.queue| ==> !WaitingFor(b)(s.queue[j]);
      }
    }
  }

  lemma ReturnKeepsHolds(s: State, loan: LoanId, staff: UserId, now: int, hookRuns: bool, b: BookId, edits: nat)
    requires Coupled(s) && Holds(s, b) <= Shelf(s, b) + edits
    ensures var s' := ReturnStep(s, loan, staff, now, hookRuns).0; Holds(s', b) <= Shelf(s', b) + edits
  {
    if loan < |s.loans| && s.loans[loan].open {
      OpenLoanMeansOnLoan(s, loan);
      var c := s.loans[loan].copy;
      CountUpdate(s.copies, c, s.copies[c].(status := Available), ShelfOf(b));
      PromoteReadiesOne(s.queue, s.copies[c].book, now, b);
    }
  }

  lemma CancelKeepsHolds(s: State, hold: HoldId, member: UserId, now: int, hookRuns: bool, b: BookId, edits: nat)
    requires Holds(s, b) <= Shelf(s, b) + edits
    ensures var s' := CancelStep(s, hold, member, now, hookRuns).0; Holds(s', b) <= Shelf(s', b) + edits
  {
    if hold < |s.queue| && Waiting(s.queue[hold]) {
      var cancelled := s.queue[hold].(status := Cancelled);
      CountUpdate(s.queue, hold, cancelled, ReadyFor(b));
      PromoteReadiesOne(s.queue[hold := cancelled], s.queue[hold].book, now, b);
    }
  }

  lemma UpdateCopyKeepsHolds(s: State, call: Call, b: BookId, edits: nat)
    requires Coupled(s) && call.UpdateCopy? && Holds(s, b) <= Shelf(s, b) + edits
    ensures var s' := Step(s, call).0; Holds(s', b) <= Shelf(s', b) + edits + Bit(TakesOffShelf(s, call, b))
  {
    var s' := Step(s, call).0;
    if call.copy < |s.copies| {
      assert s'.copies == s.copies[call.copy := s'.copies[call.copy]];
      CountUpdate(s.copies, call.copy, s'.copies[call.copy], ShelfOf(b));
    }
  }

  lemma StepKeepsHolds(s: State, call: Call, b: BookId, edits: nat)
    requires Coupled(s) && ReadyFirst(s.queue) && Holds(s, b) <= Shelf(s, b) + edits
    ensures var s' := Step(s, call).0; Holds(s', b) <= Shelf(s', b) + edits + Bit(TakesOffShelf(s, call, b))
  {
    match call
    case AddCopy(_, _, _, _) =>
      var s' := Step(s, call).0;
      if |s'.copies| != |s.copies| { CountAppend(s.copies, s'.copies[|s.copies|], ShelfOf(b)); }
    case UpdateCopy(_, _, _, _) => UpdateCopyKeepsHolds(s, call, b, edits);
    case Borrow(copy, member, staff) =>
      var e := EntitlementOf(s.roll, member, false);
      if e.Entitled? { BorrowKeepsHolds(s, copy, member, staff, e.limit, false, b, edits); }
    case SelfCheckout(copy, member) =>
      var e := EntitlementOf(s.roll, member, true);
      if e.Entitled? { BorrowKeepsHolds(s, copy, member, member, e.limit, true, b, edits); }
    case Return(loan, staff, now, hookRuns) => ReturnKeepsHolds(s, loan, staff, now, hookRuns, b, edits);
    case Reserve(book, member) =>
      CountAppend(s.queue, Reservation(book, member, Pending, None), ReadyFor(b));
    case Cancel(hold, member, now, hookRuns) => CancelKeepsHolds(s, hold, member, now, hookRuns, b, edits);
    case ExpireStale(now) => CountShrinks(s.queue, ExpireAll(s.queue, now), ReadyFor(b));
  }

  /** Held copies never outnumber the shelf by more than the edits that emptied it. */
  lemma {:induction false} HoldsNeverOutnumberShelf(titles: set<BookId>, roll: map<UserId, Account>, calls: seq<Call>,
                                                    b: BookId)
    ensures var s := Run(Empty(titles, roll), calls);
      Holds(s, b) <= Shelf(s, b) + OffShelfEdits(titles, roll, calls, b)
  {
    var start := Empty(titles, roll);
    if calls == [] {
      CountZero(start.queue, ReadyFor(b));
    } else {
      var front := calls[..|calls| - 1];
      HoldsNeverOutnumberShelf(titles, roll, front, b);
      CoupledInEveryRun(titles, roll, front);
      QueueSoundInEveryRun(titles, roll, front);
      StepKeepsHolds(Run(start, front), calls[|calls| - 1], b, OffShelfEdits(titles, roll, front, b));
    }
  }

  // Order of fulfilment

  ghost predicate Fulfils(s: State, call: Call, r: HoldId) {
    && r < |s.queue| && Waiting(s.queue[r])
    && r < |Step(s, call).0.queue| && Step(s, call).0.queue[r].status == Fulfilled
  }

  ghost predicate Heads(queue: seq<Reservation>, r: HoldId) {
    && r < |queue| && Waiting(queue[r])
    && forall j :: 0 <= j < r && queue[j].book == queue[r].book ==> !Waiting(queue[j])
  }

  lemma BorrowFulfilsHead(s: State, copy: CopyId, member: UserId, actor: UserId, limit: nat, self: bool, r: HoldId)
    requires r < |s.queue| && Waiting(s.queue[r])
    requires BorrowTransaction(s, copy, member, actor, limit, self).0.queue[r].status == Fulfilled
    ensures Heads(s.queue, r) && s.queue[r].user == member
    ensures copy < |s.copies| && s.copies[copy].book == s.queue[r].book
  {
  }

  /** A reservation is fulfilled only by a loan of its title to its owner, from the head of its queue. */
  lemma OnlyTheHeadIsFulfilled(s: State, call: Call, r: HoldId)
    requires Fulfils(s, call, r)
    ensures call.Borrow? || call.SelfCheckout?
    ensures Heads(s.queue, r) && s.queue[r].user == call.member
    ensures call.copy < |s.copies| && s.copies[call.copy].book == s.queue[r].book
  {
    match call
    case Borrow(copy, member, staff) =>
      var e := EntitlementOf(s.roll, member, false);
      if e.Entitled? { BorrowFulfilsHead(s, copy, member, staff, e.limit, false, r); }
    case SelfCheckout(copy, member) =>
      var e := EntitlementOf(s.roll, member, true);
      if e.Entitled? { BorrowFulfilsHead(s, copy, member, member, e.limit, true, r); }
    case _ =>
  }

  lemma BookStays(titles: set<BookId>, roll: map<UserId, Account>, calls: seq<Call>, i: nat, j: nat, r: HoldId)
    requires i <= j <= |calls| && r < |After(titles, roll, calls, i).queue|
    ensures r < |After(titles, roll, calls, j).queue|
    ensures After(titles, roll, calls, j).queue[r].book == After(titles, roll, calls, i).queue[r].book
  {
    HistoryIsPermanent(titles, roll, calls, i, j);
  }

  lemma FinalStays(titles: set<BookId>, roll: map<UserId, Account>, calls: seq<Call>, i: nat, j: nat, r: HoldId)
    requires i <= j <= |calls| && r < |After(titles, roll, calls, i).queue|
    requires Final(After(titles, roll, calls, i).queue[r].status)
    ensures r < |After(titles, roll, calls, j).queue| && Final(After(titles, roll, calls, j).queue[r].status)
  {
    HistoryIsPermanent(titles, roll, calls, i, j);
  }

  /** Reservations of one title are fulfilled in the order they were made. */
  lemma FulfilledInOrder(titles: set<BookId>, roll: map<UserId, Account>, calls: seq<Call>, i: nat, j: nat,
                         r1: HoldId, r2: HoldId)
    requires i < j < |calls|
    requires Fulfils(After(titles, roll, calls, i), calls[i], r1)
    requires Fulfils(After(titles, roll, calls, j), calls[j], r2)
    requires After(titles, roll, calls, i).queue[r1].book == After(titles, roll, calls, j).queue[r2].book
    ensures r1 < r2
  {
    OnlyTheHeadIsFulfilled(After(titles, roll, calls, i), calls[i], r1);
    AfterStep(titles, roll, calls, i);
    if r2 < r1 {
      BookStays(titles, roll, calls, i, j, r2);
      FinalStays(titles, roll, calls, i, j, r2);
    } else if r2 == r1 {
      FinalStays(titles, roll, calls, i + 1, j, r2);
    }
  }
}
