/** What every service call answers and leaves, told from the rows before it and the caller's
  arguments alone: statuses, counts, deadlines and log lines, column by column. */
module DeskOutcomes {
  import opened Tables
  import opened Domain
  import opened DeskModel
  import opened DeskCoupling
  import DeskLending
  import Text

  // What a member may borrow

  function OpenLoansOf(s: State, u: UserId): set<LoanId> {
    set l: LoanId | l < |s.loans| && s.loans[l].user == u && s.loans[l].open
  }

  function Lendable(s: State, b: BookId): set<CopyId> {
    set c: CopyId | c < |s.copies| && s.copies[c].book == b && s.copies[c].policy == Circulating
                    && (s.copies[c].status == Available || s.copies[c].status == OnLoan)
  }

  function Shelved(s: State, b: BookId): set<CopyId> {
    set c: CopyId | c < |s.copies| && s.copies[c].book == b && s.copies[c].policy == Circulating
                    && s.copies[c].status == Available
  }

  predicate Awaits(r: Reservation, b: BookId) {
    r.book == b && (r.status == Pending || r.status == Ready)
  }

  /** Whoever has waited longest for the copy's title is the member. */
  ghost predicate NobodyElseFirst(s: State, copy: CopyId, member: UserId) {
    copy < |s.copies| ==>
      forall r :: 0 <= r < |s.queue| && Awaits(s.queue[r], s.copies[copy].book)
                  && (forall j :: 0 <= j < r ==> !Awaits(s.queue[j], s.copies[copy].book))
        ==> s.queue[r].user == member
  }

  ghost predicate CanBeLent(s: State, copy: CopyId) {
    copy < |s.copies| && s.copies[copy].policy == Circulating && s.copies[copy].status == Available
  }

  /** Either the title has one lendable copy in all, or lending this one leaves another on the shelf. */
  ghost predicate OneToSpare(s: State, copy: CopyId)
    requires copy < |s.copies|
  {
    |Lendable(s, s.copies[copy].book)| < 2 || |Shelved(s, s.copies[copy].book)| >= 2
  }

  predicate RoomFor(category: Category, loans: nat) {
    && (category == Undergraduate ==> loans < 2)
    && (category == Postgraduate ==> loans < 4)
    && (category == Staff ==> loans < 6)
  }

  predicate Entitled(roll: map<UserId, Account>, member: UserId) {
    member in roll && roll[member].status == Active && roll[member].category.Some?
  }

  /** How an entitled member is answered: what stands between them and the copy, and the refusal that
    names the first such thing. */
  ghost predicate LendingAnswer(s: State, copy: CopyId, member: UserId, reply: Reply)
    requires member in s.roll && s.roll[member].category.Some?
  {
    var first := NobodyElseFirst(s, copy, member);
    var room := RoomFor(s.roll[member].category.value, |OpenLoansOf(s, member)|);
    && (reply.Lent? <==> first && CanBeLent(s, copy) && OneToSpare(s, copy) && room)
    && (reply == Refused(ReservedForOther) <==> !first)
    && (reply == Refused(CopyNotFound) <==> first && copy >= |s.copies|)
    && (reply == Refused(CopyNotBorrowable) <==>
          first && copy < |s.copies| && s.copies[copy].policy != Circulating)
    && (reply == Refused(CopyNotAvailable) <==>
          first && copy < |s.copies| && s.copies[copy].policy == Circulating && s.copies[copy].status != Available)
    && (reply == Refused(LastCopyRetained) <==> first && CanBeLent(s, copy) && !OneToSpare(s, copy))
    && (reply == Refused(LoanLimitReached) <==> first && CanBeLent(s, copy) && OneToSpare(s, copy) && !room)
  }

  lemma SparesAgree(s: State, copy: CopyId)
    requires CanBeLent(s, copy)
    ensures var mine := s.copies[copy := s.copies[copy].(status := OnLoan)];
      !DeskLending.Retained(mine, s.copies[copy].book) <==> OneToSpare(s, copy)
  {
    var b, lent := s.copies[copy].book, s.copies[copy].(status := OnLoan);
    assert Matching(s.copies, StockOf(b)) == Lendable(s, b);
    assert Matching(s.copies, ShelfOf(b)) == Shelved(s, b);
    CountUpdate(s.copies, copy, lent, StockOf(b));
    CountUpdate(s.copies, copy, lent, ShelfOf(b));
  }

  lemma HeadsAgree(s: State, copy: CopyId, member: UserId)
    ensures var head := HeadFor(s, copy);
      NobodyElseFirst(s, copy, member) <==> (head.None? || s.queue[head.value].user == member)
  {
    var head := HeadFor(s, copy);
    if copy < |s.copies| {
      var b := s.copies[copy].book;
      assert forall r :: 0 <= r < |s.queue| ==> (WaitingFor(b)(s.queue[r]) <==> Awaits(s.queue[r], b));
      if head.Some? {
        assert Awaits(s.queue[head.value], b);
      }
    }
  }

  lemma TransactionAnswers(s: State, copy: CopyId, member: UserId, actor: UserId, limit: nat, self: bool)
    requires Coupled(s) && Entitled(s.roll, member) && limit == LoanLimit(s.roll[member].category.value)
    ensures LendingAnswer(s, copy, member, BorrowTransaction(s, copy, member, actor, limit, self).1)
  {
    HeadsAgree(s, copy, member);
    assert Matching(s.loans, OpenLoanBy(member)) == OpenLoansOf(s, member);
    if CanBeLent(s, copy) {
      SparesAgree(s, copy);
    }
  }

  /** A loan at the desk, the whole call: who is entitled, what is lent, and which refusal the first
    failed condition gives. */
  lemma BorrowOutcome(s: State, copy: CopyId, member: UserId, staff: UserId)
    requires Coupled(s)
    ensures var reply := Step(s, Borrow(copy, member, staff)).1;
      && (reply == Refused(NotFound) <==> member !in s.roll)
      && (reply == Refused(MemberNotActive) <==> member in s.roll && s.roll[member].status != Active)
      && (reply == Refused(NoCategory) <==>
            member in s.roll && s.roll[member].status == Active && s.roll[member].category.None?)
      && (reply.Lent? <==>
            && Entitled(s.roll, member) && NobodyElseFirst(s, copy, member)
            && CanBeLent(s, copy) && OneToSpare(s, copy)
            && RoomFor(s.roll[member].category.value, |OpenLoansOf(s, member)|))
      && (Entitled(s.roll, member) ==> LendingAnswer(s, copy, member, reply))
  {
    if Entitled(s.roll, member) {
      TransactionAnswers(s, copy, member, staff, LoanLimit(s.roll[member].category.value), false);
    }
  }

  /** Self-checkout, the whole call. */
  lemma SelfCheckoutOutcome(s: State, copy: CopyId, member: UserId)
    requires Coupled(s)
    ensures var reply := Step(s, SelfCheckout(copy, member)).1;
      var known := member in s.roll && s.roll[member].role == MemberRole;
      && (reply == Refused(NotFound) <==> member !in s.roll)
      && (reply == Refused(Forbidden) <==> member in s.roll && s.roll[member].role != MemberRole)
      && (reply == Refused(MemberSuspended) <==> known && s.roll[member].status == Suspended)
      && (reply == Refused(MemberNotActive) <==> known && s.roll[member].status == Inactive)
      && (reply == Refused(NoCategory) <==>
            known && s.roll[member].status == Active && s.roll[member].category.None?)
      && (reply.Lent? <==>
            && known && Entitled(s.roll, member) && NobodyElseFirst(s, copy, member)
            && CanBeLent(s, copy) && OneToSpare(s, copy)
            && RoomFor(s.roll[member].category.value, |OpenLoansOf(s, member)|))
      && (known && Entitled(s.roll, member) ==> LendingAnswer(s, copy, member, reply))
  {
    if Entitled(s.roll, member) {
      TransactionAnswers(s, copy, member, member, LoanLimit(s.roll[member].category.value), true);
    }
  }

  ghost predicate LongestWaiting(queue: seq<Reservation>, b: BookId, r: HoldId) {
    && r < |queue| && Awaits(queue[r], b)
    && forall j :: 0 <= j < r ==> !Awaits(queue[j], b)
  }

  /** What a loan writes, row by row, and that a refused one writes nothing. */
  lemma LoanWrites(s: State, call: Call)
    requires call.Borrow? || call.SelfCheckout?
    ensures var (s', reply) := Step(s, call);
      && (reply.Lent? || (reply.Refused? && s' == s))
      && (reply.Lent? ==>
            var l, copy, member := |s.loans|, call.copy, call.member;
            && reply == Lent(l) && copy < |s.copies|
            && s'.titles == s.titles && s'.roll == s.roll
            && s'.loans == s.loans + [Loan(copy, member, true)]
            && |s'.copies| == |s.copies|
            && (forall c :: 0 <= c < |s.copies| ==>
                  s'.copies[c] == if c == copy then s.copies[c].(status := OnLoan) else s.copies[c])
            && |s'.queue| == |s.queue|
            && (forall r :: 0 <= r < |s.queue| ==>
                  s'.queue[r] == if LongestWaiting(s.queue, s.copies[copy].book, r)
                                 then s.queue[r].(status := Fulfilled) else s.queue[r])
            && s'.log == s.log + [if call.Borrow? then AuditLine(call.staff, LoanIssued(l, copy, member))
                                  else AuditLine(member, SelfCheckedOut(l, copy, member))])
  {
    var (s', reply) := Step(s, call);
    if reply.Lent? {
      HeadIsLongestWaiting(s, call.copy);
    }
  }

  lemma HeadIsLongestWaiting(s: State, copy: CopyId)
    requires copy < |s.copies|
    ensures forall r: HoldId ::
      LongestWaiting(s.queue, s.copies[copy].book, r) <==> HeadFor(s, copy) == Some(r)
  {
    var b := s.copies[copy].book;
    assert forall r :: 0 <= r < |s.queue| ==> (WaitingFor(b)(s.queue[r]) <==> Awaits(s.queue[r], b));
  }

  // Returns, cancellations and the deadline

  /** The oldest pending reservation of the title. */
  ghost predicate NextInLine(queue: seq<Reservation>, b: BookId, r: HoldId) {
    && r < |queue| && queue[r].book == b && queue[r].status == Pending
    && forall j :: 0 <= j < r && queue[j].book == b ==> queue[j].status != Pending
  }

  /** That reservation, if there is one, has three days from `now`; no other row has changed. */
  ghost predicate NextIsReady(before: seq<Reservation>, after: seq<Reservation>, b: BookId, now: int) {
    && |after| == |before|
    && forall r :: 0 <= r < |before| ==>
         after[r] == if NextInLine(before, b, r)
                     then Reservation(b, before[r].user, Ready, Some(now + 3 * 24 * 3600 * 1_000_000_000))
                     else before[r]
  }

  lemma PromotesTheNext(queue: seq<Reservation>, b: BookId, now: int)
    ensures NextIsReady(queue, PromoteNext(queue, b, now), b, now)
  {
    assert forall r :: 0 <= r < |queue| ==>
        (PendingFor(b)(queue[r]) <==> queue[r].book == b && queue[r].status == Pending);
  }

  /** A return on a coupled desk, the whole call. */
  lemma ReturnOutcome(s: State, loan: LoanId, staff: UserId, now: int, hookRuns: bool)
    requires Coupled(s)
    ensures var (s', reply) := Step(s, Return(loan, staff, now, hookRuns));
      && (reply == Refused(NotFound) <==> loan >= |s.loans|)
      && (reply == Refused(LoanAlreadyClosed) <==> loan < |s.loans| && !s.loans[loan].open)
      && (reply == Done <==> loan < |s.loans| && s.loans[loan].open)
      && (reply != Done ==> s' == s)
      && (reply == Done ==>
            var l := s.loans[loan];
            && s'.titles == s.titles && s'.roll == s.roll && l.copy < |s.copies| == |s'.copies|
            && s'.loans == s.loans[loan := Loan(l.copy, l.user, false)]
            && (forall c :: 0 <= c < |s.copies| ==>
                  s'.copies[c] == if c == l.copy then s.copies[c].(status := Available) else s.copies[c])
            && (if hookRuns then NextIsReady(s.queue, s'.queue, s.copies[l.copy].book, now) else s'.queue == s.queue)
            && s'.log == s.log + [AuditLine(staff, LoanReturned(loan, l.copy, l.user))])
  {
    if loan < |s.loans| && s.loans[loan].open {
      OpenLoanMeansOnLoan(s, loan);
      PromotesTheNext(s.queue, s.copies[s.loans[loan].copy].book, now);
    }
  }

  /** A cancellation, the whole call: only giving up a ready hold lets the next reader have it. */
  lemma CancelOutcome(s: State, hold: HoldId, member: UserId, now: int, hookRuns: bool)
    ensures var (s', reply) := Step(s, Cancel(hold, member, now, hookRuns));
      && (reply == Done <==>
            hold < |s.queue| && s.queue[hold].user == member
            && (s.queue[hold].status == Pending || s.queue[hold].status == Ready))
      && (reply != Done ==> reply == Refused(NotFound) && s' == s)
      && (reply == Done ==>
            var given := s.queue[hold := s.queue[hold].(status := Cancelled)];
            && s' == s.(queue := s'.queue)
            && if s.queue[hold].status == Ready && hookRuns
               then NextIsReady(given, s'.queue, s.queue[hold].book, now) else s'.queue == given)
  {
    if hold < |s.queue| {
      PromotesTheNext(s.queue[hold := s.queue[hold].(status := Cancelled)], s.queue[hold].book, now);
    }
  }

  /** An expiry sweep, the whole call. */
  lemma ExpiryOutcome(s: State, now: int)
    ensures var (s', reply) := Step(s, ExpireStale(now));
      && s' == s.(queue := s'.queue) && |s'.queue| == |s.queue|
      && (forall r :: 0 <= r < |s.queue| ==>
            s'.queue[r] == if s.queue[r].status == Ready && s.queue[r].expiresAt.Some?
                              && s.queue[r].expiresAt.value < now
                           then s.queue[r].(status := Expired) else s.queue[r])
      && reply == Swept(|set r: HoldId | r < |s.queue| && s'.queue[r].status != s.queue[r].status|)
  {
    var s' := Step(s, ExpireStale(now)).0;
    assert Matching(s.queue, (r: Reservation) => Uncollected(r, now))
        == set r: HoldId | r < |s.queue| && s'.queue[r].status != s.queue[r].status;
  }

  /** A reservation, the whole call. */
  lemma ReserveOutcome(s: State, book: BookId, member: UserId)
    ensures var (s', reply) := Step(s, Reserve(book, member));
      var some := exists c :: 0 <= c < |s.copies| && s.copies[c].book == book && s.copies[c].status != Withdrawn
                              && (s.copies[c].policy == Circulating || s.copies[c].policy == OnDisplay);
      var spare := if |Lendable(s, book)| < 2 then |Shelved(s, book)| > 0 else |Shelved(s, book)| > 1;
      var waits := exists r :: 0 <= r < |s.queue| && Awaits(s.queue[r], book) && s.queue[r].user == member;
      && (reply == Refused(NotReservable) <==> !some)
      && (reply == Refused(CopiesAvailable) <==> some && spare)
      && (reply == Refused(AlreadyReserved) <==> some && !spare && waits)
      && (reply == Refused(Conflict) <==> some && !spare && !waits && member !in s.roll)
      && (reply.Queued? <==> some && !spare && !waits && member in s.roll)
      && (reply.Queued? ==>
            && s' == s.(queue := s.queue + [Reservation(book, member, Pending, None)])
            && reply == Queued(|s.queue|,
                 |set r: HoldId | r < |s'.queue| && s'.queue[r].book == book && s'.queue[r].status == Pending|))
      && (reply.Queued? || (reply.Refused? && s' == s))
  {
    CountZero(s.copies, ReservableOf(book));
    CountZero(s.queue, OpenHoldBy(book, member));
    assert Matching(s.copies, StockOf(book)) == Lendable(s, book);
    assert Matching(s.copies, ShelfOf(book)) == Shelved(s, book);
    var queue' := s.queue + [Reservation(book, member, Pending, None)];
    CountAppend(s.queue, Reservation(book, member, Pending, None), PendingFor(book));
    assert Matching(queue', PendingFor(book))
        == set r: HoldId | r < |queue'| && queue'[r].book == book && queue'[r].status == Pending;
  }

  predicate Readied(was: Reservation, left: Reservation) {
    was.status == Pending && left.status == Ready
  }

  /** One row across one step: a deadline three days from `now` if it was made ready, otherwise its
    own; and pending it never is again. */
  predicate KeepsDeadline(was: Reservation, left: Reservation, now: Option<int>) {
    && (Readied(was, left) ==> now.Some? && left.expiresAt == Some(now.value + 3 * 24 * 3600 * 1_000_000_000))
    && (!Readied(was, left) ==> left.expiresAt == was.expiresAt)
    && (was.status != Pending ==> left.status != Pending)
  }

  lemma NextKeepsDeadlines(before: seq<Reservation>, after: seq<Reservation>, b: BookId, now: int)
    requires NextIsReady(before, after, b, now)
    ensures forall r :: 0 <= r < |before| ==> KeepsDeadline(before[r], after[r], Some(now))
  {
  }

  lemma ReturnKeepsDeadlines(s: State, loan: LoanId, staff: UserId, now: int, hookRuns: bool)
    ensures var queue := ReturnStep(s, loan, staff, now, hookRuns).0.queue;
      |queue| == |s.queue| && forall r :: 0 <= r < |queue| ==> KeepsDeadline(s.queue[r], queue[r], Some(now))
  {
    if loan < |s.loans| && s.loans[loan].copy < |s.copies| {
      var b := s.copies[s.loans[loan].copy].book;
      PromotesTheNext(s.queue, b, now);
      NextKeepsDeadlines(s.queue, PromoteNext(s.queue, b, now), b, now);
    }
  }

  lemma CancelKeepsDeadlines(s: State, hold: HoldId, member: UserId, now: int, hookRuns: bool)
    ensures var queue := CancelStep(s, hold, member, now, hookRuns).0.queue;
      |queue| == |s.queue| && forall r :: 0 <= r < |queue| ==> KeepsDeadline(s.queue[r], queue[r], Some(now))
  {
    if hold < |s.queue| {
      var given, b := s.queue[hold := s.queue[hold].(status := Cancelled)], s.queue[hold].book;
      PromotesTheNext(given, b, now);
      NextKeepsDeadlines(given, PromoteNext(given, b, now), b, now);
    }
  }

  /** Only a return or a cancellation makes a row ready, and then it has three days from that call;
    no call moves a deadline otherwise. */
  lemma DeadlinesOfCall(s: State, call: Call, r: HoldId)
    requires r < |s.queue|
    ensures r < |Step(s, call).0.queue|
    ensures KeepsDeadline(s.queue[r], Step(s, call).0.queue[r],
                          if call.Return? || call.Cancel? then Some(call.now) else None)
  {
    match call
    case Return(loan, staff, now, hookRuns) => ReturnKeepsDeadlines(s, loan, staff, now, hookRuns);
    case Cancel(hold, member, now, hookRuns) => CancelKeepsDeadlines(s, hold, member, now, hookRuns);
    case _ =>
  }

  /** The row was decided in `s` and has kept its deadline in `s'`. */
  predicate SameDeadline(s: State, s': State, r: HoldId) {
    r < |s.queue| && s.queue[r].status != Pending ==>
      r < |s'.queue| && s'.queue[r].status != Pending && s'.queue[r].expiresAt == s.queue[r].expiresAt
  }

  lemma DeadlineOverCall(titles: set<BookId>, roll: map<UserId, Account>, calls: seq<Call>, k: nat, r: HoldId)
    requires k < |calls|
    ensures SameDeadline(After(titles, roll, calls, k), After(titles, roll, calls, k + 1), r)
  {
    AfterStep(titles, roll, calls, k);
    if r < |After(titles, roll, calls, k).queue| {
      DeadlinesOfCall(After(titles, roll, calls, k), calls[k], r);
    }
  }

  lemma SameTransitive(s: State, s': State, s'': State, r: HoldId)
    requires SameDeadline(s, s', r) && SameDeadline(s', s'', r)
    ensures SameDeadline(s, s'', r)
  {
  }

  lemma {:induction false} DeadlineKept(titles: set<BookId>, roll: map<UserId, Account>, calls: seq<Call>, i: nat,
                                        j: nat, r: HoldId)
    requires i <= j <= |calls|
    ensures SameDeadline(After(titles, roll, calls, i), After(titles, roll, calls, j), r)
    decreases j - i
  {
    if i < j {
      DeadlineKept(titles, roll, calls, i + 1, j, r);
      DeadlineOverCall(titles, roll, calls, i, r);
      SameTransitive(After(titles, roll, calls, i), After(titles, roll, calls, i + 1),
                     After(titles, roll, calls, j), r);
    }
  }

  /** The call made this row ready. */
  ghost predicate Readies(s: State, call: Call, r: HoldId) {
    && r < |s.queue| && s.queue[r].status == Pending
    && r < |Step(s, call).0.queue| && Step(s, call).0.queue[r].status == Ready
  }

  lemma SweepExpires(s: State, r: HoldId, deadline: int, t: int)
    requires r < |s.queue| && s.queue[r].expiresAt == Some(deadline)
    ensures var queue := Step(s, ExpireStale(t)).0.queue;
      && r < |queue|
      && (queue[r].status == Expired && s.queue[r].status != Expired <==>
            s.queue[r].status == Ready && t > deadline)
  {
  }

  lemma ReadiedDeadline(titles: set<BookId>, roll: map<UserId, Account>, calls: seq<Call>, i: nat, r: HoldId)
    requires i < |calls| && Readies(After(titles, roll, calls, i), calls[i], r)
    ensures calls[i].Return? || calls[i].Cancel?
    ensures var s := After(titles, roll, calls, i + 1);
      r < |s.queue| && s.queue[r].status == Ready
      && s.queue[r].expiresAt == Some(calls[i].now + 3 * 24 * 3600 * 1_000_000_000)
  {
    AfterStep(titles, roll, calls, i);
    DeadlinesOfCall(After(titles, roll, calls, i), calls[i], r);
  }

  /** Over a whole run: a hold made ready at `now` has three days. A later sweep, whatever happened
    in between, expires it if and only if it is still there and its time is past that deadline. */
  lemma HoldLastsThreeDays(titles: set<BookId>, roll: map<UserId, Account>, calls: seq<Call>, i: nat, j: nat,
                           r: HoldId, t: int)
    requires i < j <= |calls| && Readies(After(titles, roll, calls, i), calls[i], r)
    ensures calls[i].Return? || calls[i].Cancel?
    ensures var s := After(titles, roll, calls, j); var queue := Step(s, ExpireStale(t)).0.queue;
      r < |s.queue| == |queue|
      && (queue[r].status == Expired && s.queue[r].status != Expired <==>
            s.queue[r].status == Ready && t > calls[i].now + 3 * 24 * 3600 * 1_000_000_000)
  {
    ReadiedDeadline(titles, roll, calls, i, r);
    DeadlineKept(titles, roll, calls, i + 1, j, r);
    SweepExpires(After(titles, roll, calls, j), r, calls[i].now + 3 * 24 * 3600 * 1_000_000_000, t);
  }

  // Copies

  /** An accession, the whole call. */
  lemma AccessionOutcome(s: State, book: BookId, accession: string, policy: Option<LoanPolicy>, staff: UserId)
    ensures var (s', reply) := Step(s, AddCopy(book, accession, policy, staff));
      var number, id := Text.Trim(accession), |s.copies|;
      var taken := exists c :: 0 <= c < id && s.copies[c].accession == number;
      && (reply == Refused(DuplicateAccession) <==> number == "" || taken)
      && (reply == Refused(Conflict) <==> number != "" && !taken && book !in s.titles)
      && (reply == Added(id) <==> number != "" && !taken && book in s.titles)
      && (reply.Refused? ==> s' == s)
      && (!reply.Refused? ==>
            var given := if policy.Some? then policy.value else Circulating;
            && reply == Added(id)
            && s' == s.(copies := s.copies + [Copy(book, number, given, Available)],
                        log := s.log + [AuditLine(staff, CopyAdded(id, book, number, given))]))
  {
  }

  predicate Permitted(was: CopyStatus, to: CopyStatus) {
    || to == was
    || (was == Available && (to == Damaged || to == Lost || to == Withdrawn))
    || (was == OnLoan && (to == Lost || to == Damaged))
    || (was == Lost && (to == Available || to == Withdrawn))
    || (was == Damaged && (to == Available || to == Withdrawn))
  }

  /** An edit of a copy, the whole call. */
  lemma EditOutcome(s: State, copy: CopyId, policy: Option<LoanPolicy>, status: Option<CopyStatus>, staff: UserId)
    ensures var (s', reply) := Step(s, UpdateCopy(copy, policy, status, staff));
      && (reply == Refused(NotFound) <==> copy >= |s.copies|)
      && (reply.Refused? || reply == Done)
      && (copy >= |s.copies| ==> s' == s)
      && (copy < |s.copies| ==>
            var was := s.copies[copy];
            var legal := status.Some? ==> Permitted(was.status, status.value);
            var closes := legal && was.status == OnLoan && (status == Some(Lost) || status == Some(Damaged));
            var rest := if closes then None else status;
            var writes := reply == Done && (policy.Some? || rest.Some?);
            && (reply == Refused(InvalidTransition) <==> !legal)
            && (reply == Refused(CopyIsOnLoan) <==> legal && policy.Some? && was.status == OnLoan)
            && (reply == Done <==> legal && !(policy.Some? && was.status == OnLoan))
            && s' == s.(copies := s'.copies, loans := s'.loans, log := s'.log)
            && |s'.copies| == |s.copies|
            && (forall c :: 0 <= c < |s.copies| && c != copy ==> s'.copies[c] == s.copies[c])
            && s'.copies[copy] == was.(policy := if reply == Done && policy.Some? then policy.value else was.policy,
                                       status := if (reply == Done || closes) && status.Some? then status.value
                                                 else was.status)
            && |s'.loans| == |s.loans|
            && (forall l :: 0 <= l < |s.loans| ==>
                  s'.loans[l] == if closes && s.loans[l].copy == copy then s.loans[l].(open := false) else s.loans[l])
            && s'.log == s.log
                 + (if closes then [AuditLine(staff, CopyMarked(copy, status.value))] else [])
                 + (if writes then [AuditLine(staff, CopyUpdated(copy, policy, rest))] else []))
  {
    if copy < |s.copies| && status.Some? {
      var was, to := s.copies[copy].status, status.value;
      assert CanTransitionTo(was, to) <==> Permitted(was, to);
    }
  }
}
