/** What the queue does not promise: readers can wait beside a copy nobody holds, and a reader
  with a hold can be refused. */
module DeskGaps {
  import opened Tables
  import opened Domain
  import opened DeskModel
  import opened DeskCoupling
  import opened DeskQueue
  import DeskLending
  import Text

  function PendingCount(s: State, b: BookId): nat {
    CountIf(s.queue, PendingFor(b))
  }

  /** Somebody is waiting for the title, and a copy of it on the shelf is held for nobody. */
  predicate Neglected(s: State, b: BookId) {
    PendingCount(s, b) > 0 && Holds(s, b) < Shelf(s, b)
  }

  function UncollectedOf(b: BookId, now: int): Reservation -> bool {
    (r: Reservation) => r.book == b && Uncollected(r, now)
  }

  /** Every copy of the title on the shelf is held, and more readers wait: one more copy, or one
    hold fewer, and somebody waits beside a copy that is nobody's. */
  predicate OnTheBrink(s: State, b: BookId) {
    PendingCount(s, b) > 0 && Holds(s, b) == Shelf(s, b)
  }

  /** A circulating volume of the title that the desk accepts. */
  predicate Accepts(s: State, book: BookId, accession: string, policy: Option<LoanPolicy>, b: BookId) {
    && book == b && book in s.titles && policy.GetOr(Circulating) == Circulating
    && Text.Trim(accession) != "" && !AccessionTaken(s.copies, Text.Trim(accession))
  }

  /** A reservation of the title that is taken. */
  predicate MayReserve(s: State, book: BookId, member: UserId, b: BookId) {
    && book == b && member in s.roll && CountIf(s.copies, ReservableOf(b)) > 0
    && BorrowableCount(CountIf(s.copies, StockOf(b)), Shelf(s, b)) <= 0
    && CountIf(s.queue, OpenHoldBy(b, member)) == 0
  }

  /** Whether the call will leave readers of the title waiting beside an unheld copy, told from the
    state before it: a copy that comes to the shelf and a hold that goes do so on the brink, unless
    the promotion that should follow runs; a loan never does; expiry does as soon as the holds that
    lapse outnumber what is missing; and a reservation does when a copy on the shelf is unheld,
    which is the one that retention keeps back. */
  predicate WillNeglect(s: State, call: Call, b: BookId) {
    match call
    case AddCopy(book, accession, policy, _) => OnTheBrink(s, b) && Accepts(s, book, accession, policy, b)
    case UpdateCopy(_, _, _, _) => OnTheBrink(s, b) && PutsOnShelf(s, call, b)
    case Borrow(_, _, _) => false
    case SelfCheckout(_, _) => false
    case Return(loan, _, _, hookRuns) =>
      && OnTheBrink(s, b) && !hookRuns && loan < |s.loans| && s.loans[loan].open
      && s.loans[loan].copy < |s.copies| && s.copies[s.loans[loan].copy].book == b
    case Reserve(book, member) => MayReserve(s, book, member, b) && Holds(s, b) < Shelf(s, b)
    case Cancel(hold, member, _, hookRuns) =>
      && OnTheBrink(s, b) && !hookRuns && hold < |s.queue|
      && s.queue[hold].user == member && ReadyFor(b)(s.queue[hold])
    case ExpireStale(now) =>
      PendingCount(s, b) > 0 && Holds(s, b) < Shelf(s, b) + CountIf(s.queue, UncollectedOf(b, now))
  }

  lemma PromotionUsesUp(queue: seq<Reservation>, book: BookId, now: int, b: BookId)
    ensures var queue' := PromoteNext(queue, book, now);
      var moved := Bit(b == book && CountIf(queue, PendingFor(b)) > 0);
      && CountIf(queue', PendingFor(b)) == CountIf(queue, PendingFor(b)) - moved
      && CountIf(queue', ReadyFor(b)) == CountIf(queue, ReadyFor(b)) + moved
  {
    var next := First(queue, PendingFor(book));
    CountZero(queue, PendingFor(b));
    if next.Some? {
      var r := next.value;
      var promoted := queue[r].(status := Ready, expiresAt := Some(now + HOLD_PERIOD));
      CountUpdate(queue, r, promoted, ReadyFor(b));
      CountUpdate(queue, r, promoted, PendingFor(b));
    }
  }

  lemma AccessionNeglects(s: State, book: BookId, accession: string, policy: Option<LoanPolicy>, staff: UserId,
                          b: BookId)
    requires !Neglected(s, b)
    ensures var call := AddCopy(book, accession, policy, staff);
      Neglected(Step(s, call).0, b) <==> WillNeglect(s, call, b)
  {
    var s' := AddCopyStep(s, book, accession, policy, staff).0;
    if |s'.copies| != |s.copies| {
      CountAppend(s.copies, s'.copies[|s.copies|], ShelfOf(b));
    }
  }

  lemma EditNeglects(s: State, call: Call, b: BookId)
    requires Coupled(s) && call.UpdateCopy? && !Neglected(s, b)
    ensures Neglected(Step(s, call).0, b) <==> WillNeglect(s, call, b)
  {
    EditMovesShelf(s, call, b);
    assert !(PutsOnShelf(s, call, b) && TakesOffShelf(s, call, b));
  }

  lemma LoanNeverNeglects(s: State, copy: CopyId, member: UserId, actor: UserId, limit: nat, self: bool, b: BookId)
    requires ReadyFirst(s.queue) && !Neglected(s, b)
    ensures !Neglected(BorrowTransaction(s, copy, member, actor, limit, self).0, b)
  {
    var (s', reply) := BorrowTransaction(s, copy, member, actor, limit, self);
    if reply.Lent? {
      var head := HeadFor(s, copy);
      CountUpdate(s.copies, copy, s.copies[copy].(status := OnLoan), ShelfOf(b));
      if head.Some? {
        CountUpdate(s.queue, head.value, s.queue[head.value].(status := Fulfilled), ReadyFor(b));
        CountUpdate(s.queue, head.value, s.queue[head.value].(status := Fulfilled), PendingFor(b));
      }
    }
  }

  lemma ReturnNeglects(s: State, loan: LoanId, staff: UserId, now: int, hookRuns: bool, b: BookId)
    requires Coupled(s) && !Neglected(s, b)
    ensures var call := Return(loan, staff, now, hookRuns);
      Neglected(Step(s, call).0, b) <==> WillNeglect(s, call, b)
  {
    if loan < |s.loans| && s.loans[loan].open {
      OpenLoanMeansOnLoan(s, loan);
      var c := s.loans[loan].copy;
      CountUpdate(s.copies, c, s.copies[c].(status := Available), ShelfOf(b));
      PromotionUsesUp(s.queue, s.copies[c].book, now, b);
    }
  }

  lemma CancelNeglects(s: State, hold: HoldId, member: UserId, now: int, hookRuns: bool, b: BookId)
    requires !Neglected(s, b)
    ensures var call := Cancel(hold, member, now, hookRuns);
      Neglected(Step(s, call).0, b) <==> WillNeglect(s, call, b)
  {
    if hold < |s.queue| && s.queue[hold].user == member && Waiting(s.queue[hold]) {
      var cancelled := s.queue[hold].(status := Cancelled);
      CountUpdate(s.queue, hold, cancelled, ReadyFor(b));
      CountUpdate(s.queue, hold, cancelled, PendingFor(b));
      PromotionUsesUp(s.queue[hold := cancelled], s.queue[hold].book, now, b);
    }
  }

  lemma ReservationNeglects(s: State, book: BookId, member: UserId, b: BookId)
    requires !Neglected(s, b)
    ensures var call := Reserve(book, member); Neglected(Step(s, call).0, b) <==> WillNeglect(s, call, b)
  {
    CountAppend(s.queue, Reservation(book, member, Pending, None), ReadyFor(b));
    CountAppend(s.queue, Reservation(book, member, Pending, None), PendingFor(b));
  }

  lemma ExpiryNeglectsIff(s: State, now: int, b: BookId)
    requires !Neglected(s, b)
    ensures Neglected(Step(s, ExpireStale(now)).0, b) <==> WillNeglect(s, ExpireStale(now), b)
  {
    var queue' := ExpireAll(s.queue, now);
    CountSame(s.queue, queue', PendingFor(b));
    var kept := (r: Reservation) => ReadyFor(b)(r) && !Uncollected(r, now);
    CountSplit(s.queue, UncollectedOf(b, now), kept, ReadyFor(b));
    assert Matching(queue', ReadyFor(b)) == Matching(s.queue, kept);
  }

  /** A call newly leaves readers of a title waiting beside an unheld copy if and only if
    `WillNeglect` says so beforehand. */
  lemma NeglectedIff(s: State, call: Call, b: BookId)
    requires Coupled(s) && ReadyFirst(s.queue) && !Neglected(s, b)
    ensures Neglected(Step(s, call).0, b) <==> WillNeglect(s, call, b)
  {
    match call
    case AddCopy(book, accession, policy, staff) => AccessionNeglects(s, book, accession, policy, staff, b);
    case UpdateCopy(_, _, _, _) => EditNeglects(s, call, b);
    case Borrow(copy, member, staff) =>
      var e := EntitlementOf(s.roll, member, false);
      if e.Entitled? { LoanNeverNeglects(s, copy, member, staff, e.limit, false, b); }
    case SelfCheckout(copy, member) =>
      var e := EntitlementOf(s.roll, member, true);
      if e.Entitled? { LoanNeverNeglects(s, copy, member, member, e.limit, true, b); }
    case Return(loan, staff, now, hookRuns) => ReturnNeglects(s, loan, staff, now, hookRuns, b);
    case Reserve(book, member) => ReservationNeglects(s, book, member, b);
    case Cancel(hold, member, now, hookRuns) => CancelNeglects(s, hold, member, now, hookRuns, b);
    case ExpireStale(now) => ExpiryNeglectsIff(s, now, b);
  }

  // Both happen

  ghost predicate Reaches(s: State) {
    exists calls :: Run(Empty(TITLES, READERS), calls) == s
  }

  const TITLES: set<BookId> := {0}
  const READER := Account(MemberRole, Active, Some(Undergraduate))
  const READERS: map<UserId, Account> := map[0 := READER, 1 := READER, 2 := READER]
  const STAFF: UserId := 9

  lemma ReachNext(s: State, call: Call)
    requires Reaches(s)
    ensures Reaches(Step(s, call).0)
  {
    var calls :| Run(Empty(TITLES, READERS), calls) == s;
    assert (calls + [call])[..|calls|] == calls;
    assert Run(Empty(TITLES, READERS), calls + [call]) == Step(s, call).0;
  }

  lemma CountOne<T>(x: T, p: T -> bool)
    ensures CountIf([x], p) == Bit(p(x))
  {
    CountZero([], p);
    CountAppend([], x, p);
    assert [] + [x] == [x];
  }

  lemma CountTwo<T>(x: T, y: T, p: T -> bool)
    ensures CountIf([x, y], p) == Bit(p(x)) + Bit(p(y))
  {
    CountOne(x, p);
    CountAppend([x], y, p);
    assert [x] + [y] == [x, y];
  }

  lemma CountThree<T>(x: T, y: T, z: T, p: T -> bool)
    ensures CountIf([x, y, z], p) == Bit(p(x)) + Bit(p(y)) + Bit(p(z))
  {
    CountTwo(x, y, p);
    CountAppend([x, y], z, p);
    assert [x, y] + [z] == [x, y, z];
  }

  function Volume(number: string, status: CopyStatus): Copy {
    Copy(0, number, Circulating, status)
  }

  /** The desk's tables, whatever its log says. */
  ghost predicate Holding(s: State, copies: seq<Copy>, loans: seq<Loan>, queue: seq<Reservation>) {
    && Reaches(s) && s.titles == TITLES && s.roll == READERS
    && s.copies == copies && s.loans == loans && s.queue == queue
  }

  lemma AddOne(s: State, copies: seq<Copy>, number: string) returns (s': State)
    requires Holding(s, copies, [], [])
    requires number != "" && Text.Trim(number) == number && !AccessionTaken(copies, number)
    ensures Holding(s', copies + [Volume(number, Available)], [], [])
  {
    s' := Step(s, AddCopy(0, number, None, STAFF)).0;
    ReachNext(s, AddCopy(0, number, None, STAFF));
  }

  lemma ReserveOne(s: State, copies: seq<Copy>, loans: seq<Loan>, queue: seq<Reservation>, member: UserId)
    returns (s': State)
    requires Holding(s, copies, loans, queue) && member in READERS && CountIf(queue, OpenHoldBy(0, member)) == 0
    requires CountIf(copies, ReservableOf(0)) > 0
    requires BorrowableCount(CountIf(copies, StockOf(0)), CountIf(copies, ShelfOf(0))) <= 0
    ensures Holding(s', copies, loans, queue + [Reservation(0, member, Pending, None)])
  {
    s' := Step(s, Reserve(0, member)).0;
    ReachNext(s, Reserve(0, member));
  }

  lemma LendOne(s: State, copies: seq<Copy>, loans: seq<Loan>, copy: CopyId, after: seq<Copy>) returns (s': State)
    requires Holding(s, copies, loans, []) && copy < |copies| && OnShelf(copies[copy])
    requires after == copies[copy := copies[copy].(status := OnLoan)]
    requires !DeskLending.Retained(after, copies[copy].book)
    requires CountIf(loans, OpenLoanBy(0)) < 2 && CountIf(loans, OpenLoanOn(copy)) == 0
    ensures Holding(s', after, loans + [Loan(copy, 0, true)], [])
  {
    s' := Step(s, Borrow(copy, 0, STAFF)).0;
    ReachNext(s, Borrow(copy, 0, STAFF));
    assert First(s.queue, WaitingFor(copies[copy].book)).None?;
  }

  lemma ReturnOne(s: State, copies: seq<Copy>, loans: seq<Loan>, first: Reservation, rest: seq<Reservation>)
    returns (s': State)
    requires Holding(s, copies, loans, [first] + rest) && |loans| > 0 && loans[0] == Loan(0, 0, true)
    requires |copies| > 0 && copies[0] == Volume("A", OnLoan) && PendingFor(0)(first)
    ensures Holding(s', copies[0 := Volume("A", Available)], loans[0 := Loan(0, 0, false)],
                    [first.(status := Ready, expiresAt := Some(HOLD_PERIOD))] + rest)
  {
    s' := Step(s, Return(0, STAFF, 0, true)).0;
    ReachNext(s, Return(0, STAFF, 0, true));
    assert First([first] + rest, PendingFor(0)) == Some(0);
    assert ([first] + rest)[0 := first.(status := Ready, expiresAt := Some(HOLD_PERIOD))]
      == [first.(status := Ready, expiresAt := Some(HOLD_PERIOD))] + rest;
  }

  lemma NobodyYet() returns (s: State)
    ensures Holding(s, [], [], [])
  {
    s := Empty(TITLES, READERS);
    assert Run(s, []) == s;
  }

  function Joins(member: UserId): Reservation {
    Reservation(0, member, Pending, None)
  }

  /** One copy out on loan, two readers in the queue; it comes back, the first never collects. */
  lemma LapsedHold() returns (s: State)
    ensures Reaches(s) && s.copies == [Volume("A", Available)]
    ensures s.queue == [Reservation(0, 1, Ready, Some(HOLD_PERIOD)), Joins(2)]
  {
    s := NobodyYet();
    s := AddOne(s, [], "A");
    var out, loan := [Volume("A", OnLoan)], Loan(0, 0, true);
    CountOne(out[0], StockOf(0));
    CountZero([], OpenLoanBy(0));
    CountZero([], OpenLoanOn(0));
    s := LendOne(s, [Volume("A", Available)], [], 0, out);
    assert [] + [loan] == [loan];
    CountOne(out[0], ReservableOf(0));
    CountOne(out[0], ShelfOf(0));
    CountZero([], OpenHoldBy(0, 1));
    s := ReserveOne(s, out, [loan], [], 1);
    CountOne(Joins(1), OpenHoldBy(0, 2));
    assert [] + [Joins(1)] == [Joins(1)];
    s := ReserveOne(s, out, [loan], [Joins(1)], 2);
    assert [Joins(1)] + [Joins(2)] == [Joins(1), Joins(2)];
    s := ReturnOne(s, out, [loan], Joins(1), [Joins(2)]);
  }

  /** A run after which a reader waits, a copy stands on the shelf, and nobody has been told. */
  lemma ExpiryNeglects() returns (s: State)
    ensures Reaches(s) && !Neglected(s, 0)
    ensures Neglected(Step(s, ExpireStale(HOLD_PERIOD + 1)).0, 0)
  {
    s := LapsedHold();
    var ready, waiting := s.queue[0], s.queue[1];
    CountTwo(ready, waiting, PendingFor(0));
    CountTwo(ready, waiting, ReadyFor(0));
    CountOne(s.copies[0], ShelfOf(0));
    var s' := Step(s, ExpireStale(HOLD_PERIOD + 1)).0;
    assert s'.queue == [ready.(status := Expired), waiting];
    CountTwo(ready.(status := Expired), waiting, PendingFor(0));
    CountTwo(ready.(status := Expired), waiting, ReadyFor(0));
  }

  function Three(a: CopyStatus, b: CopyStatus, c: CopyStatus): seq<Copy> {
    [Volume("A", a), Volume("B", b), Volume("C", c)]
  }

  lemma ThreeShelved() returns (s: State)
    ensures Holding(s, Three(Available, Available, Available), [], [])
  {
    s := NobodyYet();
    s := AddOne(s, [], "A");
    s := AddOne(s, [] + [Volume("A", Available)], "B");
    s := AddOne(s, [] + [Volume("A", Available)] + [Volume("B", Available)], "C");
    assert [] + [Volume("A", Available)] + [Volume("B", Available)] + [Volume("C", Available)]
      == Three(Available, Available, Available);
  }

  const BOTH := [Loan(0, 0, true), Loan(1, 0, true)]

  lemma TwoOut() returns (s: State)
    ensures Holding(s, Three(OnLoan, OnLoan, Available), BOTH, [])
  {
    var all, fewer := Three(Available, Available, Available), Three(OnLoan, Available, Available);
    var fewest := Three(OnLoan, OnLoan, Available);
    s := ThreeShelved();
    CountThree(fewer[0], fewer[1], fewer[2], ShelfOf(0));
    CountThree(fewest[0], fewest[1], fewest[2], ShelfOf(0));
    CountZero([], OpenLoanBy(0));
    CountZero([], OpenLoanOn(0));
    s := LendOne(s, all, [], 0, fewer);
    CountOne(BOTH[0], OpenLoanBy(0));
    CountOne(BOTH[0], OpenLoanOn(1));
    assert [] + [BOTH[0]] == [BOTH[0]];
    s := LendOne(s, fewer, [BOTH[0]], 1, fewest);
    assert [BOTH[0]] + [BOTH[1]] == BOTH;
  }

  lemma OneBack() returns (s: State)
    ensures Holding(s, Three(Available, OnLoan, Available), BOTH[0 := Loan(0, 0, false)],
                    [Reservation(0, 1, Ready, Some(HOLD_PERIOD))])
  {
    var copies := Three(OnLoan, OnLoan, Available);
    s := TwoOut();
    CountThree(copies[0], copies[1], copies[2], ReservableOf(0));
    CountThree(copies[0], copies[1], copies[2], StockOf(0));
    CountThree(copies[0], copies[1], copies[2], ShelfOf(0));
    CountZero([], OpenHoldBy(0, 1));
    s := ReserveOne(s, copies, BOTH, [], 1);
    assert [] + [Joins(1)] == [Joins(1)] + [];
    s := ReturnOne(s, copies, BOTH, Joins(1), []);
    assert copies[0 := Volume("A", Available)] == Three(Available, OnLoan, Available);
    assert [Reservation(0, 1, Ready, Some(HOLD_PERIOD))] + [] == [Reservation(0, 1, Ready, Some(HOLD_PERIOD))];
  }

  /** Three copies, two out, one reader in the queue; one comes back and is then found damaged. */
  lemma HeldButScarce() returns (s: State)
    ensures Reaches(s) && s.roll == READERS && s.copies == Three(Damaged, OnLoan, Available)
    ensures s.queue == [Reservation(0, 1, Ready, Some(HOLD_PERIOD))]
  {
    var broken := UpdateCopy(0, None, Some(Damaged), STAFF);
    s := OneBack();
    ReachNext(s, broken);
    s := Step(s, broken).0;
    assert s.copies == Three(Damaged, OnLoan, Available);
  }

  /** A run in which the reader with the ready hold asks for the copy on the shelf and is refused. */
  lemma ReadyHoldRefused() returns (s: State)
    ensures Reaches(s) && Heads(s.queue, 0) && s.queue[0].user == 1 && s.queue[0].status == Ready
    ensures |s.copies| == 3 && OnShelf(s.copies[2]) && Step(s, Borrow(2, 1, STAFF)).1 == Refused(LastCopyRetained)
  {
    s := HeldButScarce();
    var copies := Three(Damaged, OnLoan, OnLoan);
    assert s.copies[2 := s.copies[2].(status := OnLoan)] == copies;
    CountThree(copies[0], copies[1], copies[2], StockOf(0));
    CountThree(copies[0], copies[1], copies[2], ShelfOf(0));
    assert First(s.queue, WaitingFor(0)) == Some(0);
  }
}
