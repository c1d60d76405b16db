/** Counting and being disturbed: the bound on last-copy retention under overlap is exact. */
module LendingBound {
  import opened Tables
  import opened Domain
  import opened LendingProtocol
  import opened LendingOverlap
  import opened LendingRetention
  import DeskLending

  /** Whatever the schedule, a borrow that counted `left` copies and saw `d` disturbances leaves a
    copy of its title on the shelf or a lending stock below two. */
  ghost predicate AlwaysRetains(cfg: Config, left: nat, d: nat) {
    forall events: seq<Event>, i: nat, j: nat, id: TxId
      | CommitsDisturbed(History(cfg, events), events, i, j, id, left, d) ::
      !DeskLending.Retained(History(cfg, events)[j + 1].db.copies, TitleOf(History(cfg, events)[j], id))
  }

  /** With two members who may borrow, the last copy is safe from a borrow that counted `left`
    copies and saw `d` disturbances exactly when `d` is below `left`, or is nought where `left` is. */
  lemma RetentionIff(cfg: Config, left: nat, d: nat, u1: UserId, u2: UserId)
    requires u1 != u2 && LimitFor(cfg, u1) > 0 && LimitFor(cfg, u2) > 0
    ensures AlwaysRetains(cfg, left, d) <==> d < Least(left)
  {
    if d < Least(left) {
      FewRetain(cfg, left, d);
    } else {
      ManyEmpty(cfg, left, d, u1, u2);
      ShelfEmptied(Least(left) + 1, d);
      EmptiedByCommit(cfg, left, d, Disturbed(Least(left) + 1, d, u1, u2));
    }
  }

  lemma FewRetain(cfg: Config, left: nat, d: nat)
    requires d < Least(left)
    ensures AlwaysRetains(cfg, left, d)
  {
    forall events: seq<Event>, i: nat, j: nat, id: TxId
      | CommitsDisturbed(History(cfg, events), events, i, j, id, left, d)
      ensures !DeskLending.Retained(History(cfg, events)[j + 1].db.copies, TitleOf(History(cfg, events)[j], id))
    {
      FewDisturbancesRetainLastCopy(cfg, History(cfg, events), events, i, j, id, left, d);
    }
  }

  // Schedules with one borrow in flight

  /** The borrow 0 has counted `left` copies, has not ended, and has seen `d` disturbances. */
  ghost predicate Waited(states: seq<Sys>, events: seq<Event>, i: nat, left: nat, d: nat) {
    && CountsLeft(states, events, i, 0, left) && InFlight(states, i, |events|, 0)
    && Disturbances(states, events, i, |events|, 0) == d
  }

  ghost predicate Awaits(cfg: Config, left: nat, s: Sys, d: nat) {
    exists events, i ::
      Waited(History(cfg, events), events, i, left, d) && History(cfg, events)[|events|] == s
  }

  lemma {:induction false} FlightOfPrefix(
    states: seq<Sys>, events: seq<Event>, s: Sys, e: Event, i: nat, j: nat, id: TxId)
    requires j <= |events| && InFlight(states, i, j, id)
    ensures InFlight(states + [s], i, j, id)
    ensures Disturbances(states + [s], events + [e], i, j, id) == Disturbances(states, events, i, j, id)
    decreases j
  {
    if j > i + 1 {
      FlightOfPrefix(states, events, s, e, i, j - 1, id);
    }
  }

  lemma WaitedLonger(states: seq<Sys>, events: seq<Event>, s: Sys, e: Event, i: nat, left: nat, d: nat)
    requires |states| == |events| + 1 && Waited(states, events, i, left, d) && PastCount(s, 0)
    ensures PastCount(states[|events|], 0)
    ensures Waited(states + [s], events + [e], i, left, d + Bit(DisturbedBy(states, events + [e], |events|, 0)))
  {
    FlightOfPrefix(states, events, s, e, i, |events|, 0);
  }

  lemma HistoryLonger(cfg: Config, events: seq<Event>, e: Event)
    ensures var before := History(cfg, events);
      History(cfg, events + [e]) == before + [Step(cfg, before[|events|], e)]
  {
    assert (events + [e])[..|events|] == events;
  }

  lemma AwaitsLonger(
    cfg: Config, left: nat, events: seq<Event>, i: nat, s: Sys, e: Event, s': Sys, d: nat)
    requires Waited(History(cfg, events), events, i, left, d) && History(cfg, events)[|events|] == s
    requires PastCount(s, 0) && PastCount(s', 0) && Step(cfg, s, e) == s'
    ensures Awaits(cfg, left, s', d + Bit(DisturbsTitle(s, e, 0, TitleOf(s, 0))))
  {
    HistoryLonger(cfg, events, e);
    WaitedLonger(History(cfg, events), events, s', e, i, left, d);
    assert History(cfg, events + [e])[|events| + 1] == s';
  }

  lemma AwaitsNext(cfg: Config, left: nat, s: Sys, e: Event, s': Sys, d: nat)
    requires Awaits(cfg, left, s, d) && PastCount(s, 0) && PastCount(s', 0) && Step(cfg, s, e) == s'
    ensures Awaits(cfg, left, s', d + Bit(DisturbsTitle(s, e, 0, TitleOf(s, 0))))
  {
    var events, i :|
      Waited(History(cfg, events), events, i, left, d) && History(cfg, events)[|events|] == s;
    AwaitsLonger(cfg, left, events, i, s, e, s', d);
  }

  /** States in which the borrow 0 may wait, with the disturbances it has seen: any event that
    leaves it waiting leads to another. */
  ghost predicate Closed(cfg: Config, waits: (Sys, nat) -> bool) {
    forall s, e, s', d: nat | PastCount(s, 0) && PastCount(s', 0) && Step(cfg, s, e) == s' && waits(s, d) ::
      waits(s', d + Bit(DisturbsTitle(s, e, 0, TitleOf(s, 0))))
  }

  lemma AwaitsClosed(cfg: Config, left: nat)
    ensures Closed(cfg, (s: Sys, d: nat) => Awaits(cfg, left, s, d))
  {
    forall s, e, s', d: nat
      | PastCount(s, 0) && PastCount(s', 0) && Step(cfg, s, e) == s' && Awaits(cfg, left, s, d)
      ensures Awaits(cfg, left, s', d + Bit(DisturbsTitle(s, e, 0, TitleOf(s, 0))))
    {
      AwaitsNext(cfg, left, s, e, s', d);
    }
  }

  lemma WaitsNext(cfg: Config, waits: (Sys, nat) -> bool, s: Sys, e: Event, s': Sys, d: nat, d': nat)
    requires Closed(cfg, waits) && waits(s, d) && PastCount(s, 0) && PastCount(s', 0) && Step(cfg, s, e) == s'
    requires d' == d + Bit(DisturbsTitle(s, e, 0, TitleOf(s, 0)))
    ensures waits(s', d')
  {
  }

  // The borrow counts

  function Alone(u: UserId, at: BorrowAt): map<TxId, Tx> {
    map[0 := Borrowing(0, u, at)]
  }

  function Shelved(n: nat, u: UserId, at: BorrowAt): Sys {
    Sys(Db(Stocked(Copies(0, n), 0), []), Alone(u, at))
  }

  lemma {:induction false} AllShelved(n: nat, p: Copy -> bool)
    requires p(SHELVED)
    ensures CountIf(Stocked(Copies(0, n), 0), p) == n
  {
    if n == 0 {
      CountZero(Stocked(Copies(0, 0), 0), p);
    } else {
      AllShelved(n - 1, p);
      assert Stocked(Copies(0, n), 0) == Stocked(Copies(0, n - 1), 0) + [SHELVED];
      CountAppend(Stocked(Copies(0, n - 1), 0), SHELVED, p);
    }
  }

  /** Beside the one it claims it counts all the others. */
  lemma CountsTheOthers(left: nat)
    ensures var mine := Claim(Stocked(Copies(0, left + 1), 0), 0);
      CountIf(mine, StockOf(0)) == left + 1 && CountIf(mine, ShelfOf(0)) == left
  {
    var copies := Stocked(Copies(0, left + 1), 0);
    AllShelved(left + 1, StockOf(0));
    AllShelved(left + 1, ShelfOf(0));
    assert copies[0] == SHELVED;
    CountUpdate(copies, 0, SHELVED.(status := OnLoan), StockOf(0));
    CountUpdate(copies, 0, SHELVED.(status := OnLoan), ShelfOf(0));
  }

  lemma ReachClaimed(cfg: Config, n: nat, u: UserId)
    requires n > 0
    ensures Reaches(cfg, Shelved(n, u, Claimed))
  {
    var s := Sys(Db(Stocked(Copies(0, n), 0), []), map[]);
    ReachStocked(cfg, Copies(0, n));
    ReachNext(cfg, s, Start(0, BorrowJob(0, u)));
    assert Step(cfg, s, Start(0, BorrowJob(0, u))) == Shelved(n, u, Begun);
    ReachNext(cfg, Shelved(n, u, Begun), Next(0));
    assert Step(cfg, Shelved(n, u, Begun), Next(0)) == Shelved(n, u, Claimed);
  }

  lemma ReachCounted(cfg: Config, left: nat, u: UserId)
    ensures Awaits(cfg, left, Shelved(left + 1, u, Counted(left + 1, left)), 0)
  {
    var s, s' := Shelved(left + 1, u, Claimed), Shelved(left + 1, u, Counted(left + 1, left));
    ReachClaimed(cfg, left + 1, u);
    CountsTheOthers(left);
    var events :| Run(cfg, IDLE, events) == s;
    HistoryIsRun(cfg, events);
    HistoryLonger(cfg, events, Next(0));
    assert Step(cfg, s, Next(0)) == s';
    FirstWait(History(cfg, events), events, s', left);
  }

  lemma FirstWait(states: seq<Sys>, events: seq<Event>, s: Sys, left: nat)
    requires |states| == |events| + 1 && CountsLeft(states + [s], events + [Next(0)], |events|, 0, left)
    requires PastCount(s, 0)
    ensures Waited(states + [s], events + [Next(0)], |events|, left, 0)
  {
  }

  lemma SubjectStage(cfg: Config, waits: (Sys, nat) -> bool, n: nat, u: UserId, at: BorrowAt, at': BorrowAt)
    requires Closed(cfg, waits)
    requires n > 0 && waits(Shelved(n, u, at), 0)
    requires PastCount(Shelved(n, u, at), 0) && PastCount(Shelved(n, u, at'), 0)
    requires BorrowStep(cfg, Shelved(n, u, at), 0, 0, u, at) == Shelved(n, u, at')
    ensures waits(Shelved(n, u, at'), 0)
  {
    assert Step(cfg, Shelved(n, u, at), Next(0)) == Shelved(n, u, at');
    WaitsNext(cfg, waits, Shelved(n, u, at), Next(0), Shelved(n, u, at'), 0, 0);
  }

  lemma ReachWaiting(cfg: Config, waits: (Sys, nat) -> bool, left: nat, u: UserId)
    requires Closed(cfg, waits) && waits(Shelved(left + 1, u, Counted(left + 1, left)), 0)
    requires LimitFor(cfg, u) > 0
    ensures waits(Shelved(left + 1, u, Inserted), 0)
  {
    var n := left + 1;
    SubjectStage(cfg, waits, n, u, Counted(n, left), UserLocked);
    CountZero(Shelved(n, u, UserLocked).db.loans, OpenLoanBy(u));
    SubjectStage(cfg, waits, n, u, UserLocked, UnderLimit);
    CountZero(Shelved(n, u, UnderLimit).db.loans, OpenLoanOn(0));
    SubjectStage(cfg, waits, n, u, UnderLimit, Inserted);
  }

  // The others empty the shelf

  /** Of the copies of the title, the first is waited for, `k` disturbances have lent the second
    and lost the following. */
  function Emptying(n: nat, k: nat): seq<Copy> {
    seq(n, i requires 0 <= i < n =>
      Copy(0, "", Circulating, if i == 0 || i > k then Available else if i == 1 then OnLoan else Lost))
  }

  function Disturbed(n: nat, k: nat, u1: UserId, u2: UserId): Sys {
    Sys(Db(Emptying(n, k), if k == 0 then [] else [Loan(1, u2, true)]), Alone(u1, Inserted))
  }

  lemma ReachUndisturbed(cfg: Config, waits: (Sys, nat) -> bool, left: nat, u1: UserId, u2: UserId)
    requires Closed(cfg, waits) && waits(Shelved(left + 1, u1, Counted(left + 1, left)), 0)
    requires LimitFor(cfg, u1) > 0
    ensures waits(Disturbed(Least(left) + 1, 0, u1, u2), 0)
  {
    ReachWaiting(cfg, waits, left, u1);
    assert Emptying(left + 1, 0) == Stocked(Copies(0, left + 1), 0);
    if left == 0 {
      assert Emptying(2, 0) == Stocked(Copies(0, 1), 0) + [SHELVED];
      WaitsNext(cfg, waits, Shelved(1, u1, Inserted), Accession(0, Circulating), Disturbed(2, 0, u1, u2), 0, 0);
    }
  }

  function Beside(s: Sys, tx: Tx): Sys {
    s.(txs := s.txs[1 := tx])
  }

  lemma OtherStage(cfg: Config, waits: (Sys, nat) -> bool, s: Sys, tx: Tx, tx': Tx, d: nat)
    requires Closed(cfg, waits)
    requires PastCount(s, 0) && waits(Beside(s, tx), d)
    requires Step(cfg, Beside(s, tx), Next(1)) == Beside(s, tx')
    requires !DisturbsTitle(Beside(s, tx), Next(1), 0, TitleOf(s, 0))
    ensures waits(Beside(s, tx'), d)
  {
    WaitsNext(cfg, waits, Beside(s, tx), Next(1), Beside(s, tx'), d, d);
  }

  lemma LoanStage(cfg: Config, waits: (Sys, nat) -> bool, s: Sys, at: BorrowAt, at': BorrowAt, u: UserId)
    requires Closed(cfg, waits)
    requires at != Inserted && PastCount(s, 0)
    requires waits(Beside(s, Borrowing(1, u, at)), 0)
    requires BorrowStep(cfg, Beside(s, Borrowing(1, u, at)), 1, 1, u, at)
      == Goto(Beside(s, Borrowing(1, u, at)), 1, Borrowing(1, u, at'))
    ensures waits(Beside(s, Borrowing(1, u, at')), 0)
  {
    var here, there := Beside(s, Borrowing(1, u, at)), Beside(s, Borrowing(1, u, at'));
    assert Step(cfg, here, Next(1)) == there;
    OtherStage(cfg, waits, s, Borrowing(1, u, at), Borrowing(1, u, at'), 0);
  }

  /** The second member's borrow of the second copy passes its retention count, since the first is
    still on the shelf. */
  lemma ReachLoanCounted(cfg: Config, waits: (Sys, nat) -> bool, n: nat, u1: UserId, u2: UserId)
    requires Closed(cfg, waits) && n >= 2 && waits(Disturbed(n, 0, u1, u2), 0)
    ensures var s := Disturbed(n, 0, u1, u2);
      var mine := Claim(s.db.copies, 1);
      waits(Beside(s, Borrowing(1, u2, Counted(CountIf(mine, StockOf(0)), CountIf(mine, ShelfOf(0))))), 0)
  {
    var s := Disturbed(n, 0, u1, u2);
    var mine := Claim(s.db.copies, 1);
    var counted := Counted(CountIf(mine, StockOf(0)), CountIf(mine, ShelfOf(0)));
    WaitsNext(cfg, waits, s, Start(1, BorrowJob(1, u2)), Beside(s, Borrowing(1, u2, Begun)), 0, 0);
    LoanStage(cfg, waits, s, Begun, Claimed, u2);
    CountZero(mine, ShelfOf(0));
    assert ShelfOf(0)(mine[0]);
    LoanStage(cfg, waits, s, Claimed, counted, u2);
  }

  /** Its other checks pass as well. */
  lemma ReachLoanReady(cfg: Config, waits: (Sys, nat) -> bool, n: nat, u1: UserId, u2: UserId)
    requires Closed(cfg, waits)
    requires n >= 2 && u1 != u2 && LimitFor(cfg, u2) > 0
    requires waits(Disturbed(n, 0, u1, u2), 0)
    ensures waits(Beside(Disturbed(n, 0, u1, u2), Borrowing(1, u2, Inserted)), 0)
  {
    var s := Disturbed(n, 0, u1, u2);
    var mine := Claim(s.db.copies, 1);
    var counted := Counted(CountIf(mine, StockOf(0)), CountIf(mine, ShelfOf(0)));
    ReachLoanCounted(cfg, waits, n, u1, u2);
    LoanStage(cfg, waits, s, counted, UserLocked, u2);
    CountZero(s.db.loans, OpenLoanBy(u2));
    LoanStage(cfg, waits, s, UserLocked, UnderLimit, u2);
    CountZero(s.db.loans, OpenLoanOn(1));
    LoanStage(cfg, waits, s, UnderLimit, Inserted, u2);
  }

  lemma LoanDisturbs(cfg: Config, waits: (Sys, nat) -> bool, n: nat, u1: UserId, u2: UserId)
    requires Closed(cfg, waits)
    requires n >= 2 && waits(Beside(Disturbed(n, 0, u1, u2), Borrowing(1, u2, Inserted)), 0)
    ensures waits(Disturbed(n, 1, u1, u2), 1)
  {
    var s, s' := Disturbed(n, 0, u1, u2), Disturbed(n, 1, u1, u2);
    var ready := Beside(s, Borrowing(1, u2, Inserted));
    assert Claim(s.db.copies, 1) == s'.db.copies;
    assert ready.txs - {1} == s'.txs;
    assert s.db.loans + [Loan(1, u2, true)] == s'.db.loans;
    WaitsNext(cfg, waits, ready, Next(1), s', 0, 1);
  }

  /** A status the service lets an edit give this copy without closing a loan. */
  predicate MayMark(copies: seq<Copy>, c: CopyId, to: CopyStatus) {
    && 0 < c < |copies| && copies[c].book == copies[0].book
    && CanTransitionTo(copies[c].status, to) && (copies[c].status == to || copies[c].status != OnLoan)
  }

  lemma ReachEditWritten(cfg: Config, waits: (Sys, nat) -> bool, s: Sys, u: UserId, c: CopyId, to: CopyStatus, d: nat)
    requires Closed(cfg, waits)
    requires s.txs == Alone(u, Inserted) && MayMark(s.db.copies, c, to) && waits(s, d)
    ensures waits(Beside(s, EditWritten(c, None, Some(to))), d)
  {
    var editing, checked := Editing(c, None, Some(to)), EditChecked(c, None, Some(to));
    WaitsNext(cfg, waits, s, Start(1, EditJob(c, None, Some(to))), Beside(s, editing), d, d);
    EditSteps(cfg, s, u, c, to);
    OtherStage(cfg, waits, s, editing, checked, d);
    OtherStage(cfg, waits, s, checked, EditWritten(c, None, Some(to)), d);
  }

  lemma EditSteps(cfg: Config, s: Sys, u: UserId, c: CopyId, to: CopyStatus)
    requires s.txs == Alone(u, Inserted) && MayMark(s.db.copies, c, to)
    ensures var editing, checked := Editing(c, None, Some(to)), EditChecked(c, None, Some(to));
      && Step(cfg, Beside(s, editing), Next(1)) == Beside(s, checked)
      && Step(cfg, Beside(s, checked), Next(1)) == Beside(s, EditWritten(c, None, Some(to)))
  {
    var editing, checked := Beside(s, Editing(c, None, Some(to))), Beside(s, EditChecked(c, None, Some(to)));
    assert EditStep(editing, 1) == checked;
    assert EditStep(checked, 1) == Beside(s, EditWritten(c, None, Some(to)));
  }

  function Mark(s: Sys, c: CopyId, to: CopyStatus): Sys
    requires c < |s.db.copies|
  {
    s.(db := s.db.(copies := s.db.copies[c := s.db.copies[c].(status := to)]))
  }

  lemma EditDisturbs(cfg: Config, waits: (Sys, nat) -> bool, s: Sys, u: UserId, c: CopyId, to: CopyStatus, d: nat)
    requires Closed(cfg, waits)
    requires s.txs == Alone(u, Inserted) && MayMark(s.db.copies, c, to) && waits(s, d)
    ensures waits(Mark(s, c, to), d + 1)
  {
    var written := Beside(s, EditWritten(c, None, Some(to)));
    ReachEditWritten(cfg, waits, s, u, c, to, d);
    assert written.txs - {1} == s.txs;
    assert EditStep(written, 1) == Mark(s, c, to);
    WaitsNext(cfg, waits, written, Next(1), Mark(s, c, to), d, d + 1);
  }

  /** Every edit takes a copy off the shelf while there is one, and afterwards changes nothing. */
  lemma {:induction false} ReachEmptied(
    cfg: Config, waits: (Sys, nat) -> bool, left: nat, k: nat, u1: UserId, u2: UserId)
    requires Closed(cfg, waits) && waits(Shelved(left + 1, u1, Counted(left + 1, left)), 0)
    requires u1 != u2 && LimitFor(cfg, u1) > 0 && LimitFor(cfg, u2) > 0
    ensures waits(Disturbed(Least(left) + 1, k, u1, u2), k)
  {
    var n := Least(left) + 1;
    if k == 0 {
      ReachUndisturbed(cfg, waits, left, u1, u2);
    } else if k == 1 {
      ReachEmptied(cfg, waits, left, 0, u1, u2);
      ReachLoanReady(cfg, waits, n, u1, u2);
      LoanDisturbs(cfg, waits, n, u1, u2);
    } else {
      ReachEmptied(cfg, waits, left, k - 1, u1, u2);
      var s, c, to := Disturbed(n, k - 1, u1, u2), if k < n then k else 1, if k < n then Lost else OnLoan;
      EditDisturbs(cfg, waits, s, u1, c, to, k - 1);
      assert s.db.copies[c := s.db.copies[c].(status := to)] == Emptying(n, k);
    }
  }

  lemma CommitsLonger(states: seq<Sys>, events: seq<Event>, s: Sys, i: nat, left: nat, d: nat)
    requires |states| == |events| + 1 && Waited(states, events, i, left, d)
    requires states[|events|].txs[0].at == Inserted
    ensures CommitsDisturbed(states + [s], events + [Next(0)], i, |events|, 0, left, d)
  {
    FlightOfPrefix(states, events, s, Next(0), i, |events|, 0);
  }

  /** By now its commit lends the last copy. */
  lemma EmptiedByCommit(cfg: Config, left: nat, d: nat, s: Sys)
    requires Awaits(cfg, left, s, d) && PastCount(s, 0) && s.txs[0].at == Inserted
    requires DeskLending.Retained(Claim(s.db.copies, s.txs[0].copy), TitleOf(s, 0))
    ensures !AlwaysRetains(cfg, left, d)
  {
    var events, i :|
      Waited(History(cfg, events), events, i, left, d) && History(cfg, events)[|events|] == s;
    var s' := Step(cfg, s, Next(0));
    HistoryLonger(cfg, events, Next(0));
    CommitsLonger(History(cfg, events), events, s', i, left, d);
    assert s'.db.copies == Claim(s.db.copies, s.txs[0].copy);
  }

  lemma ManyEmpty(cfg: Config, left: nat, d: nat, u1: UserId, u2: UserId)
    requires u1 != u2 && LimitFor(cfg, u1) > 0 && LimitFor(cfg, u2) > 0
    ensures Awaits(cfg, left, Disturbed(Least(left) + 1, d, u1, u2), d)
  {
    var waits: (Sys, nat) -> bool := (s: Sys, k: nat) => Awaits(cfg, left, s, k);
    AwaitsClosed(cfg, left);
    ReachCounted(cfg, left, u1);
    ReachEmptied(cfg, waits, left, d, u1, u2);
  }

  lemma ShelfEmptied(n: nat, d: nat)
    requires n >= 2 && d >= n - 1
    ensures DeskLending.Retained(Claim(Emptying(n, d), 0), 0)
  {
    var copies := Claim(Emptying(n, d), 0);
    SubsetSize({0, 1}, Matching(copies, StockOf(0)));
    CountZero(copies, ShelfOf(0));
  }
}
