/** What overlapping does and does not allow: each guard is needed. */
module LendingOverlap {
  import opened Tables
  import opened Domain
  import opened LendingProtocol
  import DeskLending
  import LendingSafety

  ghost predicate Reaches(cfg: Config, s: Sys) {
    exists events :: Run(cfg, IDLE, events) == s
  }

  lemma ReachNext(cfg: Config, s: Sys, e: Event)
    requires Reaches(cfg, s)
    ensures Reaches(cfg, Step(cfg, s, e))
  {
    var events :| Run(cfg, IDLE, events) == s;
    assert (events + [e])[..|events|] == events;
    assert Run(cfg, IDLE, events + [e]) == Step(cfg, s, e);
  }

  /** Nothing stands in the way of this borrow right now. */
  ghost predicate Unobstructed(cfg: Config, s: Sys, id: TxId, copy: CopyId, u: UserId) {
    && copy < |s.db.copies| && OnShelf(s.db.copies[copy]) && !CopyBusy(s, id, copy)
    && !DeskLending.Retained(Claim(s.db.copies, copy), s.db.copies[copy].book)
    && (cfg.userLock ==> !UserBusy(s, id, u))
    && CountIf(s.db.loans, OpenLoanBy(u)) < LimitFor(cfg, u)
    && (cfg.uniqueIndex ==> CountIf(s.db.loans, OpenLoanOn(copy)) == 0)
  }

  /** A borrow can run from its start to just before its commit. */
  lemma ReachInserted(cfg: Config, s: Sys, id: TxId, copy: CopyId, u: UserId)
    requires Reaches(cfg, s) && id !in s.txs && Unobstructed(cfg, s, id, copy, u)
    ensures Reaches(cfg, Goto(s, id, Borrowing(copy, u, Inserted)))
  {
    var mine := Claim(s.db.copies, copy);
    var book := s.db.copies[copy].book;
    ReachNext(cfg, s, Start(id, BorrowJob(copy, u)));
    ReachStage(cfg, s, id, copy, u, Begun, Claimed);
    ReachStage(cfg, s, id, copy, u, Claimed, Counted(CountIf(mine, StockOf(book)), CountIf(mine, ShelfOf(book))));
    ReachStage(cfg, s, id, copy, u, Counted(CountIf(mine, StockOf(book)), CountIf(mine, ShelfOf(book))), UserLocked);
    ReachStage(cfg, s, id, copy, u, UserLocked, UnderLimit);
    ReachStage(cfg, s, id, copy, u, UnderLimit, Inserted);
  }

  lemma ReachStage(cfg: Config, s: Sys, id: TxId, copy: CopyId, u: UserId, at: BorrowAt, at': BorrowAt)
    requires Reaches(cfg, Goto(s, id, Borrowing(copy, u, at)))
    requires Unobstructed(cfg, s, id, copy, u)
    requires BorrowStep(cfg, Goto(s, id, Borrowing(copy, u, at)), id, copy, u, at)
      == Goto(Goto(s, id, Borrowing(copy, u, at)), id, Borrowing(copy, u, at'))
    ensures Reaches(cfg, Goto(s, id, Borrowing(copy, u, at')))
  {
    var here := Goto(s, id, Borrowing(copy, u, at));
    ReachNext(cfg, here, Next(id));
    assert Step(cfg, here, Next(id)) == Goto(s, id, Borrowing(copy, u, at'));
  }

  lemma ReachCommit(cfg: Config, s: Sys, id: TxId, copy: CopyId, u: UserId)
    requires Reaches(cfg, s) && id in s.txs && s.txs[id] == Borrowing(copy, u, Inserted) && copy < |s.db.copies|
    ensures Reaches(cfg, Commit(s, id, Db(Claim(s.db.copies, copy), s.db.loans + [Loan(copy, u, true)])))
  {
    ReachNext(cfg, s, Next(id));
  }

  // Any number of borrows at once

  /** Copies of the given titles, the first `out` of them lent. */
  function Stocked(books: seq<BookId>, out: nat): seq<Copy> {
    seq(|books|, i requires 0 <= i < |books| =>
      Copy(books[i], "", Circulating, if i < out then OnLoan else Available))
  }

  function Lent(users: seq<UserId>, n: nat): seq<Loan>
    requires n <= |users|
  {
    seq(n, i requires 0 <= i < n => Loan(i, users[i], true))
  }

  /** Copy `i` is borrowed by `users[i]`: those below `k` have committed, those from `k` to `m`
    are past every check. */
  function Overlapped(books: seq<BookId>, users: seq<UserId>, k: nat, m: nat): Sys
    requires k <= m <= |books| == |users|
  {
    Sys(Db(Stocked(books, k), Lent(users, k)), map t: nat | k <= t < m :: Borrowing(t, users[t], Inserted))
  }

  /** Each of the borrows would be granted if it came first, and no lock makes one wait for another. */
  ghost predicate MayOverlap(cfg: Config, books: seq<BookId>, users: seq<UserId>) {
    && |books| == |users| && (cfg.userLock ==> Distinct(users))
    && (forall i :: 0 <= i < |users| ==> LimitFor(cfg, users[i]) > 0)
    && (forall i :: 0 <= i < |books| ==> !DeskLending.Retained(Claim(Stocked(books, 0), i), books[i]))
  }

  lemma {:induction false} ReachStocked(cfg: Config, books: seq<BookId>)
    ensures Reaches(cfg, Sys(Db(Stocked(books, 0), []), map[]))
  {
    if books == [] {
      assert Stocked(books, 0) == [];
      assert Run(cfg, IDLE, []) == IDLE;
    } else {
      var front, last := books[..|books| - 1], books[|books| - 1];
      ReachStocked(cfg, front);
      ReachNext(cfg, Sys(Db(Stocked(front, 0), []), map[]), Accession(last, Circulating));
      assert Stocked(front, 0) + [Copy(last, "", Circulating, Available)] == Stocked(books, 0);
    }
  }

  lemma {:induction false} ReachAllInserted(cfg: Config, books: seq<BookId>, users: seq<UserId>, m: nat)
    requires MayOverlap(cfg, books, users) && m <= |books|
    ensures Reaches(cfg, Overlapped(books, users, 0, m))
  {
    if m == 0 {
      ReachStocked(cfg, books);
      assert Overlapped(books, users, 0, 0) == Sys(Db(Stocked(books, 0), []), map[]);
    } else {
      var s, i := Overlapped(books, users, 0, m - 1), m - 1;
      ReachAllInserted(cfg, books, users, i);
      CountZero(s.db.loans, OpenLoanBy(users[i]));
      CountZero(s.db.loans, OpenLoanOn(i));
      ReachInserted(cfg, s, i, i, users[i]);
      assert Goto(s, i, Borrowing(i, users[i], Inserted)) == Overlapped(books, users, 0, m);
    }
  }

  lemma NextCommits(books: seq<BookId>, users: seq<UserId>, k: nat)
    requires k < |books| == |users|
    ensures var s := Overlapped(books, users, k, |books|);
      Commit(s, k, Db(Claim(s.db.copies, k), s.db.loans + [Loan(k, users[k], true)]))
      == Overlapped(books, users, k + 1, |books|)
  {
    assert Claim(Stocked(books, k), k) == Stocked(books, k + 1);
    assert Lent(users, k) + [Loan(k, users[k], true)] == Lent(users, k + 1);
    assert Overlapped(books, users, k, |books|).txs - {k} == Overlapped(books, users, k + 1, |books|).txs;
  }

  lemma {:induction false} ReachAllLent(cfg: Config, books: seq<BookId>, users: seq<UserId>, k: nat)
    requires MayOverlap(cfg, books, users) && k <= |books|
    ensures Reaches(cfg, Overlapped(books, users, k, |books|))
  {
    if k == 0 {
      ReachAllInserted(cfg, books, users, |books|);
    } else {
      ReachAllLent(cfg, books, users, k - 1);
      ReachCommit(cfg, Overlapped(books, users, k - 1, |books|), k - 1, k - 1, users[k - 1]);
      NextCommits(books, users, k - 1);
    }
  }

  // Dropping the user lock

  lemma OneCopyNotRetained(copies: seq<Copy>, c: CopyId)
    requires c < |copies| && forall i :: 0 <= i < |copies| && i != c ==> copies[i].book != copies[c].book
    ensures !DeskLending.Retained(copies, copies[c].book)
  {
    SubsetSize(Matching(copies, StockOf(copies[c].book)), {c});
  }

  /** One member, as many single-copy titles. */
  function Titles(n: nat): seq<BookId> {
    seq(n, (i: nat) => i)
  }

  function Same(u: UserId, n: nat): seq<UserId> {
    seq(n, (i: nat) => u)
  }

  lemma {:induction false} AllOpen(u: UserId, n: nat)
    ensures CountIf(Lent(Same(u, n), n), OpenLoanBy(u)) == n
  {
    if n == 0 {
      CountZero(Lent(Same(u, 0), 0), OpenLoanBy(u));
    } else {
      AllOpen(u, n - 1);
      assert Lent(Same(u, n), n) == Lent(Same(u, n - 1), n - 1) + [Loan(n - 1, u, true)];
      CountAppend(Lent(Same(u, n - 1), n - 1), Loan(n - 1, u, true), OpenLoanBy(u));
    }
  }

  /** Without the user lock, any member who may borrow at all can be lent one book too many. */
  lemma LimitBrokenWithoutLock(cfg: Config, u: UserId)
    requires !cfg.userLock && LimitFor(cfg, u) > 0
    ensures exists events :: CountIf(Run(cfg, IDLE, events).db.loans, OpenLoanBy(u)) > LimitFor(cfg, u)
  {
    var n := LimitFor(cfg, u) + 1;
    var books, users := Titles(n), Same(u, n);
    forall i | 0 <= i < n ensures !DeskLending.Retained(Claim(Stocked(books, 0), i), books[i]) {
      OneCopyNotRetained(Claim(Stocked(books, 0), i), i);
    }
    ReachAllLent(cfg, books, users, n);
    AllOpen(u, n);
    var events :| Run(cfg, IDLE, events) == Overlapped(books, users, n, n);
    assert CountIf(Run(cfg, IDLE, events).db.loans, OpenLoanBy(u)) == n;
  }

  ghost predicate LimitAlwaysHolds(cfg: Config) {
    forall events, u :: CountIf(Run(cfg, IDLE, events).db.loans, OpenLoanBy(u)) <= LimitFor(cfg, u)
  }

  /** The limit holds in every schedule exactly when the member's row is locked before the count. */
  lemma LimitHoldsIffLocked(cfg: Config, u: UserId)
    requires LimitFor(cfg, u) > 0
    ensures LimitAlwaysHolds(cfg) <==> cfg.userLock
  {
    if cfg.userLock {
      forall events, v { LendingSafety.LimitHoldsInEverySchedule(cfg, events, v); }
    } else {
      LimitBrokenWithoutLock(cfg, u);
    }
  }

  // Interleaving UpdateCopy's stale read

  const SHELVED := Copy(0, "", Circulating, Available)

  function Stale(loans: seq<Loan>, txs: map<TxId, Tx>): Sys {
    Sys(Db([SHELVED], loans), txs)
  }

  lemma ReachOneCopy(cfg: Config)
    ensures Reaches(cfg, Stale([], map[]))
  {
    assert Run(cfg, IDLE, []) == IDLE;
    ReachNext(cfg, IDLE, Accession(0, Circulating));
  }

  const CHECKED := EditChecked(0, None, Some(Available))

  lemma ReachCheckedEdit(cfg: Config)
    ensures Reaches(cfg, Stale([], map[0 := CHECKED]))
  {
    ReachOneCopy(cfg);
    ReachNext(cfg, Stale([], map[]), Start(0, EditJob(0, None, Some(Available))));
    var editing := Stale([], map[0 := Editing(0, None, Some(Available))]);
    assert Goto(Stale([], map[]), 0, Editing(0, None, Some(Available))) == editing;
    ReachNext(cfg, editing, Next(0));
    assert editing.txs[0 := CHECKED] == map[0 := CHECKED];
  }

  lemma OneRowUnobstructed(cfg: Config, s: Sys, id: TxId, u: UserId)
    requires s.db.copies == [SHELVED] && LimitFor(cfg, u) > 0 && CountIf(s.db.loans, OpenLoanBy(u)) == 0
    requires s.txs == map[] || s.txs == map[0 := CHECKED]
    requires cfg.uniqueIndex ==> s.db.loans == []
    ensures Unobstructed(cfg, s, id, 0, u)
  {
    OneCopyNotRetained(Claim([SHELVED], 0), 0);
    CountZero([], OpenLoanOn(0));
  }

  /** The copy lent while the edit, its check done, has yet to write. */
  function LentBehindEdit(u: UserId, edit: Tx): Sys {
    Sys(Db([SHELVED.(status := OnLoan)], [Loan(0, u, true)]), map[0 := edit])
  }

  lemma ReachLentBehindEdit(cfg: Config, u: UserId)
    requires LimitFor(cfg, u) > 0
    ensures Reaches(cfg, LentBehindEdit(u, CHECKED))
  {
    var s := Stale([], map[0 := CHECKED]);
    ReachCheckedEdit(cfg);
    CountZero(s.db.loans, OpenLoanBy(u));
    OneRowUnobstructed(cfg, s, 1, u);
    ReachInserted(cfg, s, 1, 0, u);
    var ready := Goto(s, 1, Borrowing(0, u, Inserted));
    ReachCommit(cfg, ready, 1, 0, u);
    assert Claim([SHELVED], 0) == [SHELVED.(status := OnLoan)];
    assert ready.txs - {1} == map[0 := CHECKED];
    assert ready.db.loans + [Loan(0, u, true)] == [Loan(0, u, true)];
  }

  /** An edit that read `available` before a loan committed writes it back afterwards: in every
    configuration a copy can end up on the shelf with its loan open. */
  lemma ReachShelvedWithOpenLoan(cfg: Config, u: UserId)
    requires LimitFor(cfg, u) > 0
    ensures Reaches(cfg, Stale([Loan(0, u, true)], map[]))
  {
    ReachLentBehindEdit(cfg, u);
    var lent := LentBehindEdit(u, CHECKED);
    var written := LentBehindEdit(u, EditWritten(0, None, Some(Available)));
    ReachNext(cfg, lent, Next(0));
    assert Step(cfg, lent, Next(0)) == written by {
      assert lent.txs[0 := EditWritten(0, None, Some(Available))] == written.txs;
    }
    ReachNext(cfg, written, Next(0));
    assert written.db.copies[0 := SHELVED] == [SHELVED];
    assert written.txs - {0} == map[];
  }

  /** Then only the unique index stands between a second borrower and the same copy. */
  lemma TwoOpenLoansWithoutIndex(cfg: Config, u1: UserId, u2: UserId)
    requires !cfg.uniqueIndex && u1 != u2 && LimitFor(cfg, u1) > 0 && LimitFor(cfg, u2) > 0
    ensures exists events :: CountIf(Run(cfg, IDLE, events).db.loans, OpenLoanOn(0)) > 1
  {
    var first := Loan(0, u1, true);
    var s := Stale([first], map[]);
    ReachShelvedWithOpenLoan(cfg, u1);
    CountZero(s.db.loans, OpenLoanBy(u2));
    OneRowUnobstructed(cfg, s, 2, u2);
    ReachInserted(cfg, s, 2, 0, u2);
    ReachCommit(cfg, Goto(s, 2, Borrowing(0, u2, Inserted)), 2, 0, u2);
    var loans := [first, Loan(0, u2, true)];
    assert s.db.loans + [Loan(0, u2, true)] == loans;
    var both := Commit(Goto(s, 2, Borrowing(0, u2, Inserted)), 2, Db(Claim([SHELVED], 0), loans));
    var events :| Run(cfg, IDLE, events) == both;
    SubsetSize({0, 1}, Matching(loans, OpenLoanOn(0)));
  }

  ghost predicate OneOpenLoanAlways(cfg: Config) {
    forall events, c :: CountIf(Run(cfg, IDLE, events).db.loans, OpenLoanOn(c)) <= 1
  }

  /** Over all schedules, edits included, the index is exactly what keeps one open loan per copy. */
  lemma OneOpenLoanIffIndexed(cfg: Config, u1: UserId, u2: UserId)
    requires u1 != u2 && LimitFor(cfg, u1) > 0 && LimitFor(cfg, u2) > 0
    ensures OneOpenLoanAlways(cfg) <==> cfg.uniqueIndex
  {
    if cfg.uniqueIndex {
      forall events { LendingSafety.IndexAllowsOneOpenLoan(cfg, events); }
    } else {
      TwoOpenLoansWithoutIndex(cfg, u1, u2);
    }
  }
}
