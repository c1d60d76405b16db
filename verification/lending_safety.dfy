/** Safety of interleaved lending: for every schedule, with each guard's reason. */
module LendingSafety {
  import opened Tables
  import opened Domain
  import opened LendingProtocol

  // The borrowing limit

  predicate PassedLimit(tx: Tx, u: UserId) {
    tx.Borrowing? && tx.user == u && (tx.at == UnderLimit || tx.at == Inserted)
  }

  /** A passed count stays true while its user lock is held, because only the holder can add a loan. */
  ghost predicate LimitsSafe(cfg: Config, s: Sys) {
    && UsersExclusive(s)
    && (forall u :: CountIf(s.db.loans, OpenLoanBy(u)) <= LimitFor(cfg, u))
    && PassesHold(cfg, s.txs, s.db.loans)
  }

  ghost predicate PassesHold(cfg: Config, txs: map<TxId, Tx>, loans: seq<Loan>) {
    forall t, u :: t in txs && PassedLimit(txs[t], u) ==> CountIf(loans, OpenLoanBy(u)) < LimitFor(cfg, u)
  }

  ghost predicate Remain(s: Sys, s': Sys) {
    forall t :: t in s'.txs ==> t in s.txs && s'.txs[t] == s.txs[t]
  }

  /** Transaction `id` has committed its new loan. */
  ghost predicate Inserts(s: Sys, id: TxId, s': Sys) {
    && id in s.txs && s.txs[id].Borrowing? && s.txs[id].at == Inserted
    && id !in s'.txs && Remain(s, s')
    && s'.db.loans == s.db.loans + [Loan(s.txs[id].copy, s.txs[id].user, true)]
  }

  ghost predicate Closes(s: Sys, s': Sys) {
    exists ids :: s'.db.loans == CloseLoans(s.db.loans, ids)
  }

  /** Loans change only by an insert at a borrower's commit or by being closed. */
  lemma LoansAtStep(cfg: Config, s: Sys, e: Event)
    ensures var s' := Step(cfg, s, e); s'.db.loans == s.db.loans || (e.Next? && Inserts(s, e.id, s')) || Closes(s, s')
  {
  }

  /** The commit of an insert: the new loan is the locked member's, whose count was below the limit. */
  lemma InsertKeepsLimits(cfg: Config, s: Sys, id: TxId, s': Sys)
    requires LimitsSafe(cfg, s) && Inserts(s, id, s')
    ensures forall u :: CountIf(s'.db.loans, OpenLoanBy(u)) <= LimitFor(cfg, u)
    ensures PassesHold(cfg, s'.txs, s'.db.loans)
  {
    var tx := s.txs[id];
    assert PassedLimit(tx, tx.user) && LocksUser(tx, tx.user);
    forall u { CountAppend(s.db.loans, Loan(tx.copy, tx.user, true), OpenLoanBy(u)); }
  }

  lemma ClosingKeepsLimits(cfg: Config, s: Sys, s': Sys)
    requires LimitsSafe(cfg, s) && Closes(s, s') && PassesHold(cfg, s'.txs, s.db.loans)
    ensures forall u :: CountIf(s'.db.loans, OpenLoanBy(u)) <= LimitFor(cfg, u)
    ensures PassesHold(cfg, s'.txs, s'.db.loans)
  {
    var ids :| s'.db.loans == CloseLoans(s.db.loans, ids);
    forall u { CommitCloses(s.db.loans, ids, OpenLoanBy(u)); }
  }

  lemma StepKeepsLimits(cfg: Config, s: Sys, e: Event)
    requires cfg.userLock && LimitsSafe(cfg, s)
    ensures LimitsSafe(cfg, Step(cfg, s, e))
  {
    var s' := Step(cfg, s, e);
    StepKeepsUsersExclusive(cfg, s, e);
    LoansAtStep(cfg, s, e);
    CountedUnderLock(cfg, s, e);
    if s'.db.loans != s.db.loans {
      if e.Next? && Inserts(s, e.id, s') {
        InsertKeepsLimits(cfg, s, e.id, s');
      } else {
        ClosingKeepsLimits(cfg, s, s');
      }
    }
  }

  lemma CountedUnderLock(cfg: Config, s: Sys, e: Event)
    requires cfg.userLock && LimitsSafe(cfg, s)
    ensures PassesHold(cfg, Step(cfg, s, e).txs, s.db.loans)
  {
    OthersStay(cfg, s, e);
  }

  /** With the user row locked before the count, no schedule of any number of borrows, returns
    and copy edits, crashes included, leaves a member over the limit. */
  lemma {:induction false} LimitHoldsInEverySchedule(cfg: Config, events: seq<Event>, u: UserId)
    requires cfg.userLock
    ensures CountIf(Run(cfg, IDLE, events).db.loans, OpenLoanBy(u)) <= LimitFor(cfg, u)
  {
    LimitsSafeInEverySchedule(cfg, events);
  }

  lemma {:induction false} LimitsSafeInEverySchedule(cfg: Config, events: seq<Event>)
    requires cfg.userLock
    ensures LimitsSafe(cfg, Run(cfg, IDLE, events))
  {
    if events == [] {
      forall u { CountZero(IDLE.db.loans, OpenLoanBy(u)); }
    } else {
      LimitsSafeInEverySchedule(cfg, events[..|events| - 1]);
      StepKeepsLimits(cfg, Run(cfg, IDLE, events[..|events| - 1]), events[|events| - 1]);
    }
  }

  // One open loan per copy

  ghost predicate OneOpenLoan(db: Db) {
    forall c :: CountIf(db.loans, OpenLoanOn(c)) <= 1
  }

  predicate InsertedOn(tx: Tx, c: CopyId) {
    tx.Borrowing? && tx.copy == c && tx.at == Inserted
  }

  ghost predicate IndexSafe(s: Sys) {
    && CopiesExclusive(s) && OneOpenLoan(s.db)
    && InsertsClear(s.txs, s.db.loans)
  }

  ghost predicate InsertsClear(txs: map<TxId, Tx>, loans: seq<Loan>) {
    forall t, c :: t in txs && InsertedOn(txs[t], c) ==> CountIf(loans, OpenLoanOn(c)) == 0
  }

  lemma InsertChecksIndex(cfg: Config, s: Sys, e: Event)
    requires cfg.uniqueIndex && IndexSafe(s)
    ensures InsertsClear(Step(cfg, s, e).txs, s.db.loans)
  {
  }

  lemma InsertKeepsIndex(s: Sys, id: TxId, s': Sys)
    requires IndexSafe(s) && Inserts(s, id, s')
    ensures OneOpenLoan(s'.db) && InsertsClear(s'.txs, s'.db.loans)
  {
    var tx := s.txs[id];
    assert InsertedOn(tx, tx.copy) && LocksCopy(tx, tx.copy);
    forall c { CountAppend(s.db.loans, Loan(tx.copy, tx.user, true), OpenLoanOn(c)); }
  }

  lemma ClosingKeepsIndex(s: Sys, s': Sys)
    requires OneOpenLoan(s.db) && Closes(s, s') && InsertsClear(s'.txs, s.db.loans)
    ensures OneOpenLoan(s'.db) && InsertsClear(s'.txs, s'.db.loans)
  {
    var ids :| s'.db.loans == CloseLoans(s.db.loans, ids);
    forall c { CommitCloses(s.db.loans, ids, OpenLoanOn(c)); }
  }

  lemma StepKeepsIndexSafe(cfg: Config, s: Sys, e: Event)
    requires cfg.uniqueIndex && IndexSafe(s)
    ensures IndexSafe(Step(cfg, s, e))
  {
    var s' := Step(cfg, s, e);
    StepKeepsCopiesExclusive(cfg, s, e);
    LoansAtStep(cfg, s, e);
    InsertChecksIndex(cfg, s, e);
    if s'.db.loans != s.db.loans {
      if e.Next? && Inserts(s, e.id, s') {
        InsertKeepsIndex(s, e.id, s');
      } else {
        ClosingKeepsIndex(s, s');
      }
    }
  }

  /** With the partial unique index, no schedule gives a copy two open loans. */
  lemma {:induction false} IndexAllowsOneOpenLoan(cfg: Config, events: seq<Event>)
    requires cfg.uniqueIndex
    ensures IndexSafe(Run(cfg, IDLE, events))
  {
    if events == [] {
      forall c { CountZero(IDLE.db.loans, OpenLoanOn(c)); }
    } else {
      IndexAllowsOneOpenLoan(cfg, events[..|events| - 1]);
      StepKeepsIndexSafe(cfg, Run(cfg, IDLE, events[..|events| - 1]), events[|events| - 1]);
    }
  }

  // The same without the index

  /** The event commits an edit that puts a copy back on the shelf while its loan is open. */
  predicate StaleShelving(s: Sys, e: Event) {
    && e.Next? && e.id in s.txs && s.txs[e.id].EditWritten? && s.txs[e.id].status == Some(Available)
    && s.txs[e.id].copy < |s.db.copies| && CountIf(s.db.loans, OpenLoanOn(s.txs[e.id].copy)) > 0
  }

  /** What each transaction relies on while its locks are held. */
  ghost predicate TxSound(db: Db, tx: Tx) {
    match tx
    case Borrowing(copy, _, at) => at != Begun ==> copy < |db.copies| && db.copies[copy].status == Available
    case LoanClosed(l, copy) => l < |db.loans| && db.loans[l].open && db.loans[l].copy == copy
    case CopyFreed(l, copy, _) => l < |db.loans| && db.loans[l].open && db.loans[l].copy == copy
    case Marking(_, to) => to != Available
    case MarkScanned(_, to, _) => to != Available
    case MarkClosed(_, to, _) => to != Available
    case Marked(_, to, _) => to != Available
    case _ => true
  }

  /** No copy stands on the shelf with a loan of it open. */
  ghost predicate ShelfClear(db: Db) {
    forall c :: 0 <= c < |db.copies| && db.copies[c].status == Available ==> CountIf(db.loans, OpenLoanOn(c)) == 0
  }

  ghost predicate DbSound(db: Db) {
    && OneOpenLoan(db) && ShelfClear(db)
    && (forall l :: 0 <= l < |db.loans| ==> db.loans[l].copy < |db.copies|)
  }

  ghost predicate ClaimSafe(s: Sys) {
    && CopiesExclusive(s) && LoansExclusive(s) && DbSound(s.db)
    && (forall t :: t in s.txs ==> TxSound(s.db, s.txs[t]))
  }

  lemma BorrowCommitSound(db: Db, copy: CopyId, user: UserId)
    requires DbSound(db) && copy < |db.copies| && db.copies[copy].status == Available
    ensures DbSound(Db(Claim(db.copies, copy), db.loans + [Loan(copy, user, true)]))
  {
    forall c { CountAppend(db.loans, Loan(copy, user, true), OpenLoanOn(c)); }
  }

  lemma ReturnCommitSound(db: Db, loan: LoanId, copy: CopyId, wrote: bool)
    requires DbSound(db) && loan < |db.loans| && db.loans[loan].open && db.loans[loan].copy == copy
    ensures DbSound(Db(Freed(db.copies, copy, wrote), CloseLoans(db.loans, {loan})))
  {
    assert CloseLoans(db.loans, {loan}) == db.loans[loan := db.loans[loan].(open := false)];
    forall c { CountUpdate(db.loans, loan, db.loans[loan].(open := false), OpenLoanOn(c)); }
  }

  lemma MarkCommitSound(db: Db, copy: CopyId, to: CopyStatus, closed: set<LoanId>)
    requires DbSound(db) && copy < |db.copies| && to != Available
    ensures DbSound(Db(db.copies[copy := db.copies[copy].(status := to)], CloseLoans(db.loans, closed)))
  {
    forall c { CommitCloses(db.loans, closed, OpenLoanOn(c)); }
  }

  lemma AccessionSound(db: Db, copy: Copy)
    requires DbSound(db) && copy.status == Available
    ensures DbSound(db.(copies := db.copies + [copy]))
  {
  }

  lemma StepKeepsDbSound(cfg: Config, s: Sys, e: Event)
    requires ClaimSafe(s) && !StaleShelving(s, e)
    ensures DbSound(Step(cfg, s, e).db)
  {
    match e
    case Accession(book, policy) => AccessionSound(s.db, Copy(book, "", policy, Available));
    case Next(id) =>
      if id in s.txs {
        OnlyCommitsWrite(cfg, s, id);
        CommitSound(s.db, s.txs[id]);
      }
    case _ =>
  }

  lemma CommitSound(db: Db, tx: Tx)
    requires DbSound(db) && TxSound(db, tx)
    requires tx.EditWritten? && tx.status == Some(Available) && tx.copy < |db.copies|
      ==> CountIf(db.loans, OpenLoanOn(tx.copy)) == 0
    ensures DbSound(Committed(db, tx))
  {
    match tx
    case Borrowing(copy, user, at) => if at == Inserted { BorrowCommitSound(db, copy, user); }
    case CopyFreed(l, copy, wrote) => ReturnCommitSound(db, l, copy, wrote);
    case Marked(copy, to, closed) => if copy < |db.copies| { MarkCommitSound(db, copy, to, closed); }
    case _ =>
  }

  /** The moving transaction's own promise after its step. */
  lemma MoverSound(cfg: Config, s: Sys, id: TxId)
    requires ClaimSafe(s) && id in s.txs && id in Step(cfg, s, Next(id)).txs
    ensures TxSound(Step(cfg, s, Next(id)).db, Step(cfg, s, Next(id)).txs[id])
    ensures Step(cfg, s, Next(id)).db == s.db
  {
    assert TxSound(s.db, s.txs[id]);
  }

  ghost predicate Apart(a: Tx, b: Tx) {
    && (forall c :: !(LocksCopy(a, c) && LocksCopy(b, c)))
    && (forall l :: !(LocksLoan(a, l) && LocksLoan(b, l)))
  }

  /** A commit leaves the promise of a transaction that holds other rows. */
  lemma CommitSparesOthers(db: Db, mover: Tx, other: Tx)
    requires TxSound(db, mover) && TxSound(db, other) && Apart(mover, other)
    ensures TxSound(Committed(db, mover), other)
  {
    match other
    case Borrowing(copy, _, at) => assert at != Begun ==> LocksCopy(other, copy);
    case LoanClosed(l, _) => assert LocksLoan(other, l);
    case CopyFreed(l, _, _) => assert LocksLoan(other, l);
    case _ =>
    match mover
    case Borrowing(copy, _, at) => assert at == Inserted ==> LocksCopy(mover, copy);
    case CopyFreed(l, copy, wrote) => assert LocksLoan(mover, l) && (wrote ==> LocksCopy(mover, copy));
    case Marked(copy, _, closed) => assert LocksCopy(mover, copy) && forall l :: l in closed ==> LocksLoan(mover, l);
    case EditWritten(copy, _, _) => assert LocksCopy(mover, copy);
    case _ =>
  }

  /** Another transaction's promise survives, because the rows it names are locked. */
  lemma BystanderSound(cfg: Config, s: Sys, e: Event, t: TxId)
    requires ClaimSafe(s) && t in s.txs && (e.Accession? || t != e.id)
    ensures TxSound(Step(cfg, s, e).db, s.txs[t])
  {
    assert TxSound(s.db, s.txs[t]);
    if e.Next? && e.id in s.txs {
      OnlyCommitsWrite(cfg, s, e.id);
      CommitSparesOthers(s.db, s.txs[e.id], s.txs[t]);
    }
  }

  lemma StepKeepsClaimSafe(cfg: Config, s: Sys, e: Event)
    requires ClaimSafe(s) && !StaleShelving(s, e)
    ensures ClaimSafe(Step(cfg, s, e))
  {
    var s' := Step(cfg, s, e);
    StepKeepsCopiesExclusive(cfg, s, e);
    StepKeepsLoansExclusive(cfg, s, e);
    StepKeepsDbSound(cfg, s, e);
    OthersStay(cfg, s, e);
    forall t | t in s'.txs
      ensures TxSound(s'.db, s'.txs[t])
    {
      if !e.Accession? && t == e.id {
        if e.Next? { MoverSound(cfg, s, t); } else if e.Start? && t in s.txs { assert TxSound(s.db, s.txs[t]); }
      } else {
        BystanderSound(cfg, s, e, t);
      }
    }
  }

  ghost predicate NeverStale(cfg: Config, events: seq<Event>) {
    forall k :: 0 <= k < |events| ==> !StaleShelving(After(cfg, events, k), events[k])
  }

  /** Without the index, the compare-and-swap on the copy row alone still gives every copy at
    most one open loan, as long as no edit puts a copy back on the shelf under an open loan. */
  lemma {:induction false} ClaimAllowsOneOpenLoan(cfg: Config, events: seq<Event>)
    requires NeverStale(cfg, events)
    ensures ClaimSafe(Run(cfg, IDLE, events))
  {
    if events == [] {
      forall c { CountZero(IDLE.db.loans, OpenLoanOn(c)); }
    } else {
      var n := |events| - 1;
      PrefixNeverStale(cfg, events, n);
      ClaimAllowsOneOpenLoan(cfg, events[..n]);
      assert !StaleShelving(After(cfg, events, n), events[n]);
      StepKeepsClaimSafe(cfg, Run(cfg, IDLE, events[..n]), events[n]);
    }
  }

  lemma PrefixNeverStale(cfg: Config, events: seq<Event>, n: nat)
    requires n <= |events| && NeverStale(cfg, events)
    ensures NeverStale(cfg, events[..n])
  {
    forall k | 0 <= k < n ensures !StaleShelving(After(cfg, events[..n], k), events[..n][k]) {
      assert events[..n][..k] == events[..k];
      assert !StaleShelving(After(cfg, events, k), events[k]);
    }
  }

  lemma StaleShelvingShows(cfg: Config, s: Sys, e: Event)
    requires StaleShelving(s, e)
    ensures !ShelfClear(Step(cfg, s, e).db)
  {
    OnlyCommitsWrite(cfg, s, e.id);
    var c := s.txs[e.id].copy;
    assert Step(cfg, s, e).db.copies[c].status == Available;
  }

  /** Along a schedule no copy ever stands on the shelf with its loan open if and only if no edit
    puts one there; the index plays no part in it. */
  lemma ShelfClearIffNeverStale(cfg: Config, events: seq<Event>)
    ensures (forall k :: 0 <= k <= |events| ==> ShelfClear(After(cfg, events, k).db)) <==> NeverStale(cfg, events)
  {
    if NeverStale(cfg, events) {
      forall k | 0 <= k <= |events| ensures ShelfClear(After(cfg, events, k).db) {
        PrefixNeverStale(cfg, events, k);
        ClaimAllowsOneOpenLoan(cfg, events[..k]);
      }
    } else {
      var k :| 0 <= k < |events| && StaleShelving(After(cfg, events, k), events[k]);
      AfterStep(cfg, events, k);
      StaleShelvingShows(cfg, After(cfg, events, k), events[k]);
      assert !ShelfClear(After(cfg, events, k + 1).db);
    }
  }

  /** A return that has written its copy's row found it on loan, and nobody has written it since. */
  ghost predicate FreesOnlyLent(s: Sys) {
    forall t :: t in s.txs && s.txs[t].CopyFreed? && s.txs[t].wrote ==>
      s.txs[t].copy < |s.db.copies| && s.db.copies[s.txs[t].copy].status == OnLoan
  }

  /** The step that writes the row has just read it as on loan. */
  lemma FreesWhatItRead(cfg: Config, s: Sys, id: TxId)
    requires FreesOnlyLent(s) && id in s.txs && id in Step(cfg, s, Next(id)).txs
    requires Step(cfg, s, Next(id)).txs[id].CopyFreed? && Step(cfg, s, Next(id)).txs[id].wrote
    ensures Step(cfg, s, Next(id)).db == s.db
    ensures var c := Step(cfg, s, Next(id)).txs[id].copy; c < |s.db.copies| && s.db.copies[c].status == OnLoan
  {
  }

  lemma CommitSparesFreed(s: Sys, mover: TxId, t: TxId)
    requires CopiesExclusive(s) && mover in s.txs && t in s.txs && mover != t
    requires s.txs[t].CopyFreed? && s.txs[t].wrote && s.txs[t].copy < |s.db.copies|
    ensures var c, copies := s.txs[t].copy, Committed(s.db, s.txs[mover]).copies;
      c < |copies| && copies[c] == s.db.copies[c]
  {
    OneRowWritten(s.db, s.txs[mover]);
    assert LocksCopy(s.txs[t], s.txs[t].copy);
  }

  lemma StepKeepsFrees(cfg: Config, s: Sys, e: Event)
    requires CopiesExclusive(s) && FreesOnlyLent(s)
    ensures FreesOnlyLent(Step(cfg, s, e))
  {
    var s' := Step(cfg, s, e);
    OthersStay(cfg, s, e);
    forall t | t in s'.txs && s'.txs[t].CopyFreed? && s'.txs[t].wrote
      ensures s'.txs[t].copy < |s'.db.copies| && s'.db.copies[s'.txs[t].copy].status == OnLoan
    {
      if e.Next? && e.id in s.txs {
        if t == e.id {
          FreesWhatItRead(cfg, s, t);
        } else {
          OnlyCommitsWrite(cfg, s, e.id);
          CommitSparesFreed(s, e.id, t);
        }
      }
    }
  }

  lemma {:induction false} RowsExclusiveInEverySchedule(cfg: Config, events: seq<Event>)
    ensures CopiesExclusive(Run(cfg, IDLE, events)) && FreesOnlyLent(Run(cfg, IDLE, events))
  {
    if events != [] {
      var s := Run(cfg, IDLE, events[..|events| - 1]);
      RowsExclusiveInEverySchedule(cfg, events[..|events| - 1]);
      StepKeepsCopiesExclusive(cfg, s, events[|events| - 1]);
      StepKeepsFrees(cfg, s, events[|events| - 1]);
    }
  }
}
