/** The interleaved transactions and the desk describe the same borrowing. */
module LendingAlone {
  import opened Tables
  import opened Domain
  import opened LendingProtocol
  import DeskLending
  import DeskModel

  /** One transaction taking every step, nobody else doing anything. */
  function Alone(cfg: Config, s: Sys, id: TxId, steps: nat): Sys
    decreases steps
  {
    if steps == 0 then s else Alone(cfg, Step(cfg, s, Next(id)), id, steps - 1)
  }

  function Only(db: Db, id: TxId, tx: Tx): Sys {
    Sys(db, map[id := tx])
  }

  /** What a transaction does next when it never has to wait: go on, or end with these tables. */
  datatype Fate = GoesOn(tx: Tx) | Ends(db: Db)

  function Meeting(db: Db, id: TxId, fate: Fate): Sys {
    if fate.GoesOn? then Only(db, id, fate.tx) else Sys(fate.db, map[])
  }

  predicate Fated(cfg: Config, db: Db, id: TxId, tx: Tx, fate: Fate) {
    Step(cfg, Only(db, id, tx), Next(id)) == Meeting(db, id, fate)
  }

  lemma {:induction false} EndedStaysEnded(cfg: Config, db: Db, id: TxId, n: nat)
    ensures Alone(cfg, Sys(db, map[]), id, n) == Sys(db, map[])
  {
    if n > 0 {
      EndedStaysEnded(cfg, db, id, n - 1);
    }
  }

  lemma AloneNext(cfg: Config, db: Db, id: TxId, tx: Tx, fate: Fate, n: nat)
    requires Fated(cfg, db, id, tx, fate)
    ensures Alone(cfg, Only(db, id, tx), id, n + 1)
      == if fate.GoesOn? then Alone(cfg, Only(db, id, fate.tx), id, n) else Sys(fate.db, map[])
  {
    if fate.Ends? {
      EndedStaysEnded(cfg, fate.db, id, n);
    }
  }

  lemma CommitEnds(cfg: Config, db: Db, id: TxId, tx: Tx)
    requires tx.CopyFreed? || ((tx.Marked? || tx.EditWritten?) && tx.copy < |db.copies|)
    ensures Fated(cfg, db, id, tx, Ends(Committed(db, tx)))
  {
    OnlyCommitsWrite(cfg, Only(db, id, tx), id);
    assert Only(db, id, tx).txs - {id} == map[];
  }

  // Borrowing

  function BorrowFate(cfg: Config, db: Db, copy: CopyId, u: UserId, at: BorrowAt): Fate {
    if copy >= |db.copies| then Ends(db)
    else
      var mine, book := Claim(db.copies, copy), db.copies[copy].book;
      match at
      case Begun => if OnShelf(db.copies[copy]) then GoesOn(Borrowing(copy, u, Claimed)) else Ends(db)
      case Claimed =>
        if DeskLending.Retained(mine, book) then Ends(db)
        else GoesOn(Borrowing(copy, u, Counted(CountIf(mine, StockOf(book)), CountIf(mine, ShelfOf(book)))))
      case Counted(_, _) => GoesOn(Borrowing(copy, u, UserLocked))
      case UserLocked =>
        if CountIf(db.loans, OpenLoanBy(u)) < LimitFor(cfg, u) then GoesOn(Borrowing(copy, u, UnderLimit)) else Ends(db)
      case UnderLimit =>
        if cfg.uniqueIndex && CountIf(db.loans, OpenLoanOn(copy)) > 0 then Ends(db)
        else GoesOn(Borrowing(copy, u, Inserted))
      case Inserted => Ends(Db(mine, db.loans + [Loan(copy, u, true)]))
  }

  lemma BorrowFated(cfg: Config, db: Db, id: TxId, copy: CopyId, u: UserId, at: BorrowAt)
    requires copy < |db.copies| || at == Begun
    ensures Fated(cfg, db, id, Borrowing(copy, u, at), BorrowFate(cfg, db, copy, u, at))
  {
    var s := Only(db, id, Borrowing(copy, u, at));
    assert s.txs - {id} == map[];
    assert forall t: Tx :: s.txs[id := t] == map[id := t];
  }

  /** How many statements a borrow still has to run. */
  function Remaining(at: BorrowAt): nat {
    match at
    case Begun => 6
    case Claimed => 5
    case Counted(_, _) => 4
    case UserLocked => 3
    case UnderLimit => 2
    case Inserted => 1
  }

  /** The tables a borrow leaves once it has run to its end. */
  function Leaves(cfg: Config, db: Db, copy: CopyId, u: UserId, at: BorrowAt): Db
    decreases Remaining(at)
  {
    var fate := BorrowFate(cfg, db, copy, u, at);
    if fate.Ends? then fate.db else Leaves(cfg, db, copy, u, fate.tx.at)
  }

  lemma {:induction false} BorrowFinishes(cfg: Config, db: Db, id: TxId, copy: CopyId, u: UserId, at: BorrowAt, n: nat)
    requires (copy < |db.copies| || at == Begun) && n >= Remaining(at)
    ensures Alone(cfg, Only(db, id, Borrowing(copy, u, at)), id, n) == Sys(Leaves(cfg, db, copy, u, at), map[])
    decreases n
  {
    var fate := BorrowFate(cfg, db, copy, u, at);
    BorrowFated(cfg, db, id, copy, u, at);
    AloneNext(cfg, db, id, Borrowing(copy, u, at), fate, n - 1);
    if fate.GoesOn? {
      BorrowFinishes(cfg, db, id, copy, u, fate.tx.at, n - 1);
    }
  }

  lemma LeavesWhatTheDeskDoes(cfg: Config, db: Db, copy: CopyId, u: UserId, desk: DeskModel.State, actor: UserId,
                              self: bool)
    requires cfg.uniqueIndex && desk.copies == db.copies && desk.loans == db.loans
    requires var head := DeskModel.HeadFor(desk, copy); head.Some? ==> desk.queue[head.value].user == u
    ensures var after := DeskModel.BorrowTransaction(desk, copy, u, actor, LimitFor(cfg, u), self).0;
      Leaves(cfg, db, copy, u, Begun) == Db(after.copies, after.loans)
  {
    if copy < |db.copies| && OnShelf(db.copies[copy])
       && !DeskLending.Retained(Claim(db.copies, copy), db.copies[copy].book) {
      var mine, book := Claim(db.copies, copy), db.copies[copy].book;
      var counted := Counted(CountIf(mine, StockOf(book)), CountIf(mine, ShelfOf(book)));
      assert Leaves(cfg, db, copy, u, Begun) == Leaves(cfg, db, copy, u, Claimed);
      assert Leaves(cfg, db, copy, u, Claimed) == Leaves(cfg, db, copy, u, counted);
      assert Leaves(cfg, db, copy, u, counted) == Leaves(cfg, db, copy, u, UserLocked);
    }
  }

  /** A borrowing transaction that runs by itself, with the index on, does to copies and loans
    exactly what the desk's transaction does, if nobody else is at the front of the queue. */
  lemma BorrowAloneIsTheDesk(cfg: Config, db: Db, id: TxId, copy: CopyId, u: UserId, desk: DeskModel.State,
                             actor: UserId, self: bool, steps: nat)
    requires cfg.uniqueIndex && desk.copies == db.copies && desk.loans == db.loans && steps >= 6
    requires var head := DeskModel.HeadFor(desk, copy); head.Some? ==> desk.queue[head.value].user == u
    ensures var after := DeskModel.BorrowTransaction(desk, copy, u, actor, LimitFor(cfg, u), self).0;
      Alone(cfg, Only(db, id, Borrowing(copy, u, Begun)), id, steps) == Sys(Db(after.copies, after.loans), map[])
  {
    BorrowFinishes(cfg, db, id, copy, u, Begun, steps);
    LeavesWhatTheDeskDoes(cfg, db, copy, u, desk, actor, self);
  }

  // Returns and edits

  lemma ReturnFated(cfg: Config, db: Db, id: TxId, loan: LoanId)
    ensures Fated(cfg, db, id, Returning(loan),
      if loan < |db.loans| && db.loans[loan].open then GoesOn(LoanClosed(loan, db.loans[loan].copy)) else Ends(db))
  {
    var s := Only(db, id, Returning(loan));
    assert s.txs - {id} == map[];
    assert forall t: Tx :: s.txs[id := t] == map[id := t];
  }

  lemma FreeFated(cfg: Config, db: Db, id: TxId, loan: LoanId, copy: CopyId)
    ensures Fated(cfg, db, id, LoanClosed(loan, copy),
      GoesOn(CopyFreed(loan, copy, copy < |db.copies| && db.copies[copy].status == OnLoan)))
  {
    assert forall t: Tx :: Only(db, id, LoanClosed(loan, copy)).txs[id := t] == map[id := t];
  }

  /** A return that runs alone is the desk's return, whether or not the hook after it runs. */
  lemma ReturnAloneIsTheDesk(cfg: Config, db: Db, id: TxId, loan: LoanId, desk: DeskModel.State, staff: UserId,
                             now: int, hookRuns: bool)
    requires desk.copies == db.copies && desk.loans == db.loans
    ensures var after := DeskModel.ReturnStep(desk, loan, staff, now, hookRuns).0;
      Alone(cfg, Only(db, id, Returning(loan)), id, 3) == Sys(Db(after.copies, after.loans), map[])
  {
    ReturnFated(cfg, db, id, loan);
    if loan < |db.loans| && db.loans[loan].open {
      var copy := db.loans[loan].copy;
      var wrote := copy < |db.copies| && db.copies[copy].status == OnLoan;
      var closed, freed := LoanClosed(loan, copy), CopyFreed(loan, copy, wrote);
      FreeFated(cfg, db, id, loan, copy);
      AloneNext(cfg, db, id, Returning(loan), GoesOn(closed), 2);
      AloneNext(cfg, db, id, closed, GoesOn(freed), 1);
      CommitEnds(cfg, db, id, freed);
      AloneNext(cfg, db, id, freed, Ends(Committed(db, freed)), 0);
      assert CloseLoans(db.loans, {loan}) == db.loans[loan := db.loans[loan].(open := false)];
    } else {
      AloneNext(cfg, db, id, Returning(loan), Ends(db), 2);
    }
  }

  lemma ScanFated(cfg: Config, db: Db, id: TxId, copy: CopyId, to: CopyStatus)
    ensures var found := Matching(db.loans, OpenLoanOn(copy));
      && Fated(cfg, db, id, Marking(copy, to), GoesOn(MarkScanned(copy, to, found)))
      && Fated(cfg, db, id, MarkScanned(copy, to, found), GoesOn(MarkClosed(copy, to, found)))
  {
    var found := Matching(db.loans, OpenLoanOn(copy));
    assert forall t: Tx, t': Tx :: Only(db, id, t).txs[id := t'] == map[id := t'];
    assert found == set l | l in found && l < |db.loans| && db.loans[l].open;
  }

  lemma RowFated(cfg: Config, db: Db, id: TxId, copy: CopyId, to: CopyStatus, closed: set<LoanId>)
    requires copy < |db.copies|
    ensures Fated(cfg, db, id, MarkClosed(copy, to, closed), GoesOn(Marked(copy, to, closed)))
  {
    assert forall t: Tx :: Only(db, id, MarkClosed(copy, to, closed)).txs[id := t] == map[id := t];
  }

  /** The loans a marking finds, and still finds open with nobody else about, are the desk's. */
  lemma MarkingAlone(cfg: Config, db: Db, id: TxId, copy: CopyId, to: CopyStatus)
    requires copy < |db.copies|
    ensures Alone(cfg, Only(db, id, Marking(copy, to)), id, 4)
      == Sys(Db(db.copies[copy := db.copies[copy].(status := to)], DeskModel.CloseLoansOn(db.loans, copy)), map[])
  {
    var found := Matching(db.loans, OpenLoanOn(copy));
    var t1, t2 := Marking(copy, to), MarkScanned(copy, to, found);
    var t3, t4 := MarkClosed(copy, to, found), Marked(copy, to, found);
    ScanFated(cfg, db, id, copy, to);
    RowFated(cfg, db, id, copy, to, found);
    AloneNext(cfg, db, id, t1, GoesOn(t2), 3);
    AloneNext(cfg, db, id, t2, GoesOn(t3), 2);
    AloneNext(cfg, db, id, t3, GoesOn(t4), 1);
    CommitEnds(cfg, db, id, t4);
    AloneNext(cfg, db, id, t4, Ends(Committed(db, t4)), 0);
    assert CloseLoans(db.loans, found) == DeskModel.CloseLoansOn(db.loans, copy);
  }

  lemma WritingAlone(cfg: Config, db: Db, id: TxId, copy: CopyId, policy: Option<LoanPolicy>,
                     status: Option<CopyStatus>)
    requires copy < |db.copies|
    ensures Alone(cfg, Only(db, id, EditChecked(copy, policy, status)), id, 4)
      == Sys(db.(copies := db.copies[copy := DeskModel.Edited(db.copies[copy], policy, status)]), map[])
  {
    var t1, t2 := EditChecked(copy, policy, status), EditWritten(copy, policy, status);
    assert map[id := t1][id := t2] == map[id := t2];
    AloneNext(cfg, db, id, t1, GoesOn(t2), 3);
    CommitEnds(cfg, db, id, t2);
    AloneNext(cfg, db, id, t2, Ends(Committed(db, t2)), 2);
  }

  /** What the checks of an edit decide from the copy they read. */
  function EditFate(db: Db, copy: CopyId, policy: Option<LoanPolicy>, status: Option<CopyStatus>): Fate {
    if copy >= |db.copies| then Ends(db)
    else
      var seen := db.copies[copy].status;
      if status.Some? && !CanTransitionTo(seen, status.value) then Ends(db)
      else if status.Some? && status.value != seen && seen == OnLoan && ClosesAnOpenLoan(status.value) then
        GoesOn(Marking(copy, status.value))
      else if policy.Some? && seen == OnLoan then Ends(db)
      else if policy.None? && status.None? then Ends(db)
      else GoesOn(EditChecked(copy, policy, status))
  }

  lemma EditFated(cfg: Config, db: Db, id: TxId, copy: CopyId, policy: Option<LoanPolicy>, status: Option<CopyStatus>)
    ensures Fated(cfg, db, id, Editing(copy, policy, status), EditFate(db, copy, policy, status))
  {
    var s := Only(db, id, Editing(copy, policy, status));
    assert s.txs - {id} == map[];
    assert forall t: Tx :: s.txs[id := t] == map[id := t];
  }

  /** So is an edit, in both its forms: the loan-closing transaction and the plain write. */
  lemma EditAloneIsTheDesk(cfg: Config, db: Db, id: TxId, copy: CopyId, policy: Option<LoanPolicy>,
                           status: Option<CopyStatus>, desk: DeskModel.State, staff: UserId)
    requires desk.copies == db.copies && desk.loans == db.loans
    ensures var after := DeskModel.UpdateCopyStep(desk, copy, policy, status, staff).0;
      Alone(cfg, Only(db, id, Editing(copy, policy, status)), id, 5) == Sys(Db(after.copies, after.loans), map[])
  {
    var fate := EditFate(db, copy, policy, status);
    EditFated(cfg, db, id, copy, policy, status);
    AloneNext(cfg, db, id, Editing(copy, policy, status), fate, 4);
    if fate.GoesOn? {
      if fate.tx.Marking? {
        MarkingAlone(cfg, db, id, copy, status.value);
      } else {
        WritingAlone(cfg, db, id, copy, policy, status);
      }
    }
  }
}
