/** What an edit may overlap with: as long as nobody is lent a copy between an edit's read of it
  and its write, every open loan's copy stays on loan, with no help from the index. */
module LendingEdits {
  import opened Tables
  import opened Domain
  import opened LendingProtocol
  import LendingSafety

  /** An edit of the copy has read it and not yet written it, in either of its transactions. */
  predicate EditsCopy(tx: Tx, c: CopyId) {
    match tx
    case Marking(copy, _) => copy == c
    case MarkScanned(copy, _, _) => copy == c
    case MarkClosed(copy, _, _) => copy == c
    case Marked(copy, _, _) => copy == c
    case EditChecked(copy, _, _) => copy == c
    case EditWritten(copy, _, _) => copy == c
    case _ => false
  }

  /** The event commits a loan of a copy that some edit has read and is still to write. */
  ghost predicate LendsUnderEdit(s: Sys, e: Event) {
    && e.Next? && e.id in s.txs && s.txs[e.id].Borrowing? && s.txs[e.id].at == Inserted
    && exists t :: t in s.txs && EditsCopy(s.txs[t], s.txs[e.id].copy)
  }

  predicate OpenOn(loans: seq<Loan>, l: LoanId, c: CopyId) {
    l < |loans| && loans[l].open && loans[l].copy == c
  }

  ghost predicate NoneOpenOn(loans: seq<Loan>, c: CopyId) {
    forall l: LoanId :: !OpenOn(loans, l, c)
  }

  /** Open loans are of copies that are on loan, and no two are of the same one. */
  ghost predicate OpenMeansLent(db: Db) {
    && (forall l: LoanId, c: CopyId :: OpenOn(db.loans, l, c) ==> c < |db.copies| && db.copies[c].status == OnLoan)
    && (forall l1: LoanId, l2: LoanId, c: CopyId :: OpenOn(db.loans, l1, c) && OpenOn(db.loans, l2, c) ==> l1 == l2)
  }

  predicate Unlends(status: Option<CopyStatus>) {
    status.Some? && status.value != OnLoan
  }

  /** What each transaction relies on: a claim on its copy being available, a return on its loan
    being open, an edit on what it read of the copy's loans. */
  ghost predicate TxSafe(db: Db, tx: Tx) {
    match tx
    case Borrowing(copy, _, at) => at != Begun ==> copy < |db.copies| && db.copies[copy].status == Available
    case LoanClosed(l, copy) => OpenOn(db.loans, l, copy)
    case CopyFreed(l, copy, wrote) => OpenOn(db.loans, l, copy) && wrote
    case MarkScanned(copy, _, found) => forall l: LoanId :: OpenOn(db.loans, l, copy) ==> l in found
    case MarkClosed(copy, _, closed) => forall l: LoanId :: OpenOn(db.loans, l, copy) ==> l in closed
    case Marked(copy, _, closed) => forall l: LoanId :: OpenOn(db.loans, l, copy) ==> l in closed
    case EditChecked(copy, _, status) => Unlends(status) ==> NoneOpenOn(db.loans, copy)
    case EditWritten(copy, _, status) => Unlends(status) ==> NoneOpenOn(db.loans, copy)
    case _ => true
  }

  ghost predicate EditSafe(s: Sys) {
    && CopiesExclusive(s) && LoansExclusive(s) && OpenMeansLent(s.db)
    && (forall t :: t in s.txs ==> TxSafe(s.db, s.txs[t]))
  }

  // Commits

  lemma CommitKeepsLent(db: Db, tx: Tx)
    requires OpenMeansLent(db) && TxSafe(db, tx)
    ensures OpenMeansLent(Committed(db, tx))
  {
    var loans' := Committed(db, tx).loans;
    forall l: LoanId, c: CopyId | OpenOn(loans', l, c) && l < |db.loans| ensures OpenOn(db.loans, l, c) {
    }
  }

  /** A commit that lends nothing opens no loan. */
  lemma OnlyLendingOpens(db: Db, mover: Tx, l: LoanId, c: CopyId)
    requires OpenOn(Committed(db, mover).loans, l, c)
    ensures OpenOn(db.loans, l, c) || (mover.Borrowing? && mover.at == Inserted && mover.copy == c)
  {
  }

  /** A loan that another transaction has locked is not closed. */
  lemma LockedStaysOpen(db: Db, mover: Tx, l: LoanId, c: CopyId)
    requires OpenOn(db.loans, l, c) && !LocksLoan(mover, l)
    ensures OpenOn(Committed(db, mover).loans, l, c)
  {
  }

  /** What an edit read of the copy's loans still bounds them. */
  lemma CommitSparesEdits(db: Db, mover: Tx, other: Tx, c: CopyId)
    requires TxSafe(db, other) && EditsCopy(other, c)
    requires mover.Borrowing? && mover.at == Inserted ==> mover.copy != c
    ensures TxSafe(Committed(db, mover), other)
  {
    var loans' := Committed(db, mover).loans;
    forall l: LoanId | OpenOn(loans', l, c) ensures OpenOn(db.loans, l, c) {
      OnlyLendingOpens(db, mover, l, c);
    }
    EditsRelyOnOpen(db, Committed(db, mover), other, c);
  }

  lemma EditsRelyOnOpen(db: Db, db': Db, tx: Tx, c: CopyId)
    requires TxSafe(db, tx) && EditsCopy(tx, c)
    requires forall l: LoanId :: OpenOn(db'.loans, l, c) ==> OpenOn(db.loans, l, c)
    ensures TxSafe(db', tx)
  {
  }

  lemma CommitSparesClaims(db: Db, mover: Tx, other: Tx)
    requires TxSafe(db, other) && other.Borrowing? && LendingSafety.Apart(mover, other)
    ensures TxSafe(Committed(db, mover), other)
  {
    OneRowWritten(db, mover);
    assert other.at != Begun ==> LocksCopy(other, other.copy);
  }

  /** A commit leaves the promise of a transaction that holds other rows and edits no copy it lends. */
  lemma CommitSparesOthers(db: Db, mover: Tx, other: Tx)
    requires TxSafe(db, other) && LendingSafety.Apart(mover, other)
    requires mover.Borrowing? && mover.at == Inserted ==> !EditsCopy(other, mover.copy)
    ensures TxSafe(Committed(db, mover), other)
  {
    if other.Borrowing? {
      CommitSparesClaims(db, mover, other);
    } else if other.LoanClosed? || other.CopyFreed? {
      assert LocksLoan(other, other.loan);
      LockedStaysOpen(db, mover, other.loan, other.copy);
    } else if !other.Returning? && !other.Editing? {
      CommitSparesEdits(db, mover, other, other.copy);
    }
  }

  // Steps

  lemma MarkerSafe(s: Sys, id: TxId)
    requires id in s.txs && OpenMeansLent(s.db) && TxSafe(s.db, s.txs[id]) && id in MarkStep(s, id).txs
    ensures TxSafe(s.db, MarkStep(s, id).txs[id])
  {
  }

  lemma EditorSafe(s: Sys, id: TxId)
    requires id in s.txs && OpenMeansLent(s.db) && TxSafe(s.db, s.txs[id]) && id in EditStep(s, id).txs
    ensures TxSafe(s.db, EditStep(s, id).txs[id])
  {
    if s.txs[id].Editing? {
      EditReads(s.db, s.txs[id].copy);
    }
  }

  lemma ReturnerSafe(s: Sys, id: TxId)
    requires id in s.txs && OpenMeansLent(s.db) && TxSafe(s.db, s.txs[id]) && id in ReturnStep(s, id).txs
    ensures TxSafe(s.db, ReturnStep(s, id).txs[id])
  {
  }

  lemma MoverKeepsDb(cfg: Config, s: Sys, id: TxId)
    requires id in s.txs && id in Step(cfg, s, Next(id)).txs
    ensures Step(cfg, s, Next(id)).db == s.db
  {
  }

  /** A statement that does not end its transaction leaves what the transaction relies on true. */
  lemma MoverSafe(cfg: Config, s: Sys, id: TxId)
    requires EditSafe(s) && id in s.txs && id in Step(cfg, s, Next(id)).txs
    ensures Step(cfg, s, Next(id)).db == s.db
    ensures TxSafe(s.db, Step(cfg, s, Next(id)).txs[id])
  {
    MoverKeepsDb(cfg, s, id);
    var tx := s.txs[id];
    assert TxSafe(s.db, tx);
    if tx.Returning? || tx.LoanClosed? || tx.CopyFreed? {
      ReturnerSafe(s, id);
    } else if tx.Editing? || tx.EditChecked? || tx.EditWritten? {
      EditorSafe(s, id);
    } else if !tx.Borrowing? {
      MarkerSafe(s, id);
    }
  }

  /** A copy that is not on loan has no open loan. */
  lemma EditReads(db: Db, copy: CopyId)
    requires OpenMeansLent(db)
    ensures copy < |db.copies| && db.copies[copy].status != OnLoan ==> NoneOpenOn(db.loans, copy)
  {
  }

  lemma AccessionKeepsSafe(db: Db, c: Copy, tx: Tx)
    requires TxSafe(db, tx)
    ensures TxSafe(db.(copies := db.copies + [c]), tx)
  {
  }

  lemma BystanderSafe(cfg: Config, s: Sys, e: Event, t: TxId)
    requires EditSafe(s) && !LendsUnderEdit(s, e) && t in s.txs && (e.Accession? || t != e.id)
    ensures TxSafe(Step(cfg, s, e).db, s.txs[t])
  {
    assert TxSafe(s.db, s.txs[t]);
    if e.Next? && e.id in s.txs {
      OnlyCommitsWrite(cfg, s, e.id);
      CommitSparesOthers(s.db, s.txs[e.id], s.txs[t]);
    } else if e.Accession? {
      AccessionKeepsSafe(s.db, Copy(e.book, "", e.policy, Available), s.txs[t]);
    }
  }

  lemma StepKeepsLent(cfg: Config, s: Sys, e: Event)
    requires EditSafe(s)
    ensures OpenMeansLent(Step(cfg, s, e).db)
  {
    if e.Next? && e.id in s.txs {
      OnlyCommitsWrite(cfg, s, e.id);
      CommitKeepsLent(s.db, s.txs[e.id]);
    }
  }

  lemma StepKeepsEditSafe(cfg: Config, s: Sys, e: Event)
    requires EditSafe(s) && !LendsUnderEdit(s, e)
    ensures EditSafe(Step(cfg, s, e))
  {
    var s' := Step(cfg, s, e);
    StepKeepsCopiesExclusive(cfg, s, e);
    StepKeepsLoansExclusive(cfg, s, e);
    StepKeepsLent(cfg, s, e);
    OthersStay(cfg, s, e);
    forall t | t in s'.txs ensures TxSafe(s'.db, s'.txs[t]) {
      if !e.Accession? && t == e.id {
        if e.Next? { MoverSafe(cfg, s, t); } else if t in s.txs { assert TxSafe(s.db, s.txs[t]); }
      } else {
        BystanderSafe(cfg, s, e, t);
      }
    }
  }

  ghost predicate NeverUnderEdit(cfg: Config, events: seq<Event>) {
    forall k :: 0 <= k < |events| ==> !LendsUnderEdit(After(cfg, events, k), events[k])
  }

  lemma PrefixNeverUnderEdit(cfg: Config, events: seq<Event>, n: nat)
    requires n <= |events| && NeverUnderEdit(cfg, events)
    ensures NeverUnderEdit(cfg, events[..n])
  {
    forall k | 0 <= k < n ensures !LendsUnderEdit(After(cfg, events[..n], k), events[..n][k]) {
      assert events[..n][..k] == events[..k];
      assert !LendsUnderEdit(After(cfg, events, k), events[k]);
    }
  }

  lemma {:induction false} EditSafeInEverySchedule(cfg: Config, events: seq<Event>)
    requires NeverUnderEdit(cfg, events)
    ensures EditSafe(Run(cfg, IDLE, events))
  {
    if events != [] {
      var n := |events| - 1;
      PrefixNeverUnderEdit(cfg, events, n);
      EditSafeInEverySchedule(cfg, events[..n]);
      assert !LendsUnderEdit(After(cfg, events, n), events[n]);
      StepKeepsEditSafe(cfg, Run(cfg, IDLE, events[..n]), events[n]);
    }
  }

  lemma AtMostOneOpen(db: Db, c: CopyId)
    requires OpenMeansLent(db)
    ensures CountIf(db.loans, OpenLoanOn(c)) <= 1
  {
    var open := Matching(db.loans, OpenLoanOn(c));
    if l :| l in open {
      forall l' | l' in open ensures l' == l {
        assert OpenOn(db.loans, l, c) && OpenOn(db.loans, l', c);
      }
      SubsetSize(open, {l});
    }
  }

  /** In every schedule in which no loan of a copy commits between an edit's read and its write of
    that copy, whatever else overlaps: every open loan's copy is on loan, no copy has two, and none
    stands on the shelf with its loan open. */
  lemma LoansSurviveEdits(cfg: Config, events: seq<Event>)
    requires NeverUnderEdit(cfg, events)
    ensures var db := Run(cfg, IDLE, events).db;
      && (forall l :: 0 <= l < |db.loans| && db.loans[l].open ==>
            db.loans[l].copy < |db.copies| && db.copies[db.loans[l].copy].status == OnLoan)
      && LendingSafety.OneOpenLoan(db) && LendingSafety.ShelfClear(db)
  {
    var db := Run(cfg, IDLE, events).db;
    EditSafeInEverySchedule(cfg, events);
    forall l | 0 <= l < |db.loans| && db.loans[l].open ensures OpenOn(db.loans, l, db.loans[l].copy) {
    }
    forall c { AtMostOneOpen(db, c); }
    forall c | 0 <= c < |db.copies| && db.copies[c].status == Available ensures CountIf(db.loans, OpenLoanOn(c)) == 0 {
      CountZero(db.loans, OpenLoanOn(c));
    }
  }
}
