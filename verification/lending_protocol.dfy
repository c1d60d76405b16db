/** Borrowing, returning and copy edits as interleaved READ COMMITTED transactions.

  A transaction is a program counter. Each of its statements sees what others have
  committed plus its own writes; its writes reach the tables only at commit; the row
  locks it takes are held until it ends. Which rows it has written and locked follows
  from where it is, so locks are derived rather than stored. A statement that must
  wait for a lock leaves the system unchanged and can be tried again.

  `Config` switches off one guard at a time, to show what each is needed for. */
module LendingProtocol {
  import opened Tables
  import opened Domain

  type TxId = nat

  datatype Config = Config(userLock: bool, uniqueIndex: bool, limits: map<UserId, nat>)

  function LimitFor(cfg: Config, u: UserId): nat {
    if u in cfg.limits then cfg.limits[u] else 0
  }

  /** The committed tables. */
  datatype Db = Db(copies: seq<Copy>, loans: seq<Loan>)

  datatype BorrowAt = Begun | Claimed | Counted(stock: nat, left: nat) | UserLocked | UnderLimit | Inserted

  datatype Tx =
    | Borrowing(copy: CopyId, user: UserId, at: BorrowAt)
    | Returning(loan: LoanId)
    | LoanClosed(loan: LoanId, copy: CopyId)
    | CopyFreed(loan: LoanId, copy: CopyId, wrote: bool)
    | Marking(copy: CopyId, to: CopyStatus)
    | MarkScanned(copy: CopyId, to: CopyStatus, found: set<LoanId>)
    | MarkClosed(copy: CopyId, to: CopyStatus, closed: set<LoanId>)
    | Marked(copy: CopyId, to: CopyStatus, closed: set<LoanId>)
    | Editing(copy: CopyId, policy: Option<LoanPolicy>, status: Option<CopyStatus>)
    | EditChecked(copy: CopyId, policy: Option<LoanPolicy>, status: Option<CopyStatus>)
    | EditWritten(copy: CopyId, policy: Option<LoanPolicy>, status: Option<CopyStatus>)

  datatype Sys = Sys(db: Db, txs: map<TxId, Tx>)

  datatype Job =
    | BorrowJob(copy: CopyId, user: UserId)
    | ReturnJob(loan: LoanId)
    | EditJob(copy: CopyId, policy: Option<LoanPolicy>, status: Option<CopyStatus>)

  /** The scheduler's choices: start a job under a free id, run a transaction's next
    statement, or end it early (a refusal by the queue head, an error or a crash). */
  datatype Event =
    | Start(id: TxId, job: Job)
    | Next(id: TxId)
    | Abort(id: TxId)
    | Accession(book: BookId, policy: LoanPolicy)

  // Row locks

  predicate LocksCopy(tx: Tx, c: CopyId) {
    match tx
    case Borrowing(copy, _, at) => copy == c && at != Begun
    case CopyFreed(_, copy, wrote) => copy == c && wrote
    case Marked(copy, _, _) => copy == c
    case EditWritten(copy, _, _) => copy == c
    case _ => false
  }

  predicate LocksUser(tx: Tx, u: UserId) {
    tx.Borrowing? && tx.user == u && (tx.at == UserLocked || tx.at == UnderLimit || tx.at == Inserted)
  }

  predicate LocksLoan(tx: Tx, l: LoanId) {
    match tx
    case LoanClosed(loan, _) => loan == l
    case CopyFreed(loan, _, _) => loan == l
    case MarkClosed(_, _, closed) => l in closed
    case Marked(_, _, closed) => l in closed
    case _ => false
  }

  predicate CopyBusy(s: Sys, id: TxId, c: CopyId) {
    exists t :: t in s.txs && t != id && LocksCopy(s.txs[t], c)
  }

  predicate UserBusy(s: Sys, id: TxId, u: UserId) {
    exists t :: t in s.txs && t != id && LocksUser(s.txs[t], u)
  }

  predicate LoanBusy(s: Sys, id: TxId, l: LoanId) {
    exists t :: t in s.txs && t != id && LocksLoan(s.txs[t], l)
  }

  // Statements

  function Goto(s: Sys, id: TxId, tx: Tx): Sys {
    s.(txs := s.txs[id := tx])
  }

  function End(s: Sys, id: TxId): Sys {
    s.(txs := s.txs - {id})
  }

  function Commit(s: Sys, id: TxId, db: Db): Sys {
    Sys(db, s.txs - {id})
  }

  function Step(cfg: Config, s: Sys, e: Event): Sys {
    match e
    case Start(id, job) =>
      if id in s.txs then s
      else Goto(s, id, match job
                       case BorrowJob(copy, user) => Borrowing(copy, user, Begun)
                       case ReturnJob(loan) => Returning(loan)
                       case EditJob(copy, policy, status) => Editing(copy, policy, status))
    case Abort(id) => End(s, id)
    case Accession(book, policy) => s.(db := s.db.(copies := s.db.copies + [Copy(book, "", policy, Available)]))
    case Next(id) =>
      if id !in s.txs then s
      else
        match s.txs[id]
        case Borrowing(copy, user, at) => BorrowStep(cfg, s, id, copy, user, at)
        case Returning(_) => ReturnStep(s, id)
        case LoanClosed(_, _) => ReturnStep(s, id)
        case CopyFreed(_, _, _) => ReturnStep(s, id)
        case Marking(_, _) => MarkStep(s, id)
        case MarkScanned(_, _, _) => MarkStep(s, id)
        case MarkClosed(_, _, _) => MarkStep(s, id)
        case Marked(_, _, _) => MarkStep(s, id)
        case Editing(_, _, _) => EditStep(s, id)
        case EditChecked(_, _, _) => EditStep(s, id)
        case EditWritten(_, _, _) => EditStep(s, id)
  }

  function Claim(copies: seq<Copy>, copy: CopyId): seq<Copy>
    requires copy < |copies|
  {
    copies[copy := copies[copy].(status := OnLoan)]
  }

  function BorrowStep(cfg: Config, s: Sys, id: TxId, copy: CopyId, user: UserId, at: BorrowAt): Sys {
    match at
    case Begun =>
      if copy >= |s.db.copies| || !OnShelf(s.db.copies[copy]) then End(s, id)
      else if CopyBusy(s, id, copy) then s
      else Goto(s, id, Borrowing(copy, user, Claimed))
    case Claimed =>
      if copy >= |s.db.copies| then End(s, id)
      else
        var mine := Claim(s.db.copies, copy);
        var book := s.db.copies[copy].book;
        var stock, left := CountIf(mine, StockOf(book)), CountIf(mine, ShelfOf(book));
        if stock >= 2 && left == 0 then End(s, id)
        else Goto(s, id, Borrowing(copy, user, Counted(stock, left)))
    case Counted(_, _) =>
      if cfg.userLock && UserBusy(s, id, user) then s
      else Goto(s, id, Borrowing(copy, user, UserLocked))
    case UserLocked =>
      if CountIf(s.db.loans, OpenLoanBy(user)) >= LimitFor(cfg, user) then End(s, id)
      else Goto(s, id, Borrowing(copy, user, UnderLimit))
    case UnderLimit =>
      if cfg.uniqueIndex && CountIf(s.db.loans, OpenLoanOn(copy)) > 0 then End(s, id)
      else Goto(s, id, Borrowing(copy, user, Inserted))
    case Inserted =>
      if copy >= |s.db.copies| then End(s, id)
      else Commit(s, id, Db(Claim(s.db.copies, copy), s.db.loans + [Loan(copy, user, true)]))
  }

  function ReturnStep(s: Sys, id: TxId): Sys
    requires id in s.txs
  {
    match s.txs[id]
    case Returning(loan) =>
      if loan >= |s.db.loans| || !s.db.loans[loan].open then End(s, id)
      else if LoanBusy(s, id, loan) then s
      else Goto(s, id, LoanClosed(loan, s.db.loans[loan].copy))
    case LoanClosed(loan, copy) =>
      if copy >= |s.db.copies| || s.db.copies[copy].status != OnLoan then Goto(s, id, CopyFreed(loan, copy, false))
      else if CopyBusy(s, id, copy) then s
      else Goto(s, id, CopyFreed(loan, copy, true))
    case CopyFreed(loan, copy, wrote) =>
      Commit(s, id, Db(Freed(s.db.copies, copy, wrote), CloseLoans(s.db.loans, {loan})))
    case _ => s
  }

  function Freed(copies: seq<Copy>, copy: CopyId, wrote: bool): seq<Copy> {
    if wrote && copy < |copies| then copies[copy := copies[copy].(status := Available)] else copies
  }

  function CloseLoans(loans: seq<Loan>, ids: set<LoanId>): (r: seq<Loan>)
    ensures |r| == |loans|
    ensures forall l :: 0 <= l < |loans| ==> r[l] == if l in ids then loans[l].(open := false) else loans[l]
  {
    seq(|loans|, l requires 0 <= l < |loans| => if l in ids then loans[l].(open := false) else loans[l])
  }

  /** SetCopyStatusClosingLoan. Its first statement picks the open loans it can see, may
    wait for their locks, and closes those still open when it gets them. */
  function MarkStep(s: Sys, id: TxId): Sys
    requires id in s.txs
  {
    match s.txs[id]
    case Marking(copy, to) => Goto(s, id, MarkScanned(copy, to, Matching(s.db.loans, OpenLoanOn(copy))))
    case MarkScanned(copy, to, found) =>
      var still := set l | l in found && l < |s.db.loans| && s.db.loans[l].open;
      if exists l :: l in still && LoanBusy(s, id, l) then s
      else Goto(s, id, MarkClosed(copy, to, still))
    case MarkClosed(copy, to, closed) =>
      if copy >= |s.db.copies| then End(s, id)
      else if CopyBusy(s, id, copy) then s
      else Goto(s, id, Marked(copy, to, closed))
    case Marked(copy, to, closed) =>
      if copy >= |s.db.copies| then End(s, id)
      else Commit(s, id, Db(s.db.copies[copy := s.db.copies[copy].(status := to)], CloseLoans(s.db.loans, closed)))
    case _ => s
  }

  /** CatalogueService.UpdateCopy: the read and the checks on it come first, in no
    transaction; the write that follows does not look at the row again. */
  function EditStep(s: Sys, id: TxId): Sys
    requires id in s.txs
  {
    match s.txs[id]
    case Editing(copy, policy, status) =>
      if copy >= |s.db.copies| then End(s, id)
      else
        var seen := s.db.copies[copy].status;
        if status.Some? && !CanTransitionTo(seen, status.value) then End(s, id)
        else if status.Some? && status.value != seen && seen == OnLoan && ClosesAnOpenLoan(status.value) then
          Goto(s, id, Marking(copy, status.value))
        else if policy.Some? && seen == OnLoan then End(s, id)
        else if policy.None? && status.None? then End(s, id)
        else Goto(s, id, EditChecked(copy, policy, status))
    case EditChecked(copy, policy, status) =>
      if CopyBusy(s, id, copy) then s else Goto(s, id, EditWritten(copy, policy, status))
    case EditWritten(copy, policy, status) =>
      if copy >= |s.db.copies| then End(s, id)
      else
        var c := s.db.copies[copy];
        var c' := c.(policy := policy.GetOr(c.policy), status := status.GetOr(c.status));
        Commit(s, id, s.db.(copies := s.db.copies[copy := c']))
    case _ => s
  }

  // Schedules

  function Run(cfg: Config, s: Sys, events: seq<Event>): Sys {
    if events == [] then s else Step(cfg, Run(cfg, s, events[..|events| - 1]), events[|events| - 1])
  }

  const IDLE := Sys(Db([], []), map[])

  function After(cfg: Config, events: seq<Event>, k: nat): Sys
    requires k <= |events|
  {
    Run(cfg, IDLE, events[..k])
  }

  lemma AfterStep(cfg: Config, events: seq<Event>, k: nat)
    requires k < |events|
    ensures After(cfg, events, k + 1) == Step(cfg, After(cfg, events, k), events[k])
  {
    assert events[..k + 1][..k] == events[..k];
  }

  lemma CommitCloses(loans: seq<Loan>, ids: set<LoanId>, p: Loan -> bool)
    requires forall l: Loan :: p(l.(open := false)) ==> p(l)
    ensures CountIf(CloseLoans(loans, ids), p) <= CountIf(loans, p)
  {
    CountShrinks(loans, CloseLoans(loans, ids), p);
  }

  lemma OthersStayNext(cfg: Config, s: Sys, id: TxId)
    ensures Step(cfg, s, Next(id)).txs - {id} == s.txs - {id}
  {
  }

  /** An event moves one transaction; every other one stays where it is. */
  lemma OthersStay(cfg: Config, s: Sys, e: Event)
    ensures forall t :: e.Accession? || t != e.id ==>
      (t in Step(cfg, s, e).txs <==> t in s.txs) && (t in s.txs ==> Step(cfg, s, e).txs[t] == s.txs[t])
  {
    if e.Next? {
      var s' := Step(cfg, s, e);
      OthersStayNext(cfg, s, e.id);
      forall t | t != e.id ensures (t in s'.txs <==> t in s.txs) && (t in s.txs ==> s'.txs[t] == s.txs[t]) {
        assert t in s'.txs - {e.id} <==> t in s.txs - {e.id};
        if t in s.txs { assert (s'.txs - {e.id})[t] == (s.txs - {e.id})[t]; }
      }
    }
  }

  /** What a transaction's next statement makes of the committed tables: only commits write them. */
  function Committed(db: Db, tx: Tx): Db {
    match tx
    case Borrowing(copy, user, Inserted) =>
      if copy >= |db.copies| then db else Db(Claim(db.copies, copy), db.loans + [Loan(copy, user, true)])
    case CopyFreed(loan, copy, wrote) => Db(Freed(db.copies, copy, wrote), CloseLoans(db.loans, {loan}))
    case Marked(copy, to, closed) =>
      if copy >= |db.copies| then db
      else Db(db.copies[copy := db.copies[copy].(status := to)], CloseLoans(db.loans, closed))
    case EditWritten(copy, policy, status) =>
      if copy >= |db.copies| then db
      else
        var c := db.copies[copy];
        db.(copies := db.copies[copy := c.(policy := policy.GetOr(c.policy), status := status.GetOr(c.status))])
    case _ => db
  }

  lemma OnlyCommitsWrite(cfg: Config, s: Sys, id: TxId)
    requires id in s.txs
    ensures Step(cfg, s, Next(id)).db == Committed(s.db, s.txs[id])
  {
  }

  /** A commit writes at most one copy row, and that one it has locked. */
  lemma OneRowWritten(db: Db, tx: Tx)
    ensures var copies := Committed(db, tx).copies;
      copies == db.copies
      || exists c: CopyId ::
           c < |db.copies| == |copies| && LocksCopy(tx, c) && copies == db.copies[c := copies[c]]
  {
    if Committed(db, tx).copies != db.copies {
      var c := tx.copy;
      assert LocksCopy(tx, c) && Committed(db, tx).copies == db.copies[c := Committed(db, tx).copies[c]];
    }
  }

  // Exclusion: no two transactions hold the same row

  ghost predicate CopiesExclusive(s: Sys) {
    forall t1, t2, c :: t1 in s.txs && t2 in s.txs && LocksCopy(s.txs[t1], c) && LocksCopy(s.txs[t2], c) ==> t1 == t2
  }

  ghost predicate UsersExclusive(s: Sys) {
    forall t1, t2, u :: t1 in s.txs && t2 in s.txs && LocksUser(s.txs[t1], u) && LocksUser(s.txs[t2], u) ==> t1 == t2
  }

  ghost predicate LoansExclusive(s: Sys) {
    forall t1, t2, l :: t1 in s.txs && t2 in s.txs && LocksLoan(s.txs[t1], l) && LocksLoan(s.txs[t2], l) ==> t1 == t2
  }

  lemma NewCopyLock(cfg: Config, s: Sys, id: TxId, c: CopyId)
    requires id in s.txs && id in Step(cfg, s, Next(id)).txs && LocksCopy(Step(cfg, s, Next(id)).txs[id], c)
    ensures LocksCopy(s.txs[id], c) || !CopyBusy(s, id, c)
  {
  }

  lemma NewLoanLock(cfg: Config, s: Sys, id: TxId, l: LoanId)
    requires id in s.txs && id in Step(cfg, s, Next(id)).txs && LocksLoan(Step(cfg, s, Next(id)).txs[id], l)
    ensures LocksLoan(s.txs[id], l) || !LoanBusy(s, id, l)
  {
  }

  lemma StepKeepsCopiesExclusive(cfg: Config, s: Sys, e: Event)
    requires CopiesExclusive(s)
    ensures CopiesExclusive(Step(cfg, s, e))
  {
    var s' := Step(cfg, s, e);
    OthersStay(cfg, s, e);
    forall t1, t2, c | t1 in s'.txs && t2 in s'.txs && t1 != t2 && LocksCopy(s'.txs[t1], c)
      ensures !LocksCopy(s'.txs[t2], c)
    {
      if e.Next? && (t1 == e.id || (t2 == e.id && LocksCopy(s'.txs[t2], c))) {
        NewCopyLock(cfg, s, e.id, c);
      }
    }
  }

  lemma BorrowerLocksUser(cfg: Config, s: Sys, id: TxId, u: UserId)
    requires cfg.userLock && id in s.txs
    requires id in Step(cfg, s, Next(id)).txs && LocksUser(Step(cfg, s, Next(id)).txs[id], u)
    ensures LocksUser(s.txs[id], u) || !UserBusy(s, id, u)
  {
  }

  lemma StepKeepsUsersExclusive(cfg: Config, s: Sys, e: Event)
    requires cfg.userLock && UsersExclusive(s)
    ensures UsersExclusive(Step(cfg, s, e))
  {
    var s' := Step(cfg, s, e);
    OthersStay(cfg, s, e);
    forall t1, t2, u | t1 in s'.txs && t2 in s'.txs && t1 != t2 && LocksUser(s'.txs[t1], u)
      ensures !LocksUser(s'.txs[t2], u)
    {
      if e.Next? && t1 == e.id {
        BorrowerLocksUser(cfg, s, e.id, u);
      } else if e.Next? && t2 == e.id && LocksUser(s'.txs[t2], u) {
        BorrowerLocksUser(cfg, s, e.id, u);
      }
    }
  }

  lemma StepKeepsLoansExclusive(cfg: Config, s: Sys, e: Event)
    requires LoansExclusive(s)
    ensures LoansExclusive(Step(cfg, s, e))
  {
    var s' := Step(cfg, s, e);
    OthersStay(cfg, s, e);
    forall t1, t2, l | t1 in s'.txs && t2 in s'.txs && t1 != t2 && LocksLoan(s'.txs[t1], l)
      ensures !LocksLoan(s'.txs[t2], l)
    {
      if e.Next? && (t1 == e.id || (t2 == e.id && LocksLoan(s'.txs[t2], l))) {
        NewLoanLock(cfg, s, e.id, l);
      }
    }
  }
}
