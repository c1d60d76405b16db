/** Which calls can take a title's last spare copy: over whole runs of the desk, only edits. */
module DeskRetention {
  import opened Tables
  import opened Domain
  import opened DeskModel
  import opened DeskCoupling
  import opened DeskLending
  import DeskQueue

  function Stock(s: State, b: BookId): nat {
    CountIf(s.copies, StockOf(b))
  }

  /** A title goes from having a copy to spare, or stock below two, to having its last copy retained. */
  ghost predicate Exhausts(s: State, call: Call, b: BookId) {
    !Retained(s.copies, b) && Retained(Step(s, call).0.copies, b)
  }

  lemma EditExhausts(s: State, call: Call, b: BookId)
    requires Coupled(s) && call.UpdateCopy? && !Retained(s.copies, b)
    ensures Exhausts(s, call, b) <==>
      DeskQueue.TakesOffShelf(s, call, b) && DeskQueue.Shelf(s, b) == 1 && Stock(s, b) >= 3
  {
    var s' := Step(s, call).0;
    if call.copy < |s.copies| {
      var x := s'.copies[call.copy];
      assert s'.copies == s.copies[call.copy := x];
      assert x.status == OnLoan ==> s.copies[call.copy].status == OnLoan;
      CountUpdate(s.copies, call.copy, x, StockOf(b));
      CountUpdate(s.copies, call.copy, x, ShelfOf(b));
    }
  }

  lemma LoanNeverExhausts(s: State, copy: CopyId, member: UserId, actor: UserId, limit: nat, self: bool, b: BookId)
    requires !Retained(s.copies, b)
    ensures !Retained(BorrowTransaction(s, copy, member, actor, limit, self).0.copies, b)
  {
    if Claimable(s, copy) && s.copies[copy].book != b {
      CountUpdate(s.copies, copy, s.copies[copy].(status := OnLoan), StockOf(b));
      CountUpdate(s.copies, copy, s.copies[copy].(status := OnLoan), ShelfOf(b));
    }
  }

  /** One call exhausts a title if and only if it is an edit that takes the only copy on the shelf
    while two more of its stock are out: no loan, return, reservation or accession ever does. */
  lemma OnlyEditsExhaust(s: State, call: Call, b: BookId)
    requires Coupled(s) && !Retained(s.copies, b)
    ensures Exhausts(s, call, b) <==>
      DeskQueue.TakesOffShelf(s, call, b) && DeskQueue.Shelf(s, b) == 1 && Stock(s, b) >= 3
  {
    match call
    case UpdateCopy(_, _, _, _) => EditExhausts(s, call, b);
    case AddCopy(_, _, _, _) =>
      var s' := Step(s, call).0;
      if |s'.copies| != |s.copies| {
        CountAppend(s.copies, s'.copies[|s.copies|], StockOf(b));
        CountAppend(s.copies, s'.copies[|s.copies|], ShelfOf(b));
      }
    case Borrow(copy, member, staff) =>
      var e := EntitlementOf(s.roll, member, false);
      if e.Entitled? { LoanNeverExhausts(s, copy, member, staff, e.limit, false, b); }
    case SelfCheckout(copy, member) =>
      var e := EntitlementOf(s.roll, member, true);
      if e.Entitled? { LoanNeverExhausts(s, copy, member, member, e.limit, true, b); }
    case Return(loan, _, _, _) =>
      if loan < |s.loans| && s.loans[loan].open {
        OpenLoanMeansOnLoan(s, loan);
        var c := s.loans[loan].copy;
        CountUpdate(s.copies, c, s.copies[c].(status := Available), StockOf(b));
        CountUpdate(s.copies, c, s.copies[c].(status := Available), ShelfOf(b));
      }
    case _ =>
  }

  /** So over a whole run a title's shelf is empty, with two or more of its stock out, only if some
    edit has taken a copy of it off the shelf. */
  lemma {:induction false} RetainedOnlyAfterEdit(titles: set<BookId>, roll: map<UserId, Account>, calls: seq<Call>,
                                                 b: BookId)
    requires Retained(Run(Empty(titles, roll), calls).copies, b)
    ensures DeskQueue.OffShelfEdits(titles, roll, calls, b) > 0
  {
    var start := Empty(titles, roll);
    if calls == [] {
      SubsetSize(Matching(start.copies, StockOf(b)), {});
    } else {
      var front := calls[..|calls| - 1];
      if Retained(Run(start, front).copies, b) {
        RetainedOnlyAfterEdit(titles, roll, front, b);
      } else {
        CoupledInEveryRun(titles, roll, front);
        OnlyEditsExhaust(Run(start, front), calls[|calls| - 1], b);
      }
    }
  }
}
