/** Last-copy retention when borrows overlap: every copy can leave, and what keeps the last one back. */
module LendingRetention {
  import opened Tables
  import opened Domain
  import opened LendingProtocol
  import opened LendingOverlap
  import DeskLending
  import LendingSafety

  // Every copy of a title can leave

  function Copies(b: BookId, n: nat): seq<BookId> {
    seq(n, (i: nat) => b)
  }

  /** As many overlapping borrows as a title has copies take them all, in every configuration:
    each counts the others' copies as still on the shelf. */
  lemma OverlapsEmptyTheShelf(cfg: Config, b: BookId, users: seq<UserId>)
    requires |users| >= 2 && Distinct(users) && forall i :: 0 <= i < |users| ==> LimitFor(cfg, users[i]) > 0
    ensures exists events :: var copies := Run(cfg, IDLE, events).db.copies;
      |copies| == |users| && (forall c :: 0 <= c < |copies| ==> copies[c].book == b) && DeskLending.Retained(copies, b)
  {
    var n := |users|;
    var books := Copies(b, n);
    forall i | 0 <= i < n ensures !DeskLending.Retained(Claim(Stocked(books, 0), i), b) {
      var claimed := Claim(Stocked(books, 0), i);
      CountZero(claimed, ShelfOf(b));
      assert ShelfOf(b)(claimed[if i == 0 then 1 else 0]);
    }
    ReachAllLent(cfg, books, users, n);
    var events :| Run(cfg, IDLE, events) == Overlapped(books, users, n, n);
    AllOutIsRetained(Stocked(books, n), b);
    assert Run(cfg, IDLE, events).db.copies == Stocked(books, n);
  }

  lemma AllOutIsRetained(copies: seq<Copy>, b: BookId)
    requires |copies| >= 2
    requires forall c :: 0 <= c < |copies| ==> copies[c].book == b && InStock(copies[c]) && !OnShelf(copies[c])
    ensures DeskLending.Retained(copies, b)
  {
    SubsetSize({0, 1}, Matching(copies, StockOf(b)));
    CountZero(copies, ShelfOf(b));
  }

  // How many others it takes

  /** Between its retention count and its commit. */
  predicate PastCount(s: Sys, id: TxId) {
    && id in s.txs && s.txs[id].Borrowing? && s.txs[id].copy < |s.db.copies|
    && s.txs[id].at != Begun && s.txs[id].at != Claimed
  }

  /** The event commits another borrow, loss report or edit of a copy of the title. */
  predicate DisturbsTitle(s: Sys, e: Event, id: TxId, book: BookId) {
    && e.Next? && e.id != id && e.id in s.txs
    && match s.txs[e.id]
       case Borrowing(c, _, at) => at == Inserted && c < |s.db.copies| && s.db.copies[c].book == book
       case Marked(c, _, _) => c < |s.db.copies| && s.db.copies[c].book == book
       case EditWritten(c, _, _) => c < |s.db.copies| && s.db.copies[c].book == book
       case _ => false
  }

  /** Committing now would leave a copy on the shelf or a lending stock below two. */
  ghost predicate WouldRetain(s: Sys, id: TxId)
    requires PastCount(s, id)
  {
    !DeskLending.Retained(Claim(s.db.copies, s.txs[id].copy), s.db.copies[s.txs[id].copy].book)
  }

  /** A write to one row of another copy keeps the promise if it left the title alone or put a copy back. */
  lemma OtherRowKeepsPromise(copies: seq<Copy>, copy: CopyId, c: CopyId, x: Copy)
    requires copy < |copies| && c < |copies| && c != copy && x.book == copies[c].book
    requires x.book != copies[copy].book || x == copies[c]
      || (copies[c].status == OnLoan && x == copies[c].(status := Available))
    requires !DeskLending.Retained(Claim(copies, copy), copies[copy].book)
    ensures !DeskLending.Retained(Claim(copies[c := x], copy), copies[copy].book)
  {
    var mine, book := Claim(copies, copy), copies[copy].book;
    assert Claim(copies[c := x], copy) == mine[c := x];
    CountUpdate(mine, c, x, StockOf(book));
    CountUpdate(mine, c, x, ShelfOf(book));
  }

  /** Whoever writes a copy while the borrow is in flight writes one row, of another copy, of the
    same title as before: and unless it disturbs that title, it puts a lent copy back. */
  lemma OtherRowWritten(cfg: Config, s: Sys, t: TxId, id: TxId)
    requires CopiesExclusive(s) && LendingSafety.FreesOnlyLent(s) && t in s.txs
    requires PastCount(s, id) && PastCount(Step(cfg, s, Next(t)), id)
    requires Step(cfg, s, Next(t)).db.copies != s.db.copies
    ensures t != id && (s.txs[t].Borrowing? || s.txs[t].CopyFreed? || s.txs[t].Marked? || s.txs[t].EditWritten?)
    ensures var c, copies := s.txs[t].copy, Step(cfg, s, Next(t)).db.copies;
      && c < |s.db.copies| == |copies| && c != s.txs[id].copy && copies == s.db.copies[c := copies[c]]
      && copies[c].book == s.db.copies[c].book
      && (DisturbsTitle(s, Next(t), id, s.db.copies[c].book)
          || (s.db.copies[c].status == OnLoan && copies[c] == s.db.copies[c].(status := Available)))
  {
    OnlyCommitsWrite(cfg, s, t);
    assert t != id;
    assert LocksCopy(s.txs[id], s.txs[id].copy) && LocksCopy(s.txs[t], s.txs[t].copy);
  }

  lemma StepKeepsPromise(cfg: Config, s: Sys, e: Event, id: TxId)
    requires CopiesExclusive(s) && LendingSafety.FreesOnlyLent(s)
    requires PastCount(s, id) && WouldRetain(s, id)
    requires !DisturbsTitle(s, e, id, s.db.copies[s.txs[id].copy].book)
    requires PastCount(Step(cfg, s, e), id) && Step(cfg, s, e).txs[id].copy == s.txs[id].copy
    ensures WouldRetain(Step(cfg, s, e), id)
  {
    var copy := s.txs[id].copy;
    var book, s' := s.db.copies[copy].book, Step(cfg, s, e);
    match e
    case Accession(b, policy) =>
      assert Claim(s'.db.copies, copy) == Claim(s.db.copies, copy) + [Copy(b, "", policy, Available)];
      CountAppend(Claim(s.db.copies, copy), Copy(b, "", policy, Available), StockOf(book));
      CountAppend(Claim(s.db.copies, copy), Copy(b, "", policy, Available), ShelfOf(book));
    case Next(t) =>
      if s'.db.copies != s.db.copies {
        OtherRowWritten(cfg, s, t, id);
        var c := s.txs[t].copy;
        OtherRowKeepsPromise(s.db.copies, copy, c, s'.db.copies[c]);
      }
    case _ =>
  }

  function TitleOf(s: Sys, id: TxId): BookId
    requires PastCount(s, id)
  {
    s.db.copies[s.txs[id].copy].book
  }

  lemma SameBorrow(cfg: Config, s: Sys, e: Event, id: TxId)
    requires PastCount(s, id) && PastCount(Step(cfg, s, e), id)
    ensures Step(cfg, s, e).txs[id].copy == s.txs[id].copy
  {
  }

  lemma CountMakesPromise(cfg: Config, s: Sys, id: TxId)
    requires id in s.txs && s.txs[id].Borrowing? && s.txs[id].at == Claimed
    requires PastCount(Step(cfg, s, Next(id)), id)
    ensures WouldRetain(Step(cfg, s, Next(id)), id)
  {
  }

  /** The copies of the title that would be left on the shelf if the borrow committed now. */
  ghost function Left(s: Sys, id: TxId): nat
    requires PastCount(s, id)
  {
    CountIf(Claim(s.db.copies, s.txs[id].copy), ShelfOf(TitleOf(s, id)))
  }

  /** A write to one row of another copy takes at most one copy off the title's shelf. */
  lemma OtherRowLowersLeft(copies: seq<Copy>, copy: CopyId, c: CopyId, x: Copy)
    requires copy < |copies| && c < |copies| && c != copy && x.book == copies[c].book
    ensures var book := copies[copy].book;
      var harmless := x.book != book || (copies[c].status == OnLoan && x == copies[c].(status := Available));
      CountIf(Claim(copies, copy), ShelfOf(book))
      <= CountIf(Claim(copies[c := x], copy), ShelfOf(book)) + Bit(!harmless)
  {
    var mine, book := Claim(copies, copy), copies[copy].book;
    assert Claim(copies[c := x], copy) == mine[c := x];
    CountUpdate(mine, c, x, ShelfOf(book));
  }

  /** One event takes at most one copy from under a counted borrow, and only by disturbing its title. */
  lemma StepLowersLeft(cfg: Config, s: Sys, e: Event, id: TxId)
    requires CopiesExclusive(s) && LendingSafety.FreesOnlyLent(s)
    requires PastCount(s, id) && PastCount(Step(cfg, s, e), id) && Step(cfg, s, e).txs[id].copy == s.txs[id].copy
    ensures Left(s, id) <= Left(Step(cfg, s, e), id) + Bit(DisturbsTitle(s, e, id, TitleOf(s, id)))
  {
    var copy := s.txs[id].copy;
    var book, s' := s.db.copies[copy].book, Step(cfg, s, e);
    match e
    case Accession(b, policy) =>
      assert Claim(s'.db.copies, copy) == Claim(s.db.copies, copy) + [Copy(b, "", policy, Available)];
      CountAppend(Claim(s.db.copies, copy), Copy(b, "", policy, Available), ShelfOf(book));
    case Next(t) =>
      if s'.db.copies != s.db.copies {
        OtherRowWritten(cfg, s, t, id);
        var c := s.txs[t].copy;
        OtherRowLowersLeft(s.db.copies, copy, c, s'.db.copies[c]);
      }
    case _ =>
  }

  // Over a whole schedule

  /** The states the schedule passes through: `[k]` is the state event `k` finds. */
  ghost function History(cfg: Config, events: seq<Event>): (states: seq<Sys>)
    ensures |states| == |events| + 1
  {
    if events == [] then [IDLE]
    else
      var n := |events| - 1;
      var before := History(cfg, events[..n]);
      before + [Step(cfg, before[n], events[n])]
  }

  lemma {:induction false} HistoryIsRun(cfg: Config, events: seq<Event>)
    ensures History(cfg, events)[|events|] == Run(cfg, IDLE, events)
  {
    if events != [] {
      HistoryIsRun(cfg, events[..|events| - 1]);
    }
  }

  lemma {:induction false} HistoryPrefix(cfg: Config, events: seq<Event>, k: nat)
    requires k <= |events|
    ensures History(cfg, events)[..k + 1] == History(cfg, events[..k])
  {
    if k < |events| {
      var front := events[..|events| - 1];
      HistoryPrefix(cfg, front, k);
      assert front[..k] == events[..k];
    } else {
      assert events[..k] == events;
    }
  }

  lemma HistoryStep(cfg: Config, events: seq<Event>, k: nat)
    requires k < |events|
    ensures History(cfg, events)[k] == Run(cfg, IDLE, events[..k])
    ensures History(cfg, events)[k + 1] == Step(cfg, History(cfg, events)[k], events[k])
  {
    HistoryPrefix(cfg, events, k);
    HistoryPrefix(cfg, events, k + 1);
    HistoryIsRun(cfg, events[..k]);
    assert events[..k + 1][..k] == events[..k];
  }

  /** Event `i` is the borrow's retention count. */
  ghost predicate CountsAt(states: seq<Sys>, events: seq<Event>, i: nat, id: TxId) {
    && i < |events| < |states| && events[i] == Next(id)
    && id in states[i].txs && states[i].txs[id].Borrowing? && states[i].txs[id].at == Claimed
  }

  /** From just after event `i` until event `j` comes, the borrow has counted and not ended. */
  ghost predicate InFlight(states: seq<Sys>, i: nat, j: nat, id: TxId) {
    && i < j < |states| && PastCount(states[i + 1], id) && PastCount(states[j], id)
    && (j == i + 1 || InFlight(states, i, j - 1, id))
  }

  ghost predicate DisturbedBy(states: seq<Sys>, events: seq<Event>, k: nat, id: TxId)
    requires k < |events| && k < |states| && PastCount(states[k], id)
  {
    DisturbsTitle(states[k], events[k], id, TitleOf(states[k], id))
  }

  /** How many events after the count have committed another borrow, loss report or edit of the title. */
  ghost function Disturbances(states: seq<Sys>, events: seq<Event>, i: nat, j: nat, id: TxId): nat
    requires j <= |events| && InFlight(states, i, j, id)
    decreases j
  {
    if j == i + 1 then 0
    else Disturbances(states, events, i, j - 1, id) + Bit(DisturbedBy(states, events, j - 1, id))
  }

  lemma OneEvent(cfg: Config, states: seq<Sys>, events: seq<Event>, k: nat, id: TxId)
    requires states == History(cfg, events)
    requires k < |events| && PastCount(states[k], id) && PastCount(states[k + 1], id)
    ensures Left(states[k], id) <= Left(states[k + 1], id) + Bit(DisturbedBy(states, events, k, id))
    ensures !DisturbedBy(states, events, k, id) && WouldRetain(states[k], id) ==> WouldRetain(states[k + 1], id)
  {
    var s, e := states[k], events[k];
    HistoryStep(cfg, events, k);
    LendingSafety.RowsExclusiveInEverySchedule(cfg, events[..k]);
    SameBorrow(cfg, s, e, id);
    StepLowersLeft(cfg, s, e, id);
    if !DisturbedBy(states, events, k, id) && WouldRetain(s, id) {
      StepKeepsPromise(cfg, s, e, id);
    }
  }

  /** What the borrow counted, less one for every disturbance, is still there. */
  lemma {:induction false} CountLasts(
    cfg: Config, states: seq<Sys>, events: seq<Event>, i: nat, j: nat, id: TxId)
    requires states == History(cfg, events) && InFlight(states, i, j, id)
    ensures Left(states[i + 1], id) <= Left(states[j], id) + Disturbances(states, events, i, j, id)
    decreases j
  {
    if j > i + 1 {
      CountLasts(cfg, states, events, i, j - 1, id);
      OneEvent(cfg, states, events, j - 1, id);
    }
  }

  /** Undisturbed, it may commit as safely as when it counted. */
  lemma {:induction false} PromiseLasts(
    cfg: Config, states: seq<Sys>, events: seq<Event>, i: nat, j: nat, id: TxId)
    requires states == History(cfg, events) && InFlight(states, i, j, id)
    requires Disturbances(states, events, i, j, id) == 0 && WouldRetain(states[i + 1], id)
    ensures WouldRetain(states[j], id)
    decreases j
  {
    if j > i + 1 {
      PromiseLasts(cfg, states, events, i, j - 1, id);
      OneEvent(cfg, states, events, j - 1, id);
    }
  }

  /** Event `i` is the retention count of the borrow, and it found `left` copies beside its own. */
  ghost predicate CountsLeft(states: seq<Sys>, events: seq<Event>, i: nat, id: TxId, left: nat) {
    && CountsAt(states, events, i, id) && id in states[i + 1].txs
    && var tx := states[i + 1].txs[id];
    tx.Borrowing? && tx.at.Counted? && tx.at.left == left
  }

  /** The count made a promise, and its place in the program records what it counted. */
  lemma CountTaken(cfg: Config, states: seq<Sys>, events: seq<Event>, i: nat, id: TxId, left: nat)
    requires states == History(cfg, events) && CountsLeft(states, events, i, id, left)
    requires PastCount(states[i + 1], id)
    ensures WouldRetain(states[i + 1], id) && Left(states[i + 1], id) == left
  {
    HistoryStep(cfg, events, i);
    CountMakesPromise(cfg, states[i], id);
  }

  /** A borrow that counted `left` copies, and then saw `d` disturbances, commits at event `j`. */
  ghost predicate CommitsDisturbed(
    states: seq<Sys>, events: seq<Event>, i: nat, j: nat, id: TxId, left: nat, d: nat)
  {
    && CountsLeft(states, events, i, id, left) && j < |events| && InFlight(states, i, j, id)
    && Disturbances(states, events, i, j, id) == d
    && events[j] == Next(id) && states[j].txs[id].at == Inserted
  }

  function Least(left: nat): nat {
    if left > 1 then left else 1
  }

  /** Last-copy retention under interleaving: a loan that counted `left` copies and was disturbed
    fewer times than that (not at all, if it counted none) leaves a copy of its title on the shelf
    or a lending stock below two. */
  lemma FewDisturbancesRetainLastCopy(
    cfg: Config, states: seq<Sys>, events: seq<Event>, i: nat, j: nat, id: TxId, left: nat, d: nat)
    requires states == History(cfg, events) && CommitsDisturbed(states, events, i, j, id, left, d)
    requires d < Least(left)
    ensures !DeskLending.Retained(states[j + 1].db.copies, TitleOf(states[j], id))
  {
    CountTaken(cfg, states, events, i, id, left);
    CountLasts(cfg, states, events, i, j, id);
    if d == 0 {
      PromiseLasts(cfg, states, events, i, j, id);
    } else {
      LeftMeansRetained(states[j], id);
    }
    HistoryStep(cfg, events, j);
    CommitKeepsPromise(cfg, states[j], id);
  }

  lemma LeftMeansRetained(s: Sys, id: TxId)
    requires PastCount(s, id) && Left(s, id) > 0
    ensures WouldRetain(s, id)
  {
  }

  lemma CommitKeepsPromise(cfg: Config, s: Sys, id: TxId)
    requires PastCount(s, id) && s.txs[id].at == Inserted && WouldRetain(s, id)
    ensures !DeskLending.Retained(Step(cfg, s, Next(id)).db.copies, TitleOf(s, id))
  {
  }
}
