/** What the outbox does when acceptances are lost or workers die. */
module OutboxLimits {
  import opened Tables
  import opened OutboxProtocol
  import opened OutboxSafety

  // Even a provider whose acceptances are lost accepts at most once per hand-off

  /** This hand-off has not reached the recipient yet. */
  ghost predicate Unspent(history: seq<Fact>, r: RowId, to: Recipient) {
    Accepts(history, r, to) < Hands(history, r)
  }

  ghost predicate WorkerRoom(history: seq<Fact>, worker: Worker) {
    && (forall i, to: Recipient :: 1 <= i < |worker.batch| ==> Unspent(history, worker.batch[i], to))
    && (|worker.batch| > 0 && worker.stage.Checking? ==> forall to: Recipient :: Unspent(history, worker.batch[0], to))
    && (|worker.batch| > 0 && worker.stage.Sending? ==>
          Distinct(worker.stage.todo)
          && forall to: Recipient :: to in worker.stage.todo ==> Unspent(history, worker.batch[0], to))
  }

  ghost predicate Room(s: Sys) {
    && (forall r: RowId, to: Recipient :: Accepts(s.history, r, to) <= Hands(s.history, r))
    && (forall w :: w in s.workers ==> WorkerRoom(s.history, s.workers[w]))
  }

  lemma ClaimKeepsRoom(s: Sys, w: WorkerId, ids: seq<RowId>)
    requires Owned(s) && Room(s)
    ensures Room(Step(s, Claim(w, ids)))
  {
    var s' := Step(s, Claim(w, ids));
    if s' != s {
      forall r: RowId
        ensures Agree(s.history, s'.history, r) && Hands(s'.history, r) == Hands(s.history, r) + Bit(r in ids)
      {
        HandoffsAcceptNothing(s.history, ids, r);
        CountConcat(s.history, Handoffs(ids), HandedOver(r));
        HandoffsCount(ids, r);
      }
      forall r: RowId, to: Recipient ensures Accepts(s'.history, r, to) <= Hands(s'.history, r) {
        assert Agree(s.history, s'.history, r);
      }
      forall v | v in s'.workers ensures WorkerRoom(s'.history, s'.workers[v]) {
        if v != w {
          assert WorkerRoom(s.history, s.workers[v]);
        }
        forall i, to: Recipient
          | 0 <= i < |s'.workers[v].batch| && (v == w || Unspent(s.history, s'.workers[v].batch[i], to))
          ensures Unspent(s'.history, s'.workers[v].batch[i], to)
        {
          assert Agree(s.history, s'.history, s'.workers[v].batch[i]);
        }
      }
    }
  }

  lemma AcceptedKeepsRoom(s: Sys, w: WorkerId, answer: Answer)
    requires Owned(s) && Room(s) && w in s.workers && s.workers[w].stage.Sending? && s.workers[w].stage.todo != []
    requires answer == Acceptance || answer == LostAcceptance
    ensures Room(Step(s, Act(w, answer)))
  {
    var s' := Step(s, Act(w, answer));
    var id, todo := s.workers[w].batch[0], s.workers[w].stage.todo;
    var f := if answer == Acceptance then Accepted(id, todo[0]) else Lost(id, todo[0]);
    assert s'.history == s.history + [f];
    assert WorkerRoom(s.history, s.workers[w]);
    forall r: RowId
      ensures Hands(s'.history, r) == Hands(s.history, r) && (r != id ==> Agree(s.history, s'.history, r))
    {
      AcceptanceIsLocal(s.history, f, r);
      CountAppend(s.history, f, HandedOver(r));
    }
    AcceptanceIsLocal(s.history, f, id);
    forall r: RowId, to: Recipient ensures Accepts(s'.history, r, to) <= Hands(s'.history, r) {
      if r != id {
        assert Agree(s.history, s'.history, r);
      } else if to == todo[0] {
        assert Unspent(s.history, id, to);
      }
    }
    forall v | v in s'.workers ensures WorkerRoom(s'.history, s'.workers[v]) {
      assert WorkerRoom(s.history, s.workers[v]);
      assert v != w ==> id !in s.workers[v].batch;
      forall i, to: Recipient
        | 0 <= i < |s.workers[v].batch| && s.workers[v].batch[i] != id && Unspent(s.history, s.workers[v].batch[i], to)
        ensures Unspent(s'.history, s.workers[v].batch[i], to)
      {
        assert Agree(s.history, s'.history, s.workers[v].batch[i]);
      }
      if v == w {
        assert forall to :: to in todo[1..] ==> to in todo && to != todo[0];
      }
    }
  }

  lemma QuietKeepsRoom(s: Sys, e: Event)
    requires Owned(s) && Room(s) && !e.Claim? && Step(s, e).history == s.history
    ensures Room(Step(s, e))
  {
    if e.Act? {
      QuietActKeepsRoom(s, e.worker, e.answer);
    }
  }

  lemma QuietActKeepsRoom(s: Sys, w: WorkerId, answer: Answer)
    requires Owned(s) && Room(s) && Step(s, Act(w, answer)).history == s.history
    ensures Room(Step(s, Act(w, answer)))
  {
    var s' := Step(s, Act(w, answer));
    forall v | v in s'.workers ensures WorkerRoom(s'.history, s'.workers[v]) {
      assert WorkerRoom(s.history, s.workers[v]);
    }
  }

  lemma StepKeepsRoom(s: Sys, e: Event)
    requires Owned(s) && Room(s)
    ensures Room(Step(s, e))
  {
    if e.Claim? {
      ClaimKeepsRoom(s, e.worker, e.ids);
    } else if Step(s, e).history == s.history {
      QuietKeepsRoom(s, e);
    } else {
      AcceptedKeepsRoom(s, e.worker, e.answer);
    }
  }

  lemma {:induction false} RoomInEveryRun(events: seq<Event>)
    ensures Room(Run(IDLE, events))
  {
    if events == [] {
      forall r: RowId, to: Recipient ensures Accepts(IDLE.history, r, to) == 0 {
        CountZero(IDLE.history, AcceptedBy(r, to));
      }
    } else {
      RoomInEveryRun(events[..|events| - 1]);
      HandoffsBounded(events[..|events| - 1]);
      StepKeepsRoom(Run(IDLE, events[..|events| - 1]), events[|events| - 1]);
    }
  }

  /** In every run, lost acceptances included, no recipient gets a message more than three times. */
  lemma AtMostThreeCopies(events: seq<Event>, r: RowId, to: Recipient)
    ensures Accepts(Run(IDLE, events).history, r, to) <= 3
  {
    RoomInEveryRun(events);
    ThreeHandoffsAtMost(events, r);
  }

  // The bound of three is reached

  function LostRound(): seq<Event> {
    [Claim(0, [0]), Act(0, Recipients([Mailbox])), Act(0, LostAcceptance), Act(0, MarkAnswer(true))]
  }

  lemma {:induction false} RunConcat(s: Sys, a: seq<Event>, b: seq<Event>)
    ensures Run(s, a + b) == Run(Run(s, a), b)
  {
    if b == [] {
      assert a + b == a;
    } else {
      RunConcat(s, a, b[..|b| - 1]);
      assert (a + b)[..|a + b| - 1] == a + b[..|b| - 1];
    }
  }

  lemma RunCons(s: Sys, e: Event, rest: seq<Event>)
    ensures Run(s, [e] + rest) == Run(Step(s, e), rest)
  {
    RunConcat(s, [e], rest);
    assert [e][..0] == [];
  }

  function AtStage(attempts: nat, stage: Stage, history: seq<Fact>): Sys {
    Sys([Row(Email, Claimed, attempts + 1)], map[0 := Worker([0], stage)], history)
  }

  lemma LostRoundStarts(attempts: nat, history: seq<Fact>)
    requires attempts < 5
    ensures Step(Sys([Row(Email, Pending, attempts)], map[], history), Claim(0, [0]))
      == AtStage(attempts, Checking, history + [Handed(0)])
  {
  }

  lemma LostRoundLoses(attempts: nat, history: seq<Fact>)
    ensures Step(AtStage(attempts, Checking, history), Act(0, Recipients([Mailbox])))
      == AtStage(attempts, Sending([Mailbox], 0, false), history)
    ensures Step(AtStage(attempts, Sending([Mailbox], 0, false), history), Act(0, LostAcceptance))
      == AtStage(attempts, Marking(AsFailed), history + [Lost(0, Mailbox)])
  {
  }

  lemma LostRoundEnds(attempts: nat, history: seq<Fact>)
    ensures Step(AtStage(attempts, Marking(AsFailed), history), Act(0, MarkAnswer(true)))
      == Sys([MarkRow(Row(Email, Claimed, attempts + 1), AsFailed)], map[], history)
  {
  }

  lemma LostRoundEffect(attempts: nat, history: seq<Fact>)
    requires attempts < 5
    ensures Run(Sys([Row(Email, Pending, attempts)], map[], history), LostRound())
      == Sys([MarkRow(Row(Email, Claimed, attempts + 1), AsFailed)], map[], AfterLostRound(history))
  {
    var s0 := Sys([Row(Email, Pending, attempts)], map[], history);
    var s1 := AtStage(attempts, Checking, history + [Handed(0)]);
    var s2 := AtStage(attempts, Sending([Mailbox], 0, false), history + [Handed(0)]);
    var s3 := AtStage(attempts, Marking(AsFailed), AfterLostRound(history));
    LostRoundStarts(attempts, history);
    LostRoundLoses(attempts, history + [Handed(0)]);
    var claim, ask := Claim(0, [0]), Act(0, Recipients([Mailbox]));
    var lose, mark := Act(0, LostAcceptance), Act(0, MarkAnswer(true));
    assert LostRound() == [claim] + ([ask] + ([lose] + ([mark] + [])));
    RunCons(s0, claim, [ask] + ([lose] + ([mark] + [])));
    RunCons(s1, ask, [lose] + ([mark] + []));
    RunCons(s2, lose, [mark] + []);
    RunCons(s3, mark, []);
    LostRoundEnds(attempts, AfterLostRound(history));
  }

  function AfterLostRound(history: seq<Fact>): seq<Fact> {
    history + [Handed(0)] + [Lost(0, Mailbox)]
  }

  lemma LostRoundAccepts(history: seq<Fact>)
    ensures Accepts(AfterLostRound(history), 0, Mailbox) == Accepts(history, 0, Mailbox) + 1
  {
    CountAppend(history, Handed(0), AcceptedBy(0, Mailbox));
    CountAppend(history + [Handed(0)], Lost(0, Mailbox), AcceptedBy(0, Mailbox));
  }

  /** A message after `n` rounds that lost its acceptance. */
  function Lossy(n: nat): Sys
    requires n <= 3
  {
    Sys([Row(Email, if n < 3 then Pending else Failed, 2 * n)], map[], LostRounds(n))
  }

  function LostRounds(n: nat): seq<Fact> {
    if n == 0 then [] else AfterLostRound(LostRounds(n - 1))
  }

  lemma OneLostRound(n: nat)
    requires n < 3
    ensures Run(Lossy(n), LostRound()) == Lossy(n + 1)
  {
    LostRoundEffect(2 * n, LostRounds(n));
  }

  lemma ThreeLostRounds()
    ensures Run(Lossy(0), LostRound() + LostRound() + LostRound()) == Lossy(3)
  {
    OneLostRound(0);
    AnotherLostRound(LostRound(), 1);
    AnotherLostRound(LostRound() + LostRound(), 2);
  }

  lemma AnotherLostRound(events: seq<Event>, n: nat)
    requires n < 3 && Run(Lossy(0), events) == Lossy(n)
    ensures Run(Lossy(0), events + LostRound()) == Lossy(n + 1)
  {
    RunConcat(Lossy(0), events, LostRound());
    OneLostRound(n);
  }

  lemma {:induction false} LostRoundsAccept(n: nat)
    ensures Accepts(LostRounds(n), 0, Mailbox) == n
  {
    if n == 0 {
      CountZero(LostRounds(0), AcceptedBy(0, Mailbox));
    } else {
      LostRoundsAccept(n - 1);
      LostRoundAccepts(LostRounds(n - 1));
    }
  }

  /** A provider that accepts but whose answer is lost three times over mails the reader three
    times, and the message is then given up as failed. */
  lemma LostAcceptancesRepeat()
    ensures exists events ::
      Accepts(Run(IDLE, events).history, 0, Mailbox) == 3 && Run(IDLE, events).rows == [Row(Email, Failed, 6)]
  {
    var rounds := LostRound() + LostRound() + LostRound();
    RunCons(IDLE, Queue(Email), rounds);
    assert Step(IDLE, Queue(Email)) == Lossy(0);
    ThreeLostRounds();
    LostRoundsAccept(3);
    assert Run(IDLE, [Queue(Email)] + rounds) == Lossy(3);
  }

  // Stranded messages

  /** Claimed, and in no worker's batch: its worker crashed, or returned without marking it. */
  ghost predicate Stranded(s: Sys, r: RowId) {
    && r < |s.rows| && s.rows[r].status == Claimed
    && forall w :: w in s.workers ==> r !in s.workers[w].batch
  }

  lemma ActKeepsStranded(s: Sys, w: WorkerId, answer: Answer, r: RowId)
    requires Owned(s) && Stranded(s, r)
    ensures Stranded(Step(s, Act(w, answer)), r) && Step(s, Act(w, answer)).rows[r] == s.rows[r]
  {
    ActAtMostMarks(s, w, answer);
    if w in s.workers {
      var batch := s.workers[w].batch;
      assert batch[0] in batch && forall x :: x in batch[1..] ==> x in batch;
    }
  }

  lemma ActTellsNothing(s: Sys, w: WorkerId, answer: Answer, r: RowId)
    requires Owned(s) && Stranded(s, r)
    ensures Agree(s.history, Step(s, Act(w, answer)).history, r)
  {
    var s' := Step(s, Act(w, answer));
    if s'.history != s.history {
      var f := s'.history[|s.history|];
      assert f.row == s.workers[w].batch[0] && f.row in s.workers[w].batch && s'.history == s.history + [f];
      AcceptanceIsLocal(s.history, f, r);
    }
  }

  lemma StepKeepsStranded(s: Sys, e: Event, r: RowId)
    requires Owned(s) && Stranded(s, r)
    ensures Stranded(Step(s, e), r) && Step(s, e).rows[r] == s.rows[r]
    ensures Agree(s.history, Step(s, e).history, r)
  {
    match e
    case Claim(w, ids) => HandoffsAcceptNothing(s.history, ids, r);
    case Act(w, answer) =>
      ActKeepsStranded(s, w, answer, r);
      ActTellsNothing(s, w, answer, r);
    case _ =>
  }

  /** A stranded message is never picked up again: it stays claimed, and no provider hears of it. */
  lemma {:induction false} StrandedForever(before: seq<Event>, after: seq<Event>, r: RowId)
    requires Stranded(Run(IDLE, before), r)
    ensures Stranded(Run(IDLE, before + after), r)
    ensures Agree(Run(IDLE, before).history, Run(IDLE, before + after).history, r)
  {
    if after == [] {
      assert before + after == before;
    } else {
      var front := before + after[..|after| - 1];
      assert (before + after)[..|before + after| - 1] == front;
      StrandedForever(before, after[..|after| - 1], r);
      HandoffsBounded(front);
      StepKeepsStranded(Run(IDLE, front), (before + after)[|before + after| - 1], r);
    }
  }

  /** Crashing is enough to strand everything a worker had claimed. */
  lemma CrashStrands(s: Sys, w: WorkerId, r: RowId)
    requires Owned(s) && w in s.workers && r in s.workers[w].batch
    ensures Stranded(Step(s, Crash(w)), r)
  {
  }
}
