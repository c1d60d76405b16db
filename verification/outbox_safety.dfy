/** Safety of the outbox under any number of workers and crashes. */
module OutboxSafety {
  import opened Tables
  import opened OutboxProtocol

  /** How often the message was handed to a worker. */
  function Hands(history: seq<Fact>, r: RowId): nat {
    CountIf(history, HandedOver(r))
  }

  /** How often a recipient's provider accepted the message. */
  function Accepts(history: seq<Fact>, r: RowId, to: Recipient): nat {
    CountIf(history, AcceptedBy(r, to))
  }

  /** How often the worker was told so. */
  function Told(history: seq<Fact>, r: RowId, to: Recipient): nat {
    CountIf(history, ToldOf(r, to))
  }

  /** How often it was told of a failure instead. */
  function Losses(history: seq<Fact>, r: RowId, to: Recipient): nat {
    CountIf(history, LostOn(r, to))
  }

  lemma ToldOrLost(history: seq<Fact>, r: RowId, to: Recipient)
    ensures Accepts(history, r, to) == Told(history, r, to) + Losses(history, r, to)
  {
    CountSplit(history, ToldOf(r, to), LostOn(r, to), AcceptedBy(r, to));
  }

  // Ownership: a claimed message is in at most one worker's batch

  ghost predicate Owned(s: Sys) {
    && (forall w :: w in s.workers ==> |s.workers[w].batch| > 0 && Distinct(s.workers[w].batch))
    && (forall w, i :: w in s.workers && 0 <= i < |s.workers[w].batch| ==>
          s.workers[w].batch[i] < |s.rows| && s.rows[s.workers[w].batch[i]].status == Claimed)
    && (forall w1, w2, r :: w1 in s.workers && w2 in s.workers && r in s.workers[w1].batch && r in s.workers[w2].batch
          ==> w1 == w2)
  }

  lemma AdvanceKeepsOwned(s: Sys, w: WorkerId, row: Row)
    requires Owned(s) && w in s.workers
    ensures Owned(Advance(s.(rows := s.rows[s.workers[w].batch[0] := row]), w))
  {
    var id := s.workers[w].batch[0];
    assert forall v :: v in s.workers && v != w ==> id !in s.workers[v].batch;
    assert id !in s.workers[w].batch[1..];
    var s' := Advance(s.(rows := s.rows[id := row]), w);
    forall v, i | v in s'.workers && 0 <= i < |s'.workers[v].batch|
      ensures s'.workers[v].batch[i] < |s'.rows| && s'.rows[s'.workers[v].batch[i]].status == Claimed
    {
      assert s'.workers[v].batch[i] in s'.workers[v].batch;
      if v == w { assert s'.workers[v].batch[i] == s.workers[v].batch[i + 1]; }
    }
    forall v, r | v in s'.workers && r in s'.workers[v].batch
      ensures r in s.workers[v].batch
    {
    }
  }

  lemma SkipKeepsOwned(s: Sys, w: WorkerId)
    requires Owned(s) && w in s.workers
    ensures Owned(Advance(s, w))
  {
  }

  /** An answer moves one worker to another stage, or on to its next message with or without a mark. */
  lemma ActShape(s: Sys, w: WorkerId, answer: Answer)
    requires w in s.workers && |s.workers[w].batch| > 0 && s.workers[w].batch[0] < |s.rows|
    ensures var s', id := Step(s, Act(w, answer)), s.workers[w].batch[0];
      || s' == Advance(s, w)
      || (s.workers[w].stage.Marking?
          && s' == Advance(s.(rows := s.rows[id := MarkRow(s.rows[id], s.workers[w].stage.mark)]), w))
      || SameBatches(s, s')
  {
  }

  ghost predicate SameBatches(s: Sys, s': Sys) {
    && s'.rows == s.rows && s'.workers.Keys == s.workers.Keys
    && forall v :: v in s.workers ==> s'.workers[v].batch == s.workers[v].batch
  }

  lemma ActKeepsOwned(s: Sys, w: WorkerId, answer: Answer)
    requires Owned(s)
    ensures Owned(Step(s, Act(w, answer)))
  {
    if w in s.workers {
      ActShape(s, w, answer);
      SkipKeepsOwned(s, w);
      if s.workers[w].stage.Marking? {
        AdvanceKeepsOwned(s, w, MarkRow(s.rows[s.workers[w].batch[0]], s.workers[w].stage.mark));
      }
      if SameBatches(s, Step(s, Act(w, answer))) {
        SameBatchesKeepOwned(s, Step(s, Act(w, answer)));
      }
    }
  }

  /** Moving a worker to another stage leaves the batches, and so who owns what, alone. */
  lemma SameBatchesKeepOwned(s: Sys, s': Sys)
    requires Owned(s) && SameBatches(s, s')
    ensures Owned(s')
  {
  }

  lemma ClaimKeepsOwned(s: Sys, w: WorkerId, ids: seq<RowId>)
    requires Owned(s)
    ensures Owned(Step(s, Claim(w, ids)))
  {
    var s' := Step(s, Claim(w, ids));
    if s' != s {
      forall v, i | v in s'.workers && 0 <= i < |s'.workers[v].batch|
        ensures s'.workers[v].batch[i] < |s'.rows| && s'.rows[s'.workers[v].batch[i]].status == Claimed
      {
      }
      forall v, r | v in s.workers && v != w && r in s.workers[v].batch
        ensures r !in ids
      {
      }
    }
  }

  lemma StepKeepsOwned(s: Sys, e: Event)
    requires Owned(s)
    ensures Owned(Step(s, e))
  {
    match e
    case Queue(_) =>
    case Claim(w, ids) => ClaimKeepsOwned(s, w, ids);
    case Act(w, answer) => ActKeepsOwned(s, w, answer);
    case Crash(_) =>
  }

  // Attempts and hand-offs

  /** Claim and MarkFailed each add one, so a message is handed to a worker at most three times. */
  ghost predicate AttemptsMatch(row: Row, hands: nat) {
    match row.status
    case Pending => row.attempts == 2 * hands && hands <= 2
    case Failed => row.attempts == 6 && hands == 3
    case _ => row.attempts == 2 * hands - 1 && 1 <= hands <= 3
  }

  ghost predicate RowCounted(s: Sys, r: RowId) {
    if r < |s.rows| then AttemptsMatch(s.rows[r], Hands(s.history, r)) else Hands(s.history, r) == 0
  }

  ghost predicate Counted(s: Sys) {
    forall r: RowId :: RowCounted(s, r)
  }

  lemma HandoffsCount(ids: seq<RowId>, r: RowId)
    requires Distinct(ids)
    ensures CountIf(Handoffs(ids), HandedOver(r)) == Bit(r in ids)
  {
    var facts := Handoffs(ids);
    if r in ids {
      var i :| 0 <= i < |ids| && ids[i] == r;
      assert facts[i] == Handed(r);
      assert Matching(facts, HandedOver(r)) == {i};
    } else {
      CountZero(facts, HandedOver(r));
    }
  }

  lemma ClaimKeepsCounted(s: Sys, w: WorkerId, ids: seq<RowId>)
    requires Counted(s)
    ensures Counted(Step(s, Claim(w, ids)))
  {
    var s' := Step(s, Claim(w, ids));
    if s' != s {
      forall r: RowId ensures RowCounted(s', r) {
        CountConcat(s.history, Handoffs(ids), HandedOver(r));
        HandoffsCount(ids, r);
        assert RowCounted(s, r);
      }
    }
  }

  function Marked(s: Sys, w: WorkerId): seq<Row>
    requires w in s.workers && |s.workers[w].batch| > 0 && s.workers[w].batch[0] < |s.rows|
    requires s.workers[w].stage.Marking?
  {
    var id := s.workers[w].batch[0];
    s.rows[id := MarkRow(s.rows[id], s.workers[w].stage.mark)]
  }

  /** The only row an answer can change is the first of the worker's batch, by marking it. */
  lemma ActAtMostMarks(s: Sys, w: WorkerId, answer: Answer)
    ensures var s' := Step(s, Act(w, answer));
      && (s'.rows == s.rows
          || (w in s.workers && |s.workers[w].batch| > 0 && s.workers[w].batch[0] < |s.rows|
              && s.workers[w].stage.Marking? && s'.rows == Marked(s, w)))
      && (s'.history == s.history || exists f: Fact :: !f.Handed? && s'.history == s.history + [f])
  {
  }

  lemma ActKeepsCounted(s: Sys, w: WorkerId, answer: Answer)
    requires Owned(s) && Counted(s)
    ensures Counted(Step(s, Act(w, answer)))
  {
    var s' := Step(s, Act(w, answer));
    ActAtMostMarks(s, w, answer);
    forall r: RowId ensures RowCounted(s', r) {
      if s'.history != s.history {
        var f: Fact :| !f.Handed? && s'.history == s.history + [f];
        CountAppend(s.history, f, HandedOver(r));
      }
      assert RowCounted(s, r);
    }
  }

  lemma StepKeepsCounted(s: Sys, e: Event)
    requires Owned(s) && Counted(s)
    ensures Counted(Step(s, e))
  {
    match e
    case Claim(w, ids) => ClaimKeepsCounted(s, w, ids);
    case Act(w, answer) => ActKeepsCounted(s, w, answer);
    case _ => forall r: RowId ensures RowCounted(Step(s, e), r) { assert RowCounted(s, r); }
  }

  lemma {:induction false} HandoffsBounded(events: seq<Event>)
    ensures Owned(Run(IDLE, events)) && Counted(Run(IDLE, events))
  {
    if events == [] {
      forall r: RowId { CountZero(IDLE.history, HandedOver(r)); }
    } else {
      HandoffsBounded(events[..|events| - 1]);
      StepKeepsOwned(Run(IDLE, events[..|events| - 1]), events[|events| - 1]);
      StepKeepsCounted(Run(IDLE, events[..|events| - 1]), events[|events| - 1]);
    }
  }

  lemma AttemptsByStatus(row: Row, hands: nat)
    requires AttemptsMatch(row, hands)
    ensures hands <= 3 && (row.status == Failed ==> hands == 3)
    ensures row.status == Pending ==> row.attempts in {0, 2, 4}
    ensures row.status == Claimed ==> row.attempts in {1, 3, 5}
  {
  }

  /** No message is claimed more than three times; one given up on was claimed exactly three times. */
  lemma ThreeHandoffsAtMost(events: seq<Event>, r: RowId)
    ensures var s := Run(IDLE, events);
      && Hands(s.history, r) <= 3
      && (r < |s.rows| ==>
            && (s.rows[r].status == Pending ==> s.rows[r].attempts in {0, 2, 4})
            && (s.rows[r].status == Claimed ==> s.rows[r].attempts in {1, 3, 5})
            && (s.rows[r].status == Failed ==> Hands(s.history, r) == 3))
  {
    HandoffsBounded(events);
    var s := Run(IDLE, events);
    assert RowCounted(s, r);
    if r < |s.rows| {
      AttemptsByStatus(s.rows[r], Hands(s.history, r));
    }
  }

  // Acceptance

  ghost predicate NoneTold(history: seq<Fact>, r: RowId) {
    forall to: Recipient :: Told(history, r, to) == 0
  }

  /** Two histories agree about a message. */
  ghost predicate Agree(h: seq<Fact>, h': seq<Fact>, r: RowId) {
    forall to: Recipient :: Accepts(h', r, to) == Accepts(h, r, to) && Told(h', r, to) == Told(h, r, to)
  }

  /** An acceptance is about one message and one recipient. */
  lemma AcceptanceIsLocal(history: seq<Fact>, f: Fact, r: RowId)
    requires !f.Handed?
    ensures r != f.row ==> Agree(history, history + [f], r)
    ensures forall t: Recipient :: Accepts(history + [f], f.row, t) == Accepts(history, f.row, t) + Bit(t == f.to)
    ensures forall t: Recipient ::
      Told(history + [f], f.row, t) == Told(history, f.row, t) + Bit(f.Accepted? && t == f.to)
  {
    forall t: Recipient, x: RowId | x == r || x == f.row
      ensures Accepts(history + [f], x, t) == Accepts(history, x, t) + Bit(x == f.row && t == f.to)
      ensures Told(history + [f], x, t) == Told(history, x, t) + Bit(f == Accepted(x, t))
    {
      CountAppend(history, f, AcceptedBy(x, t));
      CountAppend(history, f, ToldOf(x, t));
    }
  }

  lemma HandoffsAcceptNothing(history: seq<Fact>, ids: seq<RowId>, r: RowId)
    ensures Agree(history, history + Handoffs(ids), r)
  {
    forall to: Recipient
      ensures Accepts(history + Handoffs(ids), r, to) == Accepts(history, r, to)
      ensures Told(history + Handoffs(ids), r, to) == Told(history, r, to)
    {
      CountConcat(history, Handoffs(ids), AcceptedBy(r, to));
      CountConcat(history, Handoffs(ids), ToldOf(r, to));
      CountZero(Handoffs(ids), AcceptedBy(r, to));
      CountZero(Handoffs(ids), ToldOf(r, to));
    }
  }

  ghost predicate HeadSound(history: seq<Fact>, r: RowId, stage: Stage) {
    match stage
    case Checking => NoneTold(history, r)
    case Sending(todo, delivered, _) =>
      && Distinct(todo)
      && (forall to: Recipient :: to in todo ==> Told(history, r, to) == 0)
      && (delivered == 0 <==> NoneTold(history, r))
    case Marking(mark) => mark == AsSent <==> !NoneTold(history, r)
  }

  ghost predicate WorkerSound(history: seq<Fact>, worker: Worker) {
    && (forall i :: 1 <= i < |worker.batch| ==> NoneTold(history, worker.batch[i]))
    && (|worker.batch| > 0 ==> HeadSound(history, worker.batch[0], worker.stage))
  }

  /** What a message's status says: sent means the worker was told of an acceptance, and pending,
    given up or superseded means it never was. */
  ghost predicate RowTruthful(s: Sys, r: RowId) {
    && (forall to: Recipient :: Told(s.history, r, to) <= 1)
    && (r < |s.rows| && s.rows[r].status == Sent ==> !NoneTold(s.history, r))
    && (r >= |s.rows| || s.rows[r].status in {Pending, Failed, Superseded} ==> NoneTold(s.history, r))
  }

  ghost predicate Truthful(s: Sys) {
    && (forall r: RowId :: RowTruthful(s, r))
    && (forall w :: w in s.workers ==> WorkerSound(s.history, s.workers[w]))
  }

  lemma AgreeKeepsWorker(h: seq<Fact>, h': seq<Fact>, worker: Worker)
    requires WorkerSound(h, worker)
    requires forall i :: 0 <= i < |worker.batch| ==> Agree(h, h', worker.batch[i])
    ensures WorkerSound(h', worker)
  {
  }

  lemma ClaimKeepsTruthful(s: Sys, w: WorkerId, ids: seq<RowId>)
    requires Truthful(s)
    ensures Truthful(Step(s, Claim(w, ids)))
  {
    var s' := Step(s, Claim(w, ids));
    if s' != s {
      forall r: RowId ensures Agree(s.history, s'.history, r) { HandoffsAcceptNothing(s.history, ids, r); }
      forall r: RowId ensures RowTruthful(s', r) {
        assert RowTruthful(s, r) && Agree(s.history, s'.history, r);
      }
      forall v | v in s.workers && v != w ensures WorkerSound(s'.history, s'.workers[v]) {
        AgreeKeepsWorker(s.history, s'.history, s.workers[v]);
      }
      forall i | 0 <= i < |ids| ensures NoneTold(s'.history, ids[i]) {
        assert RowTruthful(s, ids[i]) && Agree(s.history, s'.history, ids[i]);
      }
    }
  }

  /** Accepted by a provider: one recipient fewer to do, and only this message's record changes. */
  lemma AcceptanceKeepsTruthful(s: Sys, w: WorkerId, answer: Answer)
    requires Owned(s) && Truthful(s) && w in s.workers && s.workers[w].stage.Sending? && s.workers[w].stage.todo != []
    requires answer == Acceptance || answer == LostAcceptance
    ensures Truthful(Step(s, Act(w, answer)))
  {
    var s' := Step(s, Act(w, answer));
    var id, todo := s.workers[w].batch[0], s.workers[w].stage.todo;
    var f := if answer == Acceptance then Accepted(id, todo[0]) else Lost(id, todo[0]);
    assert s'.history == s.history + [f];
    forall r: RowId | r != id ensures Agree(s.history, s'.history, r) { AcceptanceIsLocal(s.history, f, r); }
    AcceptanceIsLocal(s.history, f, id);
    assert WorkerSound(s.history, s.workers[w]);
    assert forall to :: to in todo[1..] ==> to in todo && to != todo[0];
    forall r: RowId ensures RowTruthful(s', r) {
      assert RowTruthful(s, r);
      if r != id { assert Agree(s.history, s'.history, r); }
    }
    forall v | v in s'.workers ensures WorkerSound(s'.history, s'.workers[v]) {
      assert WorkerSound(s.history, s.workers[v]);
      if v == w {
        HeadAfterAcceptance(s.history, f, s.workers[w].stage);
        TailKeepsSound(s, w, s'.history, s'.workers[w].stage);
      } else {
        assert id !in s.workers[v].batch;
        AgreeKeepsWorker(s.history, s'.history, s.workers[v]);
      }
    }
  }

  lemma TailKeepsSound(s: Sys, w: WorkerId, history: seq<Fact>, stage: Stage)
    requires Owned(s) && w in s.workers && WorkerSound(s.history, s.workers[w])
    requires HeadSound(history, s.workers[w].batch[0], stage)
    requires forall r: RowId :: r != s.workers[w].batch[0] ==> Agree(s.history, history, r)
    ensures WorkerSound(history, s.workers[w].(stage := stage))
  {
    var batch := s.workers[w].batch;
    forall i | 1 <= i < |batch| ensures NoneTold(history, batch[i]) {
      assert NoneTold(s.history, batch[i]) && Agree(s.history, history, batch[i]);
    }
  }

  /** The head of the batch stays sound when its next recipient accepts, told or lost. */
  lemma HeadAfterAcceptance(history: seq<Fact>, f: Fact, stage: Stage)
    requires !f.Handed? && stage.Sending? && stage.todo != [] && f.to == stage.todo[0]
    requires HeadSound(history, f.row, stage)
    ensures HeadSound(history + [f], f.row,
      NextSend(stage.todo[1..], stage.delivered + Bit(f.Accepted?), stage.transient || f.Lost?))
  {
    AcceptanceIsLocal(history, f, f.row);
    assert forall to :: to in stage.todo[1..] ==> to in stage.todo && to != f.to;
    if f.Accepted? {
      assert Told(history + [f], f.row, f.to) == 1;
    } else {
      assert NoneTold(history + [f], f.row) <==> NoneTold(history, f.row);
    }
  }

  lemma QuietActKeepsTruthful(s: Sys, w: WorkerId, answer: Answer)
    requires Owned(s) && Truthful(s) && Step(s, Act(w, answer)).history == s.history
    ensures Truthful(Step(s, Act(w, answer)))
  {
    var s' := Step(s, Act(w, answer));
    ActAtMostMarks(s, w, answer);
    if w in s.workers {
      assert WorkerSound(s.history, s.workers[w]);
    }
    forall r: RowId ensures RowTruthful(s', r) {
      assert RowTruthful(s, r);
    }
    forall v | v in s'.workers ensures WorkerSound(s'.history, s'.workers[v]) {
      assert WorkerSound(s.history, s.workers[v]);
    }
  }

  lemma StepKeepsTruthful(s: Sys, e: Event)
    requires Owned(s) && Truthful(s)
    ensures Truthful(Step(s, e))
  {
    match e
    case Claim(w, ids) => ClaimKeepsTruthful(s, w, ids);
    case Act(w, answer) =>
      if Step(s, e).history == s.history {
        QuietActKeepsTruthful(s, w, answer);
      } else {
        AcceptanceKeepsTruthful(s, w, answer);
      }
    case Queue(_) =>
      forall r: RowId ensures RowTruthful(Step(s, e), r) { assert RowTruthful(s, r); }
    case Crash(_) =>
      forall r: RowId ensures RowTruthful(Step(s, e), r) { assert RowTruthful(s, r); }
  }

  lemma {:induction false} TruthfulInEveryRun(events: seq<Event>)
    ensures Truthful(Run(IDLE, events))
  {
    if events == [] {
      forall r: RowId, to: Recipient ensures Told(IDLE.history, r, to) == 0 { CountZero(IDLE.history, ToldOf(r, to)); }
    } else {
      var front := events[..|events| - 1];
      TruthfulInEveryRun(front);
      HandoffsBounded(front);
      StepKeepsTruthful(Run(IDLE, front), events[|events| - 1]);
    }
  }

  /** For any number of workers, crashes and lost marks, a provider accepts a message for a
    recipient at most once more than its acceptances were lost on the way back; a message given
    up or superseded was accepted only that way, and a sent one was accepted by somebody. */
  lemma AcceptedOncePlusLosses(events: seq<Event>, r: RowId, to: Recipient)
    ensures var s := Run(IDLE, events);
      && Accepts(s.history, r, to) <= 1 + Losses(s.history, r, to)
      && (r < |s.rows| && s.rows[r].status in {Pending, Failed, Superseded}
          ==> Accepts(s.history, r, to) == Losses(s.history, r, to))
      && (r < |s.rows| && s.rows[r].status == Sent ==> exists x: Recipient :: Accepts(s.history, r, x) > 0)
  {
    var s := Run(IDLE, events);
    TruthfulInEveryRun(events);
    ToldOrLost(s.history, r, to);
    assert RowTruthful(s, r);
    if r < |s.rows| && s.rows[r].status == Sent {
      var x: Recipient :| Told(s.history, r, x) != 0;
      ToldOrLost(s.history, r, x);
    }
  }

  predicate LosesOne(e: Event) {
    e.Act? && e.answer.LostAcceptance?
  }

  lemma {:induction false} NoLossNoLosses(events: seq<Event>, r: RowId, to: Recipient)
    requires forall i :: 0 <= i < |events| ==> !LosesOne(events[i])
    ensures Losses(Run(IDLE, events).history, r, to) == 0
  {
    if events == [] {
      CountZero(IDLE.history, LostOn(r, to));
    } else {
      var s, e := Run(IDLE, events[..|events| - 1]), events[|events| - 1];
      NoLossNoLosses(events[..|events| - 1], r, to);
      CountZero(s.history, LostOn(r, to));
      CountZero(Step(s, e).history, LostOn(r, to));
    }
  }

  /** So at most once, as long as no acceptance is reported to the worker as a failure. */
  lemma AcceptedAtMostOnce(events: seq<Event>, r: RowId, to: Recipient)
    requires forall i :: 0 <= i < |events| ==> !LosesOne(events[i])
    ensures Accepts(Run(IDLE, events).history, r, to) <= 1
    ensures r < |Run(IDLE, events).rows| && Run(IDLE, events).rows[r].status in {Failed, Superseded}
      ==> Accepts(Run(IDLE, events).history, r, to) == 0
  {
    AcceptedOncePlusLosses(events, r, to);
    NoLossNoLosses(events, r, to);
  }
}
