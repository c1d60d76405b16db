/** The notification worker's loops (internal/queue/worker.go), over the outbox table.

  What the world answers comes in as a script per message, so a pass is deterministic. */
module OutboxWorker {
  import opened Tables
  import opened OutboxProtocol
  import OutboxLimits
  import OutboxSafety

  /** Answers to one delivery: the checks, each send in turn, and whether the mark was stored. */
  datatype Script = Script(check: Answer, sends: seq<Answer>, stored: bool)

  predicate SendAnswer(a: Answer) {
    a == Acceptance || a == LostAcceptance || a == TransientError || a == PermanentError
  }

  predicate Fits(channel: Channel, script: Script) {
    && (match script.check
        case CheckFailed => true
        case NoLongerRelevant => true
        case NoSender => true
        case Undeliverable => channel == Email
        case NoTokenList => channel == Push
        case Recipients(to) => Addressed(channel, to) && |script.sends| == |to|
        case _ => false)
    && forall i :: 0 <= i < |script.sends| ==> SendAnswer(script.sends[i])
  }

  predicate IsAcceptance(a: Answer) {
    a == Acceptance
  }

  /** An error worth retrying, as the worker sees it. */
  predicate IsRetry(a: Answer) {
    a == TransientError || a == LostAcceptance
  }

  /** How the worker settles a message, or None when it returns without marking it. */
  function Settled(script: Script): Option<Mark> {
    match script.check
    case NoLongerRelevant => Some(AsSuperseded)
    case Undeliverable => Some(AsSuperseded)
    case Recipients(_) =>
      Some(Verdict(CountIf(script.sends, IsAcceptance), CountIf(script.sends, IsRetry) > 0))
    case _ => None
  }

  function Settle(rows: seq<Row>, id: RowId, script: Script): seq<Row>
    requires id < |rows|
  {
    var mark := Settled(script);
    if mark.Some? && script.stored then rows[id := MarkRow(rows[id], mark.value)] else rows
  }

  function SettleAll(rows: seq<Row>, batch: seq<RowId>, scripts: seq<Script>): (r: seq<Row>)
    requires |scripts| == |batch| && forall i :: 0 <= i < |batch| ==> batch[i] < |rows|
    ensures |r| == |rows|
    ensures forall i :: 0 <= i < |rows| ==> r[i].channel == rows[i].channel
  {
    if batch == [] then rows
    else
      var n := |batch| - 1;
      Settle(SettleAll(rows, batch[..n], scripts[..n]), batch[n], scripts[n])
  }

  predicate Open(rows: seq<Row>, locked: set<RowId>, id: RowId) {
    id < |rows| && Claimable(rows[id]) && id !in locked
  }

  /** The rows a claim may take, in the order of the scan. */
  function OpenIn(rows: seq<Row>, due: seq<RowId>, locked: set<RowId>): seq<RowId> {
    if due == [] then []
    else
      var n := |due| - 1;
      OpenIn(rows, due[..n], locked) + (if Open(rows, locked, due[n]) then [due[n]] else [])
  }

  lemma {:induction false} OpenPrefix(rows: seq<Row>, due: seq<RowId>, locked: set<RowId>, n: nat)
    requires n <= |due|
    ensures OpenIn(rows, due[..n], locked) <= OpenIn(rows, due, locked)
  {
    var m := |due| - 1;
    if n <= m {
      OpenPrefix(rows, due[..m], locked, n);
      assert due[..m][..n] == due[..n];
    } else {
      assert due[..n] == due;
    }
  }

  lemma {:induction false} OpenAreDue(rows: seq<Row>, due: seq<RowId>, locked: set<RowId>)
    ensures forall id :: id in OpenIn(rows, due, locked) ==> id in due && Open(rows, locked, id)
    ensures Distinct(due) ==> Distinct(OpenIn(rows, due, locked))
  {
    if due != [] {
      var front, last := due[..|due| - 1], due[|due| - 1];
      OpenAreDue(rows, front, locked);
      assert due == front + [last];
    }
  }

  /** Any first few of the open rows may be claimed together, up to a batch. */
  lemma OpenMayBeClaimed(rows: seq<Row>, due: seq<RowId>, locked: set<RowId>, n: nat)
    requires Distinct(due) && n <= |OpenIn(rows, due, locked)| && 0 < n <= BATCH
    ensures CanClaim(rows, OpenIn(rows, due, locked)[..n])
  {
    var open := OpenIn(rows, due, locked);
    OpenAreDue(rows, due, locked);
    forall i | 0 <= i < n ensures Open(rows, locked, open[..n][i]) {
      assert open[i] in open;
    }
  }

  lemma {:induction false} OpenInOrder(rows: seq<Row>, due: seq<RowId>, locked: set<RowId>, a: nat, b: nat,
                                       i: nat, j: nat)
    requires Distinct(due) && a < b < |OpenIn(rows, due, locked)| && i < |due| && j < |due|
    requires OpenIn(rows, due, locked)[a] == due[i] && OpenIn(rows, due, locked)[b] == due[j]
    ensures i < j
    decreases |due|
  {
    var n := |due| - 1;
    var front := OpenIn(rows, due[..n], locked);
    OpenAreDue(rows, due[..n], locked);
    assert front[a] in due[..n];
    assert i < n;
    if b < |front| {
      assert front[b] in due[..n];
      assert j < n;
      OpenInOrder(rows, due[..n], locked, a, b, i, j);
    }
  }

  /** A due row that is open is taken, unless the limit was used up on rows before it. */
  lemma OpenIsTaken(rows: seq<Row>, due: seq<RowId>, locked: set<RowId>, limit: nat, i: nat)
    requires i < |due| && Open(rows, locked, due[i])
    ensures var open := OpenIn(rows, due, locked); var taken := if |open| <= limit then open else open[..limit];
      due[i] in taken || (|taken| == limit && forall id :: id in taken ==> id in due[..i])
  {
    var open, before := OpenIn(rows, due, locked), OpenIn(rows, due[..i], locked);
    OpenPrefix(rows, due, locked, i);
    OpenPrefix(rows, due, locked, i + 1);
    assert due[..i + 1][..i] == due[..i];
    assert open[|before|] == due[i];
    OpenAreDue(rows, due[..i], locked);
    if |before| >= limit {
      assert open[..limit] == before[..limit];
    }
  }

  /** What a claim takes, in the columns: due rows that are pending, have attempts left and are not
    locked; in the order they fall due; no more than the limit; and none passed over, since a row
    that could be taken and is not finds the limit used up on rows before it. */
  ghost predicate ClaimsFirst(rows: seq<Row>, due: seq<RowId>, locked: set<RowId>, limit: nat, claimed: seq<RowId>) {
    && |claimed| <= limit && Distinct(claimed)
    && (forall id :: id in claimed ==>
          id in due && id < |rows| && rows[id].status == Pending && rows[id].attempts < 5 && id !in locked)
    && (forall a, b, i, j |
          0 <= a < b < |claimed| && 0 <= i < |due| && 0 <= j < |due|
          && claimed[a] == due[i] && claimed[b] == due[j] :: i < j)
    && (forall i :: 0 <= i < |due| && due[i] < |rows| && rows[due[i]].status == Pending
                    && rows[due[i]].attempts < 5 && due[i] !in locked ==>
          due[i] in claimed || (|claimed| == limit && forall id :: id in claimed ==> id in due[..i]))
  }

  lemma ScanClaimsFirst(rows: seq<Row>, due: seq<RowId>, locked: set<RowId>, limit: nat)
    requires Distinct(due)
    ensures var open := OpenIn(rows, due, locked);
      ClaimsFirst(rows, due, locked, limit, if |open| <= limit then open else open[..limit])
  {
    OpenAreDue(rows, due, locked);
    var open := OpenIn(rows, due, locked);
    forall a, b, i, j |
      0 <= a < b < |open| && 0 <= i < |due| && 0 <= j < |due| && open[a] == due[i] && open[b] == due[j]
    {
      OpenInOrder(rows, due, locked, a, b, i, j);
    }
    forall i | 0 <= i < |due| && Open(rows, locked, due[i]) {
      OpenIsTaken(rows, due, locked, limit, i);
    }
  }

  class Outbox {
    var rows: seq<Row>

    /** The claiming UPDATE: the rows that are due are taken in order of schedule, passing over
      what others have locked, up to the limit. */
    method Pending(due: seq<RowId>, locked: set<RowId>, limit: nat) returns (claimed: seq<RowId>)
      requires Distinct(due)
      modifies this
      ensures ClaimsFirst(old(rows), due, locked, limit, claimed)
      ensures 0 < |claimed| <= BATCH ==> CanClaim(old(rows), claimed)
      ensures rows == ClaimAll(old(rows), claimed) && |rows| == |old(rows)|
      ensures forall id :: 0 <= id < |rows| ==>
        var was := old(rows)[id];
        rows[id] == if id in claimed then Row(was.channel, Claimed, was.attempts + 1) else was
    {
      ScanClaimsFirst(rows, due, locked, limit);
      claimed := Scan(due, locked, limit);
      if 0 < |claimed| <= BATCH {
        var open := OpenIn(rows, due, locked);
        OpenMayBeClaimed(rows, due, locked, |claimed|);
        assert open[..|open|] == open;
      }
      rows := ClaimAll(rows, claimed);
    }

    method Scan(due: seq<RowId>, locked: set<RowId>, limit: nat) returns (taken: seq<RowId>)
      ensures var open := OpenIn(rows, due, locked); taken == if |open| <= limit then open else open[..limit]
    {
      taken := [];
      var i := 0;
      while i < |due| && |taken| < limit
        invariant i <= |due| && |taken| <= limit
        invariant taken == OpenIn(rows, due[..i], locked)
      {
        assert due[..i + 1][..i] == due[..i];
        if due[i] < |rows| && Claimable(rows[due[i]]) && due[i] !in locked {
          taken := taken + [due[i]];
        }
        i := i + 1;
      }
      OpenPrefix(rows, due, locked, i);
      assert due[..|due|] == due;
    }

    method MarkSent(id: RowId)
      requires id < |rows|
      modifies this
      ensures rows == old(rows)[id := old(rows)[id].(status := Sent)] == old(rows)[id := MarkRow(old(rows)[id], AsSent)]
    {
      rows := rows[id := rows[id].(status := Sent)];
    }

    method MarkSuperseded(id: RowId)
      requires id < |rows|
      modifies this
      ensures rows == old(rows)[id := old(rows)[id].(status := Superseded)]
      ensures rows == old(rows)[id := MarkRow(old(rows)[id], AsSuperseded)]
    {
      rows := rows[id := rows[id].(status := Superseded)];
    }

    method MarkFailed(id: RowId)
      requires id < |rows|
      modifies this
      ensures rows == old(rows)[id := MarkRow(old(rows)[id], AsFailed)]
      ensures rows[id] == Row(old(rows)[id].channel, rows[id].status, old(rows)[id].attempts + 1)
      ensures rows[id].status == if old(rows)[id].attempts + 1 >= 5 then Failed else Status.Pending
    {
      var attempts := rows[id].attempts + 1;
      rows := rows[id := Row(rows[id].channel, if attempts >= MAX_ATTEMPTS then Failed else Status.Pending, attempts)];
    }

    /** Sends to every recipient in turn; stops for none of them. */
    method SendToAll(to: seq<Recipient>, sends: seq<Answer>) returns (delivered: nat, failed: bool)
      requires |sends| == |to| && forall i :: 0 <= i < |sends| ==> SendAnswer(sends[i])
      ensures delivered == CountIf(sends, IsAcceptance)
      ensures failed <==> CountIf(sends, IsRetry) > 0
    {
      delivered, failed := 0, false;
      CountZero(sends[..0], IsAcceptance);
      CountZero(sends[..0], IsRetry);
      for i := 0 to |to|
        invariant delivered == CountIf(sends[..i], IsAcceptance)
        invariant failed <==> CountIf(sends[..i], IsRetry) > 0
      {
        CountAppend(sends[..i], sends[i], IsAcceptance);
        CountAppend(sends[..i], sends[i], IsRetry);
        assert sends[..i + 1] == sends[..i] + [sends[i]];
        match sends[i]
        case Acceptance => delivered := delivered + 1;
        case PermanentError =>
        case _ => failed := true;
      }
      assert sends[..|to|] == sends;
    }

    method Deliver(id: RowId, script: Script)
      requires id < |rows| && Fits(rows[id].channel, script)
      modifies this
      ensures rows == Settle(old(rows), id, script)
    {
      match script.check
      case NoLongerRelevant => if script.stored { MarkSuperseded(id); }
      case Undeliverable => if script.stored { MarkSuperseded(id); }
      case Recipients(to) =>
        var delivered, failed := SendToAll(to, script.sends);
        if script.stored {
          if delivered > 0 {
            MarkSent(id);
          } else if failed {
            MarkFailed(id);
          } else {
            MarkSuperseded(id);
          }
        }
      case _ =>
    }

    /** One pass over a claimed batch; `stop` is where shutdown is noticed, if it is. */
    method DrainOnce(batch: seq<RowId>, scripts: seq<Script>, stop: nat) returns (handled: nat)
      requires |scripts| == |batch|
      requires forall i :: 0 <= i < |batch| ==> batch[i] < |rows| && Fits(rows[batch[i]].channel, scripts[i])
      modifies this
      ensures handled == if stop < |batch| then stop else |batch|
      ensures rows == SettleAll(old(rows), batch[..handled], scripts[..handled])
    {
      handled := 0;
      while handled < |batch|
        invariant handled <= |batch| && handled <= stop
        invariant rows == SettleAll(old(rows), batch[..handled], scripts[..handled])
      {
        if handled == stop {
          return;
        }
        Deliver(batch[handled], scripts[handled]);
        assert batch[..handled + 1][..handled] == batch[..handled];
        assert scripts[..handled + 1][..handled] == scripts[..handled];
        handled := handled + 1;
      }
    }
  }

  // What a delivery leaves

  /** The message's row after its delivery, told from the answers: sent if anybody was reached,
    tried again (five attempts at most) if nobody was and an error was worth it, and otherwise
    superseded; a delivery that cannot begin or whose mark is not stored leaves the row as it was. */
  lemma DeliveryOutcome(rows: seq<Row>, id: RowId, script: Script)
    requires id < |rows| && Fits(rows[id].channel, script)
    ensures var was, left := rows[id], Settle(rows, id, script)[id];
      var reached := exists i :: 0 <= i < |script.sends| && script.sends[i] == Acceptance;
      var retry := exists i :: 0 <= i < |script.sends|
                     && (script.sends[i] == TransientError || script.sends[i] == LostAcceptance);
      && Settle(rows, id, script) == rows[id := left]
      && (!script.stored || script.check in {CheckFailed, NoSender, NoTokenList} ==> left == was)
      && (script.stored ==> match script.check
          case NoLongerRelevant => left == was.(status := Superseded)
          case Undeliverable => left == was.(status := Superseded)
          case Recipients(_) =>
            if reached then left == was.(status := Sent)
            else if retry then
              left == Row(was.channel, if was.attempts + 1 >= 5 then Failed else Status.Pending, was.attempts + 1)
            else left == was.(status := Superseded)
          case _ => true)
  {
    CountZero(script.sends, IsAcceptance);
    CountZero(script.sends, IsRetry);
  }

  /** A pass settles each of its messages by that message's own answers, and no other row. */
  lemma {:induction false} BatchOutcome(rows: seq<Row>, batch: seq<RowId>, scripts: seq<Script>, id: RowId)
    requires |scripts| == |batch| && Distinct(batch) && id < |rows|
    requires forall i :: 0 <= i < |batch| ==> batch[i] < |rows|
    ensures id !in batch ==> SettleAll(rows, batch, scripts)[id] == rows[id]
    ensures forall k :: 0 <= k < |batch| && batch[k] == id ==>
      SettleAll(rows, batch, scripts)[id] == Settle(rows, id, scripts[k])[id]
    decreases |batch|
  {
    if batch != [] {
      var n := |batch| - 1;
      assert batch == batch[..n] + [batch[n]];
      BatchOutcome(rows, batch[..n], scripts[..n], id);
      if batch[n] == id {
        assert id !in batch[..n];
      }
    }
  }

  // The loops take the protocol's steps

  function Acts(w: WorkerId, answers: seq<Answer>): seq<Event> {
    seq(|answers|, i requires 0 <= i < |answers| => Act(w, answers[i]))
  }

  /** What the providers did, for each send in turn. */
  function SendFacts(id: RowId, to: seq<Recipient>, sends: seq<Answer>): seq<Fact>
    requires |to| == |sends|
  {
    if sends == [] then [] else SendFact(id, to[0], sends[0]) + SendFacts(id, to[1..], sends[1..])
  }

  /** The worker's counters are the protocol's: sending to everybody reaches the same verdict. */
  lemma {:induction false} SendsReachVerdict(s: Sys, w: WorkerId, sends: seq<Answer>)
    requires w in s.workers && |s.workers[w].batch| > 0 && s.workers[w].batch[0] < |s.rows|
    requires s.workers[w].stage.Sending? && 0 < |sends| == |s.workers[w].stage.todo|
    requires forall i :: 0 <= i < |sends| ==> SendAnswer(sends[i])
    ensures var s', stage := Run(s, Acts(w, sends)), s.workers[w].stage;
      && s'.rows == s.rows && w in s'.workers && s'.workers[w].batch == s.workers[w].batch
      && s'.workers[w].stage == Marking(Verdict(stage.delivered + CountIf(sends, IsAcceptance),
                                                stage.transient || CountIf(sends, IsRetry) > 0))
    decreases |sends|
  {
    var s1, rest := Step(s, Act(w, sends[0])), sends[1..];
    FirstAct(s, w, sends);
    CountFirst(sends, IsAcceptance);
    CountFirst(sends, IsRetry);
    if rest != [] {
      SendsReachVerdict(s1, w, rest);
    } else {
      CountZero(rest, IsAcceptance);
      CountZero(rest, IsRetry);
    }
  }

  lemma FirstAct(s: Sys, w: WorkerId, answers: seq<Answer>)
    requires answers != []
    ensures Run(s, Acts(w, answers)) == Run(Step(s, Act(w, answers[0])), Acts(w, answers[1..]))
  {
    assert Acts(w, answers) == [Act(w, answers[0])] + Acts(w, answers[1..]);
    OutboxLimits.RunCons(s, Act(w, answers[0]), Acts(w, answers[1..]));
  }

  lemma CountFirst<T>(rows: seq<T>, p: T -> bool)
    requires rows != []
    ensures CountIf(rows, p) == Bit(p(rows[0])) + CountIf(rows[1..], p)
  {
    assert rows == [rows[0]] + rows[1..];
    CountConcat([rows[0]], rows[1..], p);
    assert [rows[0]] == [] + [rows[0]];
    CountAppend([], rows[0], p);
    CountZero([], p);
  }

  function SendFact(id: RowId, to: Recipient, send: Answer): seq<Fact> {
    if send == Acceptance then [Accepted(id, to)] else if send == LostAcceptance then [Lost(id, to)] else []
  }

  lemma OneSend(s: Sys, w: WorkerId, send: Answer)
    requires w in s.workers && |s.workers[w].batch| > 0 && s.workers[w].batch[0] < |s.rows|
    requires s.workers[w].stage.Sending? && s.workers[w].stage.todo != [] && SendAnswer(send)
    ensures var s', todo := Step(s, Act(w, send)), s.workers[w].stage.todo;
      && s'.rows == s.rows && s'.history == s.history + SendFact(s.workers[w].batch[0], todo[0], send)
      && w in s'.workers && s'.workers[w].batch == s.workers[w].batch
      && (|todo| > 1 ==> s'.workers[w].stage.Sending? && s'.workers[w].stage.todo == todo[1..])
  {
  }

  /** And every acceptance on the way is on record, in order. */
  lemma {:induction false} SendsAreRecorded(s: Sys, w: WorkerId, sends: seq<Answer>)
    requires w in s.workers && |s.workers[w].batch| > 0 && s.workers[w].batch[0] < |s.rows|
    requires s.workers[w].stage.Sending? && 0 < |sends| == |s.workers[w].stage.todo|
    requires forall i :: 0 <= i < |sends| ==> SendAnswer(sends[i])
    ensures Run(s, Acts(w, sends)).history
      == s.history + SendFacts(s.workers[w].batch[0], s.workers[w].stage.todo, sends)
    decreases |sends|
  {
    FirstAct(s, w, sends);
    OneSend(s, w, sends[0]);
    if |sends| > 1 {
      SendsAreRecorded(Step(s, Act(w, sends[0])), w, sends[1..]);
    } else {
      assert Acts(w, sends[1..]) == [];
    }
  }

  function DeliveryFacts(id: RowId, script: Script): seq<Fact>
    requires script.check.Recipients? ==> |script.sends| == |script.check.to|
  {
    if script.check.Recipients? then SendFacts(id, script.check.to, script.sends) else []
  }

  function SendEvents(w: WorkerId, script: Script): seq<Event> {
    if script.check.Recipients? then Acts(w, script.sends) else []
  }

  function ScriptEvents(w: WorkerId, script: Script): seq<Event> {
    [Act(w, script.check)] + SendEvents(w, script)
    + (if Settled(script).Some? then [Act(w, MarkAnswer(script.stored))] else [])
  }

  lemma RunSnoc(s: Sys, events: seq<Event>, e: Event)
    ensures Run(s, events + [e]) == Step(Run(s, events), e)
  {
    assert (events + [e])[..|events|] == events;
  }

  lemma ScriptRuns(s: Sys, w: WorkerId, script: Script)
    ensures var sent := Run(Step(s, Act(w, script.check)), SendEvents(w, script));
      Run(s, ScriptEvents(w, script))
      == if Settled(script).Some? then Step(sent, Act(w, MarkAnswer(script.stored))) else sent
  {
    var check, sends, mark := Act(w, script.check), SendEvents(w, script), Act(w, MarkAnswer(script.stored));
    OutboxLimits.RunCons(s, check, sends);
    if Settled(script).Some? {
      RunSnoc(s, [check] + sends, mark);
    } else {
      assert ScriptEvents(w, script) == [check] + sends;
    }
  }

  lemma ActMovesOnlyOne(s: Sys, w: WorkerId, answer: Answer)
    ensures Step(s, Act(w, answer)).workers - {w} == s.workers - {w}
  {
  }

  lemma {:induction false} SendsMoveOnlyOne(s: Sys, w: WorkerId, answers: seq<Answer>)
    ensures Run(s, Acts(w, answers)).workers - {w} == s.workers - {w}
    decreases |answers|
  {
    if answers != [] {
      FirstAct(s, w, answers);
      ActMovesOnlyOne(s, w, answers[0]);
      SendsMoveOnlyOne(Step(s, Act(w, answers[0])), w, answers[1..]);
    }
  }

  /** After its check and sends, the worker is about to store what `Settled` says. */
  lemma ReachesMark(s: Sys, w: WorkerId, script: Script)
    requires w in s.workers && |s.workers[w].batch| > 0 && s.workers[w].batch[0] < |s.rows|
    requires s.workers[w].stage == Checking && Fits(s.rows[s.workers[w].batch[0]].channel, script)
    requires Settled(script).Some?
    ensures var s' := Run(Step(s, Act(w, script.check)), SendEvents(w, script));
      && s'.rows == s.rows && s'.workers - {w} == s.workers - {w}
      && w in s'.workers && s'.workers[w] == Worker(s.workers[w].batch, Marking(Settled(script).value))
      && s'.history == s.history + DeliveryFacts(s.workers[w].batch[0], script)
  {
    var s1 := Step(s, Act(w, script.check));
    ActMovesOnlyOne(s, w, script.check);
    if script.check.Recipients? {
      if script.sends != [] {
        SendsReachVerdict(s1, w, script.sends);
        SendsAreRecorded(s1, w, script.sends);
        SendsMoveOnlyOne(s1, w, script.sends);
      } else {
        assert Acts(w, script.sends) == [];
        CountZero(script.sends, IsAcceptance);
        CountZero(script.sends, IsRetry);
      }
    }
  }

  lemma MarkFinishes(s: Sys, s2: Sys, w: WorkerId, mark: Mark, stored: bool)
    requires w in s.workers && |s.workers[w].batch| > 0 && s.workers[w].batch[0] < |s.rows|
    requires s2.rows == s.rows && s2.workers - {w} == s.workers - {w}
    requires w in s2.workers && s2.workers[w] == Worker(s.workers[w].batch, Marking(mark))
    ensures var s', id := Step(s2, Act(w, MarkAnswer(stored))), s.workers[w].batch[0];
      && s'.rows == (if stored then s.rows[id := MarkRow(s.rows[id], mark)] else s.rows)
      && s'.workers == Advance(s, w).workers && s'.history == s2.history
  {
    var s' := Step(s2, Act(w, MarkAnswer(stored)));
    var rest := s.workers[w].batch[1..];
    assert s'.workers == if rest == [] then s2.workers - {w} else s2.workers[w := Worker(rest, Checking)];
    forall v | v != w ensures v in s2.workers <==> v in s.workers {
      assert v in s2.workers - {w} <==> v in s.workers - {w};
    }
    forall v | v != w && v in s.workers ensures s2.workers[v] == s.workers[v] {
      assert (s2.workers - {w})[v] == (s.workers - {w})[v];
    }
  }

  /** Delivering one message is the protocol's run of the same answers: same rows, same worker
    after, same acceptances. */
  lemma DeliverIsProtocol(s: Sys, w: WorkerId, script: Script)
    requires w in s.workers && |s.workers[w].batch| > 0 && s.workers[w].batch[0] < |s.rows|
    requires s.workers[w].stage == Checking && Fits(s.rows[s.workers[w].batch[0]].channel, script)
    ensures var id := s.workers[w].batch[0];
      Run(s, ScriptEvents(w, script))
      == Sys(Settle(s.rows, id, script), Advance(s, w).workers, s.history + DeliveryFacts(id, script))
  {
    ScriptRuns(s, w, script);
    if Settled(script).Some? {
      ReachesMark(s, w, script);
      var sent := Run(Step(s, Act(w, script.check)), SendEvents(w, script));
      MarkFinishes(s, sent, w, Settled(script).value, script.stored);
    }
  }

  /** Which deliveries strand their message: exactly those that return without marking it (the
    relevance check failed, no sender fits, the tokens could not be read) or whose mark was not
    stored. */
  lemma DeliveryStrandsIff(s: Sys, w: WorkerId, script: Script)
    requires OutboxSafety.Owned(s) && w in s.workers
    requires s.workers[w].stage == Checking && Fits(s.rows[s.workers[w].batch[0]].channel, script)
    ensures OutboxLimits.Stranded(Run(s, ScriptEvents(w, script)), s.workers[w].batch[0])
      <==> Settled(script).None? || !script.stored
  {
    var id := s.workers[w].batch[0];
    DeliverIsProtocol(s, w, script);
    OutboxSafety.SkipKeepsOwned(s, w);
    var s' := Run(s, ScriptEvents(w, script));
    forall v | v in s'.workers ensures id !in s'.workers[v].batch {
      assert v != w ==> id in s.workers[w].batch;
    }
  }

  // A whole batch

  function BatchEvents(w: WorkerId, scripts: seq<Script>): seq<Event> {
    if scripts == [] then []
    else
      var n := |scripts| - 1;
      BatchEvents(w, scripts[..n]) + ScriptEvents(w, scripts[n])
  }

  predicate WellScripted(scripts: seq<Script>) {
    forall i :: 0 <= i < |scripts| && scripts[i].check.Recipients? ==> |scripts[i].sends| == |scripts[i].check.to|
  }

  function BatchFacts(batch: seq<RowId>, scripts: seq<Script>): seq<Fact>
    requires |scripts| == |batch| && WellScripted(scripts)
  {
    if batch == [] then []
    else
      var n := |batch| - 1;
      BatchFacts(batch[..n], scripts[..n]) + DeliveryFacts(batch[n], scripts[n])
  }

  /** The worker after the first `n` messages of its batch. */
  function Handled(workers: map<WorkerId, Worker>, w: WorkerId, batch: seq<RowId>, n: nat): map<WorkerId, Worker>
    requires n <= |batch|
  {
    if n == |batch| then workers - {w} else workers[w := Worker(batch[n..], Checking)]
  }

  predicate Scripted(rows: seq<Row>, batch: seq<RowId>, scripts: seq<Script>) {
    && |scripts| == |batch|
    && forall i :: 0 <= i < |batch| ==> batch[i] < |rows| && Fits(rows[batch[i]].channel, scripts[i])
  }

  /** Where the protocol stands after the first `n` messages of the worker's batch. */
  function Drained(s: Sys, w: WorkerId, scripts: seq<Script>, n: nat): Sys
    requires w in s.workers && Scripted(s.rows, s.workers[w].batch, scripts) && n <= |scripts|
  {
    var batch := s.workers[w].batch;
    Sys(SettleAll(s.rows, batch[..n], scripts[..n]), Handled(s.workers, w, batch, n),
        s.history + BatchFacts(batch[..n], scripts[..n]))
  }

  lemma AtMessage(s: Sys, w: WorkerId, scripts: seq<Script>, n: nat)
    requires w in s.workers && Scripted(s.rows, s.workers[w].batch, scripts) && n < |scripts|
    ensures var d, id := Drained(s, w, scripts, n), s.workers[w].batch[n];
      && w in d.workers && d.workers[w] == Worker(s.workers[w].batch[n..], Checking) && d.workers[w].batch[0] == id
      && id < |d.rows| && Fits(d.rows[id].channel, scripts[n])
  {
  }

  lemma DrainRows(s: Sys, w: WorkerId, scripts: seq<Script>, n: nat)
    requires w in s.workers && Scripted(s.rows, s.workers[w].batch, scripts) && n < |scripts|
    ensures Run(Drained(s, w, scripts, n), ScriptEvents(w, scripts[n])).rows
      == SettleAll(s.rows, s.workers[w].batch[..n + 1], scripts[..n + 1])
  {
    AtMessage(s, w, scripts, n);
    DeliverIsProtocol(Drained(s, w, scripts, n), w, scripts[n]);
    OneMoreRow(s.rows, s.workers[w].batch, scripts, n);
  }

  lemma DrainWorkers(s: Sys, w: WorkerId, scripts: seq<Script>, n: nat)
    requires w in s.workers && Scripted(s.rows, s.workers[w].batch, scripts) && n < |scripts|
    ensures Run(Drained(s, w, scripts, n), ScriptEvents(w, scripts[n])).workers
      == Handled(s.workers, w, s.workers[w].batch, n + 1)
  {
    AtMessage(s, w, scripts, n);
    DeliverIsProtocol(Drained(s, w, scripts, n), w, scripts[n]);
    HandledNext(Drained(s, w, scripts, n), s.workers, w, s.workers[w].batch, n);
  }

  lemma DrainHistory(s: Sys, w: WorkerId, scripts: seq<Script>, n: nat)
    requires w in s.workers && Scripted(s.rows, s.workers[w].batch, scripts) && n < |scripts|
    ensures Run(Drained(s, w, scripts, n), ScriptEvents(w, scripts[n])).history
      == s.history + BatchFacts(s.workers[w].batch[..n + 1], scripts[..n + 1])
  {
    var batch := s.workers[w].batch;
    AtMessage(s, w, scripts, n);
    DeliverIsProtocol(Drained(s, w, scripts, n), w, scripts[n]);
    OneMoreFact(batch, scripts, n);
    Regroup(s.history, BatchFacts(batch[..n], scripts[..n]), DeliveryFacts(batch[n], scripts[n]));
  }

  lemma Regroup(a: seq<Fact>, b: seq<Fact>, c: seq<Fact>)
    ensures a + b + c == a + (b + c)
  {
  }

  /** One message further: its row settled, the worker on to the next, its acceptances recorded. */
  lemma DrainNext(s: Sys, w: WorkerId, scripts: seq<Script>, n: nat)
    requires w in s.workers && Scripted(s.rows, s.workers[w].batch, scripts) && n < |scripts|
    ensures Run(Drained(s, w, scripts, n), ScriptEvents(w, scripts[n])) == Drained(s, w, scripts, n + 1)
  {
    DrainRows(s, w, scripts, n);
    DrainWorkers(s, w, scripts, n);
    DrainHistory(s, w, scripts, n);
  }

  lemma OneMoreRow(rows: seq<Row>, batch: seq<RowId>, scripts: seq<Script>, n: nat)
    requires Scripted(rows, batch, scripts) && n < |scripts|
    ensures SettleAll(rows, batch[..n + 1], scripts[..n + 1])
      == Settle(SettleAll(rows, batch[..n], scripts[..n]), batch[n], scripts[n])
  {
    assert batch[..n + 1][..n] == batch[..n] && scripts[..n + 1][..n] == scripts[..n];
  }

  lemma OneMoreFact(batch: seq<RowId>, scripts: seq<Script>, n: nat)
    requires |scripts| == |batch| && WellScripted(scripts) && n < |scripts|
    ensures BatchFacts(batch[..n + 1], scripts[..n + 1])
      == BatchFacts(batch[..n], scripts[..n]) + DeliveryFacts(batch[n], scripts[n])
  {
    assert batch[..n + 1][..n] == batch[..n] && scripts[..n + 1][..n] == scripts[..n];
  }

  /** What DrainOnce does to the table is what the protocol's worker does with the same answers,
    acceptances included, message by message up to wherever it is stopped. */
  lemma {:induction false} DrainIsProtocol(s: Sys, w: WorkerId, scripts: seq<Script>, n: nat)
    requires w in s.workers && s.workers[w].stage == Checking
    requires 0 < |s.workers[w].batch| && Scripted(s.rows, s.workers[w].batch, scripts) && n <= |scripts|
    ensures Run(s, BatchEvents(w, scripts[..n])) == Drained(s, w, scripts, n)
  {
    var batch := s.workers[w].batch;
    if n == 0 {
      assert batch[0..] == batch && s.workers[w := Worker(batch, Checking)] == s.workers;
      assert s.history + [] == s.history;
    } else {
      DrainIsProtocol(s, w, scripts, n - 1);
      assert batch[..n][..n - 1] == batch[..n - 1] && scripts[..n][..n - 1] == scripts[..n - 1];
      OutboxLimits.RunConcat(s, BatchEvents(w, scripts[..n - 1]), ScriptEvents(w, scripts[n - 1]));
      DrainNext(s, w, scripts, n - 1);
    }
  }

  lemma HandledNext(s: Sys, workers: map<WorkerId, Worker>, w: WorkerId, batch: seq<RowId>, n: nat)
    requires n < |batch| && s.workers == Handled(workers, w, batch, n)
    ensures Advance(s, w).workers == Handled(workers, w, batch, n + 1)
  {
    assert batch[n..][1..] == batch[n + 1..];
    assert workers[w := Worker(batch[n..], Checking)] - {w} == workers - {w};
  }
}
