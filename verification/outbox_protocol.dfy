/** The notification outbox: any number of workers claiming, sending, marking and crashing
  (internal/repository/postgres/outbox_repo.go and internal/queue/worker.go).

  An email has one recipient, its mailbox; a push has one per registered device. `history`
  is not in the database: it records every claim and every acceptance by a provider, told to
  the worker or lost on the way back. */
module OutboxProtocol {
  import opened Tables

  type RowId = nat
  type WorkerId = nat

  datatype Channel = Email | Push
  datatype Status = Pending | Claimed | Sent | Failed | Superseded
  datatype Row = Row(channel: Channel, status: Status, attempts: nat)
  datatype Recipient = Mailbox | Device(token: nat)

  datatype Fact = Handed(row: RowId) | Accepted(row: RowId, to: Recipient) | Lost(row: RowId, to: Recipient)

  datatype Mark = AsSent | AsFailed | AsSuperseded

  /** Where a worker is with the first message of its batch. */
  datatype Stage =
    | Checking
    | Sending(todo: seq<Recipient>, delivered: nat, transient: bool)
    | Marking(mark: Mark)

  datatype Worker = Worker(batch: seq<RowId>, stage: Stage)

  datatype Sys = Sys(rows: seq<Row>, workers: map<WorkerId, Worker>, history: seq<Fact>)

  /** What the world answers to the worker's next call. */
  datatype Answer =
    | CheckFailed | NoLongerRelevant | NoSender | Undeliverable | NoTokenList
    | Recipients(to: seq<Recipient>)
    | Acceptance | TransientError | PermanentError
    | LostAcceptance                          // accepted, but the worker was told it failed
    | MarkAnswer(applied: bool)

  datatype Event =
    | Queue(channel: Channel)
    | Claim(worker: WorkerId, ids: seq<RowId>)
    | Act(worker: WorkerId, answer: Answer)
    | Crash(worker: WorkerId)

  const BATCH := 20
  const MAX_ATTEMPTS := 5

  predicate Claimable(row: Row) {
    row.status == Pending && row.attempts < MAX_ATTEMPTS
  }

  predicate CanClaim(rows: seq<Row>, ids: seq<RowId>) {
    && 0 < |ids| <= BATCH && Distinct(ids)
    && forall i :: 0 <= i < |ids| ==> ids[i] < |rows| && Claimable(rows[ids[i]])
  }

  function ClaimAll(rows: seq<Row>, ids: seq<RowId>): (r: seq<Row>)
    ensures |r| == |rows|
    ensures forall i :: 0 <= i < |rows| ==>
      r[i] == if i in ids then Row(rows[i].channel, Claimed, rows[i].attempts + 1) else rows[i]
  {
    seq(|rows|, i requires 0 <= i < |rows| =>
      if i in ids then Row(rows[i].channel, Claimed, rows[i].attempts + 1) else rows[i])
  }

  function MarkRow(row: Row, mark: Mark): Row {
    match mark
    case AsSent => row.(status := Sent)
    case AsSuperseded => row.(status := Superseded)
    case AsFailed =>
      Row(row.channel, if row.attempts + 1 >= MAX_ATTEMPTS then Failed else Pending, row.attempts + 1)
  }

  function Handoffs(ids: seq<RowId>): seq<Fact> {
    seq(|ids|, i requires 0 <= i < |ids| => Handed(ids[i]))
  }

  function Step(s: Sys, e: Event): Sys {
    match e
    case Queue(channel) => s.(rows := s.rows + [Row(channel, Pending, 0)])
    case Claim(w, ids) =>
      if w in s.workers || !CanClaim(s.rows, ids) then s
      else Sys(ClaimAll(s.rows, ids), s.workers[w := Worker(ids, Checking)], s.history + Handoffs(ids))
    case Crash(w) => s.(workers := s.workers - {w})
    case Act(w, answer) =>
      if w !in s.workers || |s.workers[w].batch| == 0 || s.workers[w].batch[0] >= |s.rows| then s
      else ActStep(s, w, s.workers[w].batch[0], answer)
  }

  /** On to the next message, or back to waiting for the next tick. */
  function Advance(s: Sys, w: WorkerId): Sys
    requires w in s.workers && |s.workers[w].batch| > 0
  {
    var rest := s.workers[w].batch[1..];
    if rest == [] then s.(workers := s.workers - {w})
    else s.(workers := s.workers[w := Worker(rest, Checking)])
  }

  function Enter(s: Sys, w: WorkerId, stage: Stage): Sys
    requires w in s.workers
  {
    s.(workers := s.workers[w := s.workers[w].(stage := stage)])
  }

  predicate Addressed(channel: Channel, to: seq<Recipient>) {
    if channel == Email then to == [Mailbox]
    else Distinct(to) && forall i :: 0 <= i < |to| ==> to[i].Device?
  }

  function ActStep(s: Sys, w: WorkerId, id: RowId, answer: Answer): Sys
    requires w in s.workers && |s.workers[w].batch| > 0 && id < |s.rows|
  {
    match s.workers[w].stage
    case Checking =>
      (match answer
       case CheckFailed => Advance(s, w)
       case NoSender => Advance(s, w)
       case NoTokenList => if s.rows[id].channel == Push then Advance(s, w) else s
       case NoLongerRelevant => Enter(s, w, Marking(AsSuperseded))
       case Undeliverable => if s.rows[id].channel == Email then Enter(s, w, Marking(AsSuperseded)) else s
       case Recipients(to) => if Addressed(s.rows[id].channel, to) then Enter(s, w, NextSend(to, 0, false)) else s
       case _ => s)
    case Sending(todo, delivered, transient) =>
      if todo == [] then s
      else
        (match answer
         case Acceptance =>
           Enter(s, w, NextSend(todo[1..], delivered + 1, transient)).(history := s.history + [Accepted(id, todo[0])])
         case LostAcceptance =>
           Enter(s, w, NextSend(todo[1..], delivered, true)).(history := s.history + [Lost(id, todo[0])])
         case TransientError => Enter(s, w, NextSend(todo[1..], delivered, true))
         case PermanentError => Enter(s, w, NextSend(todo[1..], delivered, transient))
         case _ => s)
    case Marking(mark) =>
      (match answer
       case MarkAnswer(applied) =>
         Advance(if applied then s.(rows := s.rows[id := MarkRow(s.rows[id], mark)]) else s, w)
       case _ => s)
  }

  /** One delivered recipient settles the message; only when none was reached does an error count. */
  function Verdict(delivered: nat, transient: bool): Mark {
    if delivered > 0 then AsSent else if transient then AsFailed else AsSuperseded
  }

  function NextSend(todo: seq<Recipient>, delivered: nat, transient: bool): Stage {
    if todo == [] then Marking(Verdict(delivered, transient)) else Sending(todo, delivered, transient)
  }

  const IDLE := Sys([], map[], [])

  function Run(s: Sys, events: seq<Event>): Sys {
    if events == [] then s else Step(Run(s, events[..|events| - 1]), events[|events| - 1])
  }

  function HandedOver(id: RowId): Fact -> bool {
    (f: Fact) => f == Handed(id)
  }

  /** The provider took it, whatever the worker was told. */
  function AcceptedBy(id: RowId, to: Recipient): Fact -> bool {
    (f: Fact) => f == Accepted(id, to) || f == Lost(id, to)
  }

  function ToldOf(id: RowId, to: Recipient): Fact -> bool {
    (f: Fact) => f == Accepted(id, to)
  }

  function LostOn(id: RowId, to: Recipient): Fact -> bool {
    (f: Fact) => f == Lost(id, to)
  }
}
