/** Role changes as interleaved transactions (internal/repository/postgres/user_repo.go).

  UpdateRole picks the administrators it can see, waits for each of their rows in id
  order, keeps those that are still administrators once it holds them, locks the target
  and only then decides. A statement that must wait leaves the system unchanged.

  `Config` switches off the row locks, or the re-check of a row after waiting for it. */
module RoleProtocol {
  import opened Tables
  import opened Domain

  type TxId = nat

  datatype Config = Config(locking: bool, recheck: bool)

  datatype User = User(role: Role, category: Option<Category>)

  datatype Request = Request(target: UserId, role: Role, category: Option<Category>)

  datatype Tx =
    | Begun(req: Request)
    | Scanning(req: Request, todo: set<UserId>, locked: set<UserId>)
    | Scanned(req: Request, locked: set<UserId>)
    | TargetRead(req: Request, locked: set<UserId>, current: User)
    | Written(req: Request, locked: set<UserId>, current: User, update: User)

  datatype Sys = Sys(users: map<UserId, User>, txs: map<TxId, Tx>)

  datatype Event = Start(id: TxId, req: Request) | Next(id: TxId) | Abort(id: TxId)

  function Admins(users: map<UserId, User>): set<UserId> {
    set u | u in users && users[u].role == AdminRole
  }

  predicate Locks(tx: Tx, u: UserId) {
    match tx
    case Begun(_) => false
    case Scanning(_, _, locked) => u in locked
    case Scanned(_, locked) => u in locked
    case TargetRead(req, locked, _) => u in locked || u == req.target
    case Written(req, locked, _, _) => u in locked || u == req.target
  }

  predicate Busy(s: Sys, id: TxId, u: UserId) {
    exists t :: t in s.txs && t != id && Locks(s.txs[t], u)
  }

  ghost function Least(ids: set<UserId>): (u: UserId)
    requires ids != {}
    ensures u in ids && forall v :: v in ids ==> u <= v
  {
    var x :| x in ids;
    if ids == {x} then x
    else
      var y := Least(ids - {x});
      assert forall v :: v in ids ==> v == x || v in ids - {x};
      if x < y then x else y
  }

  datatype Verdict = Refuse(error: Error) | NoChange | Change(update: User)

  /** What UpdateRole decides from the row it holds and the number of administrators it locked. */
  function Decide(current: User, req: Request, admins: nat): Verdict {
    if current.role == AdminRole && req.role != AdminRole && admins <= 1 then Refuse(Conflict)
    else if req.category.Some? && req.role != MemberRole then Refuse(InvalidMemberCategory)
    else
      var resolved := if req.category.Some? then req.category else current.category;
      if req.role == MemberRole && resolved.None? then Refuse(Error.NoCategory)
      else if current == User(req.role, resolved) then NoChange
      else Change(User(req.role, resolved))
  }

  ghost function Step(cfg: Config, s: Sys, e: Event): Sys {
    match e
    case Start(id, req) => if id in s.txs then s else s.(txs := s.txs[id := Begun(req)])
    case Abort(id) => s.(txs := s.txs - {id})
    case Next(id) => if id !in s.txs then s else Advance(cfg, s, id)
  }

  ghost function Advance(cfg: Config, s: Sys, id: TxId): Sys
    requires id in s.txs
  {
    match s.txs[id]
    case Begun(req) => s.(txs := s.txs[id := Scanning(req, Admins(s.users), {})])
    case Scanning(req, todo, locked) =>
      if todo == {} then s.(txs := s.txs[id := Scanned(req, locked)])
      else
        var u := Least(todo);
        if cfg.locking && Busy(s, id, u) then s
        else if cfg.recheck && (u !in s.users || s.users[u].role != AdminRole) then
          s.(txs := s.txs[id := Scanning(req, todo - {u}, locked)])
        else s.(txs := s.txs[id := Scanning(req, todo - {u}, locked + {u})])
    case Scanned(req, locked) =>
      if req.target !in s.users then s.(txs := s.txs - {id})
      else if cfg.locking && Busy(s, id, req.target) then s
      else s.(txs := s.txs[id := TargetRead(req, locked, s.users[req.target])])
    case TargetRead(req, locked, current) =>
      (match Decide(current, req, |locked|)
       case Change(update) => s.(txs := s.txs[id := Written(req, locked, current, update)])
       case _ => s.(txs := s.txs - {id}))
    case Written(req, _, _, update) => Sys(s.users[req.target := update], s.txs - {id})
  }

  ghost function Run(cfg: Config, s: Sys, events: seq<Event>): Sys {
    if events == [] then s else Step(cfg, Run(cfg, s, events[..|events| - 1]), events[|events| - 1])
  }

  // Safety

  ghost predicate Exclusive(s: Sys) {
    forall t1, t2, u :: t1 in s.txs && t2 in s.txs && Locks(s.txs[t1], u) && Locks(s.txs[t2], u) ==> t1 == t2
  }

  function LockedAdmins(tx: Tx): set<UserId> {
    if tx.Begun? then {} else tx.locked
  }

  /** What a transaction holds: its locked rows are administrators and its target is as it read it. */
  ghost predicate Holds(users: map<UserId, User>, tx: Tx) {
    && LockedAdmins(tx) <= Admins(users)
    && (tx.TargetRead? || tx.Written? ==> tx.req.target in users && users[tx.req.target] == tx.current)
    && (tx.Written? ==> Decide(tx.current, tx.req, |tx.locked|) == Change(tx.update))
  }

  ghost predicate MembersHaveCategory(users: map<UserId, User>) {
    forall u :: u in users && users[u].role == MemberRole ==> users[u].category.Some?
  }

  ghost predicate RolesSafe(s: Sys) {
    && Admins(s.users) != {} && MembersHaveCategory(s.users)
    && Exclusive(s) && (forall t :: t in s.txs ==> Holds(s.users, s.txs[t]))
  }

  lemma OthersStay(cfg: Config, s: Sys, e: Event)
    ensures forall t :: t != e.id ==>
      (t in Step(cfg, s, e).txs <==> t in s.txs) && (t in s.txs ==> Step(cfg, s, e).txs[t] == s.txs[t])
  {
  }

  lemma StepKeepsExclusive(cfg: Config, s: Sys, e: Event)
    requires cfg.locking && Exclusive(s)
    ensures Exclusive(Step(cfg, s, e))
  {
  }

  /** Two locked administrators leave one when the other is demoted. */
  lemma TwoLockedLeaveOne(users: map<UserId, User>, locked: set<UserId>, target: UserId, update: User)
    requires locked <= Admins(users) && |locked| >= 2
    ensures Admins(users[target := update]) != {}
  {
    var rest := locked - {target};
    assert |rest| >= 1;
    var v :| v in rest;
    assert v in Admins(users[target := update]);
  }

  lemma CommitKeepsAdmin(s: Sys, id: TxId)
    requires RolesSafe(s) && id in s.txs && s.txs[id].Written?
    ensures Admins(s.users[s.txs[id].req.target := s.txs[id].update]) != {}
  {
    var tx := s.txs[id];
    var users' := s.users[tx.req.target := tx.update];
    if tx.update.role == AdminRole {
      assert tx.req.target in Admins(users');
    } else if tx.current.role == AdminRole {
      TwoLockedLeaveOne(s.users, tx.locked, tx.req.target, tx.update);
    } else {
      var v :| v in Admins(s.users);
      assert v in Admins(users');
    }
  }

  lemma StepKeepsHolds(cfg: Config, s: Sys, e: Event, t: TxId)
    requires cfg == Config(true, true) && RolesSafe(s) && t in Step(cfg, s, e).txs
    ensures Holds(Step(cfg, s, e).users, Step(cfg, s, e).txs[t])
  {
    OthersStay(cfg, s, e);
    if t in s.txs {
      assert Holds(s.users, s.txs[t]);
    }
    if e.Next? && e.id in s.txs && e.id != t && s.txs[e.id].Written? {
      var target := s.txs[e.id].req.target;
      assert Locks(s.txs[e.id], target) && !Locks(s.txs[t], target);
      assert Admins(s.users) - {target} <= Admins(Step(cfg, s, e).users);
    }
  }

  lemma StepKeepsRolesSafe(cfg: Config, s: Sys, e: Event)
    requires cfg == Config(true, true) && RolesSafe(s)
    ensures RolesSafe(Step(cfg, s, e))
  {
    StepKeepsExclusive(cfg, s, e);
    if e.Next? && e.id in s.txs && s.txs[e.id].Written? {
      CommitKeepsAdmin(s, e.id);
    }
    forall t | t in Step(cfg, s, e).txs
      ensures Holds(Step(cfg, s, e).users, Step(cfg, s, e).txs[t])
    {
      StepKeepsHolds(cfg, s, e, t);
    }
  }

  ghost predicate FreshStart(s: Sys) {
    s.txs == map[] && Admins(s.users) != {} && MembersHaveCategory(s.users)
  }

  /** Whatever role changes overlap, an administrator and every member's category survive. */
  lemma {:induction false} RolesSafeInEverySchedule(s: Sys, events: seq<Event>)
    requires FreshStart(s)
    ensures RolesSafe(Run(Config(true, true), s, events))
  {
    if events != [] {
      RolesSafeInEverySchedule(s, events[..|events| - 1]);
      StepKeepsRolesSafe(Config(true, true), Run(Config(true, true), s, events[..|events| - 1]), events[|events| - 1]);
    }
  }

  // Both the lock and the re-check are needed

  ghost predicate Reaches(cfg: Config, s: Sys, s': Sys) {
    exists events :: Run(cfg, s, events) == s'
  }

  lemma ReachNext(cfg: Config, s: Sys, s1: Sys, e: Event)
    requires Reaches(cfg, s, s1)
    ensures Reaches(cfg, s, Step(cfg, s1, e))
  {
    var events :| Run(cfg, s, events) == s1;
    assert (events + [e])[..|events|] == events;
    assert Run(cfg, s, events + [e]) == Step(cfg, s1, e);
  }

  const ADMIN := User(AdminRole, None)
  const LIBRARIAN := User(LibrarianRole, None)
  const TWO_ADMINS := Sys(map[0 := ADMIN, 1 := ADMIN], map[])

  function Demote(u: UserId): Request {
    Request(u, LibrarianRole, None)
  }

  lemma StartBoth(cfg: Config)
    ensures Reaches(cfg, TWO_ADMINS, TWO_ADMINS.(txs :=
      map[0 := Scanning(Demote(0), {0, 1}, {}), 1 := Scanning(Demote(1), {0, 1}, {})]))
  {
    assert Run(cfg, TWO_ADMINS, []) == TWO_ADMINS;
    assert Admins(TWO_ADMINS.users) == {0, 1};
    ReachNext(cfg, TWO_ADMINS, TWO_ADMINS, Start(0, Demote(0)));
    var s1 := TWO_ADMINS.(txs := map[0 := Begun(Demote(0))]);
    ReachNext(cfg, TWO_ADMINS, s1, Start(1, Demote(1)));
    var s2 := TWO_ADMINS.(txs := map[0 := Begun(Demote(0)), 1 := Begun(Demote(1))]);
    assert Step(cfg, s1, Start(1, Demote(1))) == s2;
    ReachNext(cfg, TWO_ADMINS, s2, Next(0));
    var s3 := s2.(txs := map[0 := Scanning(Demote(0), {0, 1}, {}), 1 := Begun(Demote(1))]);
    assert Step(cfg, s2, Next(0)) == s3;
    ReachNext(cfg, TWO_ADMINS, s3, Next(1));
  }

  /** Nothing makes transaction `id` wait or drop a row while it demotes `u`. */
  ghost predicate ClearRun(cfg: Config, s: Sys, id: TxId, u: UserId) {
    && u < 2 && s.users.Keys == {0, 1} && s.users[u] == ADMIN
    && (cfg.recheck ==> s.users[0] == ADMIN && s.users[1] == ADMIN)
    && (cfg.locking ==> forall v :: !Busy(s, id, v))
  }

  lemma StillClear(cfg: Config, s: Sys, id: TxId, u: UserId, tx: Tx)
    requires ClearRun(cfg, s, id, u)
    ensures ClearRun(cfg, s.(txs := s.txs[id := tx]), id, u)
  {
    var s' := s.(txs := s.txs[id := tx]);
    forall v | Busy(s', id, v)
      ensures Busy(s, id, v)
    {
      var t :| t in s'.txs && t != id && Locks(s'.txs[t], v);
      assert t in s.txs && Locks(s.txs[t], v);
    }
  }

  /** One statement of a demotion that nothing delays. */
  lemma ReachAfter(cfg: Config, s: Sys, id: TxId, u: UserId, tx: Tx, tx': Tx)
    requires ClearRun(cfg, s, id, u)
    requires Reaches(cfg, TWO_ADMINS, s.(txs := s.txs[id := tx]))
    requires Advance(cfg, s.(txs := s.txs[id := tx]), id) == s.(txs := s.txs[id := tx][id := tx'])
    ensures Reaches(cfg, TWO_ADMINS, s.(txs := s.txs[id := tx']))
  {
    ReachNext(cfg, TWO_ADMINS, s.(txs := s.txs[id := tx]), Next(id));
    assert s.txs[id := tx][id := tx'] == s.txs[id := tx'];
  }

  lemma ReachScanned(cfg: Config, s: Sys, id: TxId, u: UserId)
    requires Reaches(cfg, TWO_ADMINS, s) && ClearRun(cfg, s, id, u)
    requires id in s.txs && s.txs[id] == Scanning(Demote(u), {0, 1}, {})
    ensures Reaches(cfg, TWO_ADMINS, s.(txs := s.txs[id := Scanned(Demote(u), {0, 1})]))
  {
    assert {0, 1} - {0} == {1} && {} + {0} == {0} && {1} - {1} == {} && {0} + {1} == {0, 1};
    var t0, t1, t2 := s.txs[id], Scanning(Demote(u), {1}, {0}), Scanning(Demote(u), {}, {0, 1});
    assert s.(txs := s.txs[id := t0]) == s;
    ReachAfter(cfg, s, id, u, t0, t1);
    StillClear(cfg, s, id, u, t1);
    ReachAfter(cfg, s, id, u, t1, t2);
    ReachAfter(cfg, s, id, u, t2, Scanned(Demote(u), {0, 1}));
  }

  lemma ReachWritten(cfg: Config, s: Sys, id: TxId, u: UserId)
    requires Reaches(cfg, TWO_ADMINS, s) && ClearRun(cfg, s, id, u)
    requires id in s.txs && s.txs[id] == Scanning(Demote(u), {0, 1}, {})
    ensures Reaches(cfg, TWO_ADMINS, s.(txs := s.txs[id := Written(Demote(u), {0, 1}, ADMIN, LIBRARIAN)]))
  {
    ReachScanned(cfg, s, id, u);
    var t3, t4 := Scanned(Demote(u), {0, 1}), TargetRead(Demote(u), {0, 1}, ADMIN);
    StillClear(cfg, s, id, u, t3);
    ReachAfter(cfg, s, id, u, t3, t4);
    assert |{0, 1}| == 2;
    assert Decide(ADMIN, Demote(u), 2) == Change(LIBRARIAN);
    ReachAfter(cfg, s, id, u, t4, Written(Demote(u), {0, 1}, ADMIN, LIBRARIAN));
  }

  const DEMOTION0 := Written(Demote(0), {0, 1}, ADMIN, LIBRARIAN)
  const DEMOTION1 := Written(Demote(1), {0, 1}, ADMIN, LIBRARIAN)
  const SCANNING1 := Scanning(Demote(1), {0, 1}, {})
  const ONE_LEFT: map<UserId, User> := map[0 := LIBRARIAN, 1 := ADMIN]

  lemma ReachHalf(cfg: Config)
    ensures Reaches(cfg, TWO_ADMINS, TWO_ADMINS.(txs := map[0 := DEMOTION0, 1 := SCANNING1]))
  {
    var both := TWO_ADMINS.(txs := map[0 := Scanning(Demote(0), {0, 1}, {}), 1 := SCANNING1]);
    StartBoth(cfg);
    ReachWritten(cfg, both, 0, 0);
    assert both.txs[0 := DEMOTION0] == map[0 := DEMOTION0, 1 := SCANNING1];
  }

  /** With the locks but no second look: the second goes on once the first has committed. */
  lemma ReachOneLeftLocked(cfg: Config)
    requires cfg.locking && !cfg.recheck
    ensures Reaches(cfg, TWO_ADMINS, Sys(ONE_LEFT, map[1 := DEMOTION1]))
  {
    var half, done := TWO_ADMINS.(txs := map[0 := DEMOTION0, 1 := SCANNING1]), Sys(ONE_LEFT, map[1 := SCANNING1]);
    ReachHalf(cfg);
    ReachNext(cfg, TWO_ADMINS, half, Next(0));
    assert Step(cfg, half, Next(0)) == done;
    ReachWritten(cfg, done, 1, 1);
    assert done.txs[1 := DEMOTION1] == map[1 := DEMOTION1];
  }

  /** Without the locks: both decide before either commits. */
  lemma ReachOneLeftUnlocked(cfg: Config)
    requires !cfg.locking
    ensures Reaches(cfg, TWO_ADMINS, Sys(ONE_LEFT, map[1 := DEMOTION1]))
  {
    var half := TWO_ADMINS.(txs := map[0 := DEMOTION0, 1 := SCANNING1]);
    var ready := TWO_ADMINS.(txs := map[0 := DEMOTION0, 1 := DEMOTION1]);
    ReachHalf(cfg);
    ReachWritten(cfg, half, 1, 1);
    assert half.txs[1 := DEMOTION1] == ready.txs;
    ReachNext(cfg, TWO_ADMINS, ready, Next(0));
    assert Step(cfg, ready, Next(0)) == Sys(ONE_LEFT, map[1 := DEMOTION1]);
  }

  /** Two demotions, scanned before either commits, remove both administrators. */
  lemma NobodyLeft(cfg: Config)
    requires cfg != Config(true, true)
    ensures Reaches(cfg, TWO_ADMINS, Sys(map[0 := LIBRARIAN, 1 := LIBRARIAN], map[]))
  {
    if cfg.locking {
      ReachOneLeftLocked(cfg);
    } else {
      ReachOneLeftUnlocked(cfg);
    }
    var one := Sys(ONE_LEFT, map[1 := DEMOTION1]);
    ReachNext(cfg, TWO_ADMINS, one, Next(1));
    assert Step(cfg, one, Next(1)) == Sys(map[0 := LIBRARIAN, 1 := LIBRARIAN], map[]);
  }

  ghost predicate AdminAlwaysSurvives(cfg: Config) {
    forall s, events :: FreshStart(s) ==> Admins(Run(cfg, s, events).users) != {}
  }

  /** The last administrator survives every schedule exactly when administrators' rows are both
    locked and looked at again once the lock is granted. */
  lemma AdminSurvivesIffLockedAndRechecked(cfg: Config)
    ensures AdminAlwaysSurvives(cfg) <==> cfg == Config(true, true)
  {
    if cfg == Config(true, true) {
      forall s, events | FreshStart(s) { RolesSafeInEverySchedule(s, events); }
    } else {
      NobodyLeft(cfg);
      var events :| Run(cfg, TWO_ADMINS, events) == Sys(map[0 := LIBRARIAN, 1 := LIBRARIAN], map[]);
      assert 0 in Admins(TWO_ADMINS.users);
      assert FreshStart(TWO_ADMINS);
      assert Admins(Run(cfg, TWO_ADMINS, events).users) == {};
    }
  }
}
