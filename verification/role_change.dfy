/** One role change from start to finish, and the protocol's transaction when it runs alone
  (internal/repository/postgres/user_repo.go). */
module RoleChange {
  import opened Tables
  import opened Domain
  import opened RoleProtocol

  datatype Reply = Done | Refused(error: Error)

  datatype AuditLine = RoleChanged(user: UserId, before: User, after: User)

  /** What UpdateRole leaves of the users, and its answer. */
  function Outcome(users: map<UserId, User>, req: Request): (map<UserId, User>, Reply) {
    if req.target !in users then (users, Refused(NotFound))
    else match Decide(users[req.target], req, |Admins(users)|)
      case Refuse(error) => (users, Refused(error))
      case NoChange => (users, Done)
      case Change(update) => (users[req.target := update], Done)
  }

  /** The request carried out or refused, in the columns: done, the target has the role asked for and
    the category asked for, or its own if none was; refused, nobody has changed, and the refusal
    names the first thing wrong: no such user, the last administrator stepping down, a category for
    somebody who is no member, or a member without one. */
  ghost predicate Answered(before: map<UserId, User>, req: Request, after: map<UserId, User>, reply: Reply) {
    var admins := set u | u in before && before[u].role == AdminRole;
    var known := req.target in before;
    var stepsDown := known && before[req.target].role == AdminRole && req.role != AdminRole && |admins| <= 1;
    var misfit := req.category.Some? && req.role != MemberRole;
    var bare := known && req.role == MemberRole && req.category.None? && before[req.target].category.None?;
    && (reply == Refused(NotFound) <==> !known)
    && (reply == Refused(Conflict) <==> stepsDown)
    && (reply == Refused(InvalidMemberCategory) <==> known && !stepsDown && misfit)
    && (reply == Refused(Error.NoCategory) <==> known && !stepsDown && !misfit && bare)
    && (reply == Done <==> known && !stepsDown && !misfit && !bare)
    && (reply.Refused? ==> after == before)
    && (reply == Done ==>
          var category := if req.category.Some? then req.category else before[req.target].category;
          after == before[req.target := User(req.role, category)])
  }

  lemma OutcomeAnswers(users: map<UserId, User>, req: Request)
    ensures Answered(users, req, Outcome(users, req).0, Outcome(users, req).1)
  {
    var admins := set u | u in users && users[u].role == AdminRole;
    assert Admins(users) == admins;
  }

  class Roll {
    var users: map<UserId, User>
    var audit: seq<AuditLine>

    ghost predicate Valid()
      reads this
    {
      Admins(users) != {} && MembersHaveCategory(users)
    }

    /** Counts the administrators' rows, in whatever order they come. */
    method CountAdmins() returns (count: nat)
      ensures count == |Admins(users)|
    {
      count := 0;
      var rows := Admins(users);
      while rows != {}
        invariant count + |rows| == |Admins(users)|
        decreases rows
      {
        var u :| u in rows;
        rows := rows - {u};
        count := count + 1;
      }
    }

    method UpdateRole(target: UserId, role: Role, category: Option<Category>) returns (reply: Reply)
      modifies this
      ensures (users, reply) == Outcome(old(users), Request(target, role, category))
      ensures Answered(old(users), Request(target, role, category), users, reply)
      ensures old(Valid()) ==> Valid()
      ensures audit == if users == old(users) then old(audit)
                       else old(audit) + [RoleChanged(target, old(users)[target], users[target])]
    {
      OutcomeAnswers(users, Request(target, role, category));
      if Valid() {
        OutcomeKeepsAdmin(users, Request(target, role, category));
      }
      var admins := CountAdmins();
      if target !in users {
        return Refused(NotFound);
      }
      var current := users[target];
      if current.role == AdminRole && role != AdminRole && admins <= 1 {
        return Refused(Conflict);
      }
      var resolved := current.category;
      if category.Some? {
        if role != MemberRole {
          return Refused(InvalidMemberCategory);
        }
        resolved := category;
      }
      if role == MemberRole && resolved.None? {
        return Refused(Error.NoCategory);
      }
      if current.role == role && current.category == resolved {
        return Done;
      }
      users := users[target := User(role, resolved)];
      audit := audit + [RoleChanged(target, current, users[target])];
      assert users[target] != current;
      return Done;
    }
  }

  /** A role change keeps an administrator and every member's category. */
  lemma OutcomeKeepsAdmin(users: map<UserId, User>, req: Request)
    requires Admins(users) != {} && MembersHaveCategory(users)
    ensures Admins(Outcome(users, req).0) != {} && MembersHaveCategory(Outcome(users, req).0)
  {
    var users' := Outcome(users, req).0;
    if users' != users {
      if users'[req.target].role == AdminRole {
        assert req.target in Admins(users');
      } else if users[req.target].role == AdminRole {
        TwoLockedLeaveOne(users, Admins(users), req.target, users'[req.target]);
      } else {
        var v :| v in Admins(users);
        assert v in Admins(users');
      }
    }
  }

  // The same transaction, statement by statement

  const GUARDED := Config(true, true)

  ghost function Alone(s: Sys, id: TxId, steps: nat): Sys
    decreases steps
  {
    if steps == 0 then s else Alone(Step(GUARDED, s, Next(id)), id, steps - 1)
  }

  function Solo(users: map<UserId, User>, id: TxId, tx: Tx): Sys {
    Sys(users, map[id := tx])
  }

  /** Nothing makes it wait: it locks every administrator it saw. */
  lemma {:induction false} ScansAll(users: map<UserId, User>, id: TxId, req: Request, todo: set<UserId>,
                                    locked: set<UserId>, n: nat)
    requires todo <= Admins(users)
    ensures Alone(Solo(users, id, Scanning(req, todo, locked)), id, |todo| + 1 + n)
      == Alone(Solo(users, id, Scanned(req, locked + todo)), id, n)
    decreases |todo|
  {
    var s := Solo(users, id, Scanning(req, todo, locked));
    if todo == {} {
      assert locked + todo == locked;
      assert Step(GUARDED, s, Next(id)) == Solo(users, id, Scanned(req, locked));
    } else {
      var u := Least(todo);
      assert u in Admins(users) && !Busy(s, id, u);
      assert Step(GUARDED, s, Next(id)) == Solo(users, id, Scanning(req, todo - {u}, locked + {u}));
      assert |todo - {u}| == |todo| - 1;
      ScansAll(users, id, req, todo - {u}, locked + {u}, n);
      assert locked + {u} + (todo - {u}) == locked + todo;
    }
  }

  lemma DecidesAlone(users: map<UserId, User>, id: TxId, req: Request)
    ensures Alone(Solo(users, id, Scanned(req, Admins(users))), id, 3) == Sys(Outcome(users, req).0, map[])
  {
    var s := Solo(users, id, Scanned(req, Admins(users)));
    assert !Busy(s, id, req.target);
    assert forall tx :: Solo(users, id, tx).txs - {id} == map[];
  }

  /** A role change that runs alone does to the users exactly what UpdateRole does. */
  lemma AloneIsUpdateRole(users: map<UserId, User>, id: TxId, req: Request)
    ensures Alone(Solo(users, id, Begun(req)), id, |Admins(users)| + 5) == Sys(Outcome(users, req).0, map[])
  {
    var admins := Admins(users);
    var s := Solo(users, id, Begun(req));
    assert Step(GUARDED, s, Next(id)) == Solo(users, id, Scanning(req, admins, {}));
    ScansAll(users, id, req, admins, {}, 3);
    assert {} + admins == admins;
    DecidesAlone(users, id, req);
  }
}
