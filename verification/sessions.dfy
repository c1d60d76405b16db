/** Refresh-token rotation (internal/repository/postgres/token_repo.go, internal/service/auth_service.go).

  Every repository call here is one SQL statement, so a run is a sequence of statements in
  commit order. A refresh is two of them, consume then save, with anything in between.
  Tokens are opaque: a token's id stands for its hash. */
module Sessions {
  import opened Tables

  type UserId = nat
  type TokenId = nat
  type RefreshId = nat

  datatype Token = Token(user: UserId, created: int, expires: int, revoked: bool)

  /** A refresh that has consumed its token and not yet saved the next one. */
  datatype Refresh = Refresh(user: UserId, open: bool)

  /** `logins` and `consumed` are histories, not tables. */
  datatype State = State(
    tokens: seq<Token>,
    refreshes: seq<Refresh>,
    stamps: map<UserId, int>,
    logins: seq<UserId>,
    consumed: seq<TokenId>)

  datatype Call =
    | SaveLogin(user: UserId, ttl: int)
    | Consume(token: TokenId)
    | SaveRefreshed(refresh: RefreshId, ttl: int)
    | Abandon(refresh: RefreshId)
    | Logout(token: TokenId)
    | Stamp(user: UserId)
    | RevokeAll(user: UserId)

  datatype Event = Event(at: int, call: Call)

  const NOTHING := State([], [], map[], [], [])

  /** An account that was never stamped voids no token. */
  predicate Stale(s: State, t: Token) {
    t.user in s.stamps && t.created < s.stamps[t.user]
  }

  predicate Consumable(s: State, token: TokenId, at: int) {
    && token < |s.tokens| && !s.tokens[token].revoked
    && s.tokens[token].expires > at && !Stale(s, s.tokens[token])
  }

  function Revoke(tokens: seq<Token>, token: TokenId): seq<Token> {
    if token < |tokens| then tokens[token := tokens[token].(revoked := true)] else tokens
  }

  function RevokeOf(tokens: seq<Token>, user: UserId): (r: seq<Token>)
    ensures |r| == |tokens|
    ensures forall i :: 0 <= i < |tokens| ==>
      r[i] == if tokens[i].user == user then tokens[i].(revoked := true) else tokens[i]
  {
    seq(|tokens|, i requires 0 <= i < |tokens| =>
      if tokens[i].user == user then tokens[i].(revoked := true) else tokens[i])
  }

  function Close(refreshes: seq<Refresh>, id: RefreshId): seq<Refresh> {
    if id < |refreshes| then refreshes[id := refreshes[id].(open := false)] else refreshes
  }

  function Step(s: State, e: Event): State {
    match e.call
    case SaveLogin(user, ttl) =>
      s.(tokens := s.tokens + [Token(user, e.at, e.at + ttl, false)], logins := s.logins + [user])
    case Consume(token) =>
      if Consumable(s, token, e.at) then
        s.(tokens := Revoke(s.tokens, token), refreshes := s.refreshes + [Refresh(s.tokens[token].user, true)],
           consumed := s.consumed + [token])
      else s
    case SaveRefreshed(id, ttl) =>
      if id < |s.refreshes| && s.refreshes[id].open then
        s.(tokens := s.tokens + [Token(s.refreshes[id].user, e.at, e.at + ttl, false)],
           refreshes := Close(s.refreshes, id))
      else s
    case Abandon(id) => s.(refreshes := Close(s.refreshes, id))
    case Logout(token) => s.(tokens := Revoke(s.tokens, token))
    case Stamp(user) => s.(stamps := s.stamps[user := e.at])
    case RevokeAll(user) => s.(tokens := RevokeOf(s.tokens, user))
  }

  function Run(s: State, events: seq<Event>): State {
    if events == [] then s else Step(Run(s, events[..|events| - 1]), events[|events| - 1])
  }

  function After(events: seq<Event>, k: nat): State
    requires k <= |events|
  {
    Run(NOTHING, events[..k])
  }

  lemma AfterStep(events: seq<Event>, k: nat)
    requires k < |events|
    ensures After(events, k + 1) == Step(After(events, k), events[k])
  {
    assert events[..k + 1][..k] == events[..k];
  }

  // Conservation

  function LiveOf(u: UserId): Token -> bool {
    (t: Token) => t.user == u && !t.revoked
  }

  function InFlightOf(u: UserId): Refresh -> bool {
    (r: Refresh) => r.user == u && r.open
  }

  function LoginOf(u: UserId): UserId -> bool {
    (x: UserId) => x == u
  }

  /** Sessions the user has, or is about to have, against the logins that could explain them. */
  function Unexplained(s: State, u: UserId): int {
    CountIf(s.tokens, LiveOf(u)) + CountIf(s.refreshes, InFlightOf(u)) - CountIf(s.logins, LoginOf(u))
  }

  lemma StepExplains(s: State, e: Event, u: UserId)
    ensures Unexplained(Step(s, e), u) <= Unexplained(s, u)
  {
    match e.call
    case SaveLogin(user, ttl) =>
      CountAppend(s.tokens, Token(user, e.at, e.at + ttl, false), LiveOf(u));
      CountAppend(s.logins, user, LoginOf(u));
    case Consume(token) =>
      if Consumable(s, token, e.at) {
        CountUpdate(s.tokens, token, s.tokens[token].(revoked := true), LiveOf(u));
        CountAppend(s.refreshes, Refresh(s.tokens[token].user, true), InFlightOf(u));
      }
    case SaveRefreshed(id, ttl) =>
      if id < |s.refreshes| && s.refreshes[id].open {
        CountAppend(s.tokens, Token(s.refreshes[id].user, e.at, e.at + ttl, false), LiveOf(u));
        CountUpdate(s.refreshes, id, s.refreshes[id].(open := false), InFlightOf(u));
      }
    case Abandon(id) => CountShrinks(s.refreshes, Close(s.refreshes, id), InFlightOf(u));
    case Logout(token) => CountShrinks(s.tokens, Revoke(s.tokens, token), LiveOf(u));
    case Stamp(_) =>
    case RevokeAll(user) => CountShrinks(s.tokens, RevokeOf(s.tokens, user), LiveOf(u));
  }

  /** Along any run, sessions are never created except by logging in. */
  lemma {:induction false} SessionsConserved(events: seq<Event>, i: nat, j: nat, u: UserId)
    requires i <= j <= |events|
    ensures Unexplained(After(events, j), u) <= Unexplained(After(events, i), u)
    decreases j - i
  {
    if i < j {
      SessionsConserved(events, i, j - 1, u);
      AfterStep(events, j - 1);
      StepExplains(After(events, j - 1), events[j - 1], u);
    }
  }

  /** A user's live refresh tokens, refreshes under way included, never outnumber their logins. */
  lemma LiveTokensWithinLogins(events: seq<Event>, u: UserId)
    ensures var s := Run(NOTHING, events);
      CountIf(s.tokens, LiveOf(u)) + CountIf(s.refreshes, InFlightOf(u)) <= CountIf(s.logins, LoginOf(u))
  {
    SessionsConserved(events, 0, |events|, u);
    assert events[..|events|] == events;
    CountZero(NOTHING.tokens, LiveOf(u));
    CountZero(NOTHING.refreshes, InFlightOf(u));
    CountZero(NOTHING.logins, LoginOf(u));
  }

  /** After a password change has revoked the user's tokens, what is live later was logged in
    since, or saved by a refresh that was already between its two statements. */
  lemma SessionsAfterPasswordChange(events: seq<Event>, k: nat, j: nat, u: UserId)
    requires k < j <= |events| && events[k].call == RevokeAll(u)
    ensures CountIf(After(events, j).tokens, LiveOf(u))
      <= CountIf(After(events, k).refreshes, InFlightOf(u))
         + CountIf(After(events, j).logins, LoginOf(u)) - CountIf(After(events, k).logins, LoginOf(u))
  {
    AfterStep(events, k);
    SessionsConserved(events, k + 1, j, u);
    CountZero(After(events, k + 1).tokens, LiveOf(u));
  }

  // Which sessions survive a password change

  predicate LogsIn(e: Event, u: UserId) {
    e.call.SaveLogin? && e.call.user == u
  }

  predicate NoLogin(events: seq<Event>, u: UserId) {
    forall i :: 0 <= i < |events| ==> !LogsIn(events[i], u)
  }

  lemma {:induction false} RunExplains(s: State, events: seq<Event>, u: UserId)
    requires NoLogin(events, u)
    ensures Unexplained(Run(s, events), u) <= Unexplained(s, u)
    ensures CountIf(Run(s, events).logins, LoginOf(u)) == CountIf(s.logins, LoginOf(u))
  {
    if events != [] {
      var front, e := events[..|events| - 1], events[|events| - 1];
      RunExplains(s, front, u);
      StepExplains(Run(s, front), e, u);
      if e.call.SaveLogin? {
        CountAppend(Run(s, front).logins, e.call.user, LoginOf(u));
      }
    }
  }

  /** However the run goes on, without a new login the user has no live token. */
  ghost predicate SignedOutForGood(s: State, u: UserId) {
    forall events :: NoLogin(events, u) ==> CountIf(Run(s, events).tokens, LiveOf(u)) == 0
  }

  lemma InFlightSavesOne(s: State, u: UserId)
    requires CountIf(s.refreshes, InFlightOf(u)) > 0
    ensures !SignedOutForGood(s, u)
  {
    CountZero(s.refreshes, InFlightOf(u));
    var id :| 0 <= id < |s.refreshes| && InFlightOf(u)(s.refreshes[id]);
    var save := Event(0, SaveRefreshed(id, 1));
    assert Run(s, []) == s && [save][..0] == [];
    CountAppend(s.tokens, Token(u, 0, 1, false), LiveOf(u));
    assert NoLogin([save], u) && CountIf(Run(s, [save]).tokens, LiveOf(u)) > 0;
  }

  /** From any state, revoking a user's tokens signs them out for good exactly when no refresh
    of theirs is between its two statements. */
  lemma SignedOutIffNothingInFlight(s: State, u: UserId, at: int)
    ensures SignedOutForGood(Step(s, Event(at, RevokeAll(u))), u) <==> CountIf(s.refreshes, InFlightOf(u)) == 0
  {
    var s' := Step(s, Event(at, RevokeAll(u)));
    CountZero(s'.tokens, LiveOf(u));
    if CountIf(s.refreshes, InFlightOf(u)) == 0 {
      forall events | NoLogin(events, u) ensures CountIf(Run(s', events).tokens, LiveOf(u)) == 0 {
        RunExplains(s', events, u);
      }
    } else {
      InFlightSavesOne(s', u);
    }
  }

  /** A refresh that straddles a password change: the token it saves is live, and not stale. */
  function Straddle(u: UserId, ttl: int): seq<Event> {
    [Event(0, SaveLogin(u, ttl)), Event(1, Consume(0)), Event(2, Stamp(u)), Event(2, RevokeAll(u)),
     Event(3, SaveRefreshed(0, ttl))]
  }

  lemma StraddlePrefixes(u: UserId, ttl: int)
    ensures forall k :: 0 < k <= 5 ==> Straddle(u, ttl)[..k][..k - 1] == Straddle(u, ttl)[..k - 1]
  {
  }

  lemma SessionSurvivesPasswordChange(u: UserId, ttl: int)
    requires ttl > 1
    ensures var s := Run(NOTHING, Straddle(u, ttl));
      && s.tokens == [Token(u, 0, ttl, true), Token(u, 3, 3 + ttl, false)]
      && NoLogin(Straddle(u, ttl)[3..], u) && Consumable(s, 1, 3)
  {
    var e := Straddle(u, ttl);
    StraddlePrefixes(u, ttl);
    assert e[..5] == e && e[..0] == [];
    var s1 := State([Token(u, 0, ttl, false)], [], map[], [u], []);
    var s2 := State([Token(u, 0, ttl, true)], [Refresh(u, true)], map[], [u], [0]);
    assert Run(NOTHING, e[..1]) == s1;
    assert Run(NOTHING, e[..2]) == s2;
    assert Run(NOTHING, e[..3]) == s2.(stamps := map[u := 2]);
    assert Run(NOTHING, e[..4]) == s2.(stamps := map[u := 2]);
  }

  // Single use

  function UseOf(t: TokenId): TokenId -> bool {
    (x: TokenId) => x == t
  }

  ghost predicate SpentOnce(s: State) {
    forall t: TokenId ::
      && CountIf(s.consumed, UseOf(t)) <= 1
      && (CountIf(s.consumed, UseOf(t)) == 1 ==> t < |s.tokens| && s.tokens[t].revoked)
  }

  lemma StepKeepsSpentOnce(s: State, e: Event)
    requires SpentOnce(s)
    ensures SpentOnce(Step(s, e))
  {
    var s' := Step(s, e);
    forall t: TokenId
      ensures CountIf(s'.consumed, UseOf(t)) <= 1
      ensures CountIf(s'.consumed, UseOf(t)) == 1 ==> t < |s'.tokens| && s'.tokens[t].revoked
    {
      assert CountIf(s.consumed, UseOf(t)) <= 1;
      if s'.consumed != s.consumed {
        CountAppend(s.consumed, e.call.token, UseOf(t));
      }
    }
  }

  /** No token is ever consumed twice. */
  lemma {:induction false} ConsumedAtMostOnce(events: seq<Event>)
    ensures SpentOnce(Run(NOTHING, events))
  {
    if events == [] {
      forall t: TokenId { CountZero(NOTHING.consumed, UseOf(t)); }
    } else {
      ConsumedAtMostOnce(events[..|events| - 1]);
      StepKeepsSpentOnce(Run(NOTHING, events[..|events| - 1]), events[|events| - 1]);
    }
  }

  // The stamp

  predicate ClockRuns(events: seq<Event>) {
    forall i, j :: 0 <= i <= j < |events| ==> events[i].at <= events[j].at
  }

  ghost predicate StampsPast(s: State, now: int) {
    forall u :: u in s.stamps ==> s.stamps[u] <= now
  }

  lemma {:induction false} StampsInPast(events: seq<Event>, k: nat)
    requires ClockRuns(events) && k < |events|
    ensures StampsPast(After(events, k), events[k].at)
  {
    if k > 0 {
      StampsInPast(events, k - 1);
      AfterStep(events, k - 1);
    }
  }

  lemma StaleStep(s: State, e: Event, t: TokenId)
    requires t < |s.tokens| && Stale(s, s.tokens[t])
    requires StampsPast(s, e.at)
    ensures t < |Step(s, e).tokens| && Stale(Step(s, e), Step(s, e).tokens[t])
  {
  }

  /** Once a token is older than its account's stamp it stays so. */
  lemma {:induction false} StaleStaysStale(events: seq<Event>, i: nat, j: nat, t: TokenId)
    requires ClockRuns(events) && i <= j <= |events|
    requires t < |After(events, i).tokens| && Stale(After(events, i), After(events, i).tokens[t])
    ensures t < |After(events, j).tokens| && Stale(After(events, j), After(events, j).tokens[t])
    decreases j - i
  {
    if i < j {
      StaleStaysStale(events, i, j - 1, t);
      StampsInPast(events, j - 1);
      AfterStep(events, j - 1);
      StaleStep(After(events, j - 1), events[j - 1], t);
    }
  }

  /** No token created before its account's stamp is ever consumed afterwards. */
  lemma StaleNeverConsumed(events: seq<Event>, i: nat, j: nat, t: TokenId)
    requires ClockRuns(events) && i <= j < |events|
    requires t < |After(events, i).tokens| && Stale(After(events, i), After(events, i).tokens[t])
    requires events[j].call == Consume(t)
    ensures After(events, j + 1) == After(events, j)
  {
    StaleStaysStale(events, i, j, t);
    AfterStep(events, j);
  }

  // The expiry

  /** Whether a token can be exchanged, and what a refused exchange leaves: nothing. */
  lemma ConsumedIff(s: State, t: TokenId, at: int)
    ensures var s' := Step(s, Event(at, Consume(t)));
      && (s' != s <==>
            && t < |s.tokens| && !s.tokens[t].revoked && at < s.tokens[t].expires
            && (s.tokens[t].user in s.stamps ==> s.stamps[s.tokens[t].user] <= s.tokens[t].created))
      && (s' != s ==> s'.tokens == s.tokens[t := s.tokens[t].(revoked := true)])
  {
    var s' := Step(s, Event(at, Consume(t)));
    if s'.consumed == s.consumed + [t] {
      assert |s'.consumed| != |s.consumed|;
    }
  }

  lemma RowsKept(s: State, e: Event, t: TokenId)
    requires t < |s.tokens|
    ensures t < |Step(s, e).tokens|
    ensures var was, left := s.tokens[t], Step(s, e).tokens[t];
      left.user == was.user && left.created == was.created && left.expires == was.expires
      && (was.revoked ==> left.revoked)
  {
  }

  /** A token's dates never move and a revoked token stays revoked. */
  lemma {:induction false} TokensKept(events: seq<Event>, i: nat, j: nat, t: TokenId)
    requires i <= j <= |events| && t < |After(events, i).tokens|
    ensures t < |After(events, j).tokens|
    ensures var was, left := After(events, i).tokens[t], After(events, j).tokens[t];
      left.user == was.user && left.created == was.created && left.expires == was.expires
      && (was.revoked ==> left.revoked)
    decreases j - i
  {
    if i < j {
      TokensKept(events, i, j - 1, t);
      AfterStep(events, j - 1);
      RowsKept(After(events, j - 1), events[j - 1], t);
    }
  }

  /** From the moment its lifetime is over a token is never consumed, by any clock. */
  lemma ExpiredNeverConsumed(events: seq<Event>, i: nat, j: nat, t: TokenId)
    requires i <= j < |events| && t < |After(events, i).tokens|
    requires events[j].call == Consume(t) && After(events, i).tokens[t].expires <= events[j].at
    ensures After(events, j + 1) == After(events, j)
  {
    TokensKept(events, i, j, t);
    AfterStep(events, j);
  }

  /** A token saved by a login can be exchanged at any time in its lifetime, by the first statement
    that tries, unless it was revoked or its account stamped later than it was made. */
  lemma FreshTokenConsumable(events: seq<Event>, i: nat, j: nat)
    requires i < j <= |events| && events[i].call.SaveLogin?
    ensures var t := |After(events, i).tokens|;
      t < |After(events, j).tokens| && forall at: int ::
        Step(After(events, j), Event(at, Consume(t))) != After(events, j) <==>
          && !After(events, j).tokens[t].revoked && at < events[i].at + events[i].call.ttl
          && (events[i].call.user in After(events, j).stamps ==>
                After(events, j).stamps[events[i].call.user] <= events[i].at)
  {
    var t := |After(events, i).tokens|;
    AfterStep(events, i);
    TokensKept(events, i + 1, j, t);
    forall at: int {
      ConsumedIff(After(events, j), t, at);
    }
  }

  /** The token table and the accounts' stamps, one statement at a time. */
  class TokenStore {
    var tokens: seq<Token>
    var refreshes: seq<Refresh>
    var stamps: map<UserId, int>
    ghost var logins: seq<UserId>
    ghost var consumed: seq<TokenId>

    ghost function Snapshot(): State
      reads this
    {
      State(tokens, refreshes, stamps, logins, consumed)
    }

    constructor ()
      ensures Snapshot() == NOTHING
    {
      tokens, refreshes, stamps, logins, consumed := [], [], map[], [], [];
    }

    method SaveLogin(user: UserId, ttl: int, now: int) returns (token: TokenId)
      modifies this
      ensures Snapshot() == Step(old(Snapshot()), Event(now, Call.SaveLogin(user, ttl))) && token == |old(tokens)|
      ensures tokens == old(tokens) + [Token(user, now, now + ttl, false)] && logins == old(logins) + [user]
      ensures refreshes == old(refreshes) && stamps == old(stamps) && consumed == old(consumed)
    {
      token := |tokens|;
      tokens := tokens + [Token(user, now, now + ttl, false)];
      logins := logins + [user];
    }

    method ConsumeRefreshToken(token: TokenId, now: int) returns (refresh: Option<RefreshId>)
      modifies this
      ensures Snapshot() == Step(old(Snapshot()), Event(now, Consume(token)))
      ensures refresh.Some? <==>
        && token < |old(tokens)| && !old(tokens)[token].revoked && old(tokens)[token].expires > now
        && (old(tokens)[token].user in old(stamps) ==>
              old(stamps)[old(tokens)[token].user] <= old(tokens)[token].created)
      ensures refresh.None? ==> Snapshot() == old(Snapshot())
      ensures refresh.Some? ==>
        var t := old(tokens)[token];
        && refresh == Some(|old(refreshes)|) && refreshes == old(refreshes) + [Refresh(t.user, true)]
        && tokens == old(tokens)[token := Token(t.user, t.created, t.expires, true)]
        && stamps == old(stamps) && logins == old(logins) && consumed == old(consumed) + [token]
    {
      if token >= |tokens| || tokens[token].revoked || tokens[token].expires <= now {
        return None;
      }
      var t := tokens[token];
      if t.user in stamps && t.created < stamps[t.user] {
        return None;
      }
      refresh := Some(|refreshes|);
      tokens := tokens[token := t.(revoked := true)];
      refreshes := refreshes + [Refresh(t.user, true)];
      consumed := consumed + [token];
    }

    method SaveRefreshed(refresh: RefreshId, ttl: int, now: int)
      modifies this
      ensures Snapshot() == Step(old(Snapshot()), Event(now, Call.SaveRefreshed(refresh, ttl)))
      ensures refresh < |old(refreshes)| && old(refreshes)[refresh].open ==>
        && tokens == old(tokens) + [Token(old(refreshes)[refresh].user, now, now + ttl, false)]
        && refreshes == old(refreshes)[refresh := Refresh(old(refreshes)[refresh].user, false)]
        && stamps == old(stamps) && logins == old(logins) && consumed == old(consumed)
      ensures !(refresh < |old(refreshes)| && old(refreshes)[refresh].open) ==> Snapshot() == old(Snapshot())
    {
      if refresh < |refreshes| && refreshes[refresh].open {
        tokens := tokens + [Token(refreshes[refresh].user, now, now + ttl, false)];
        refreshes := refreshes[refresh := refreshes[refresh].(open := false)];
      }
    }

    method RevokeRefreshToken(token: TokenId, now: int)
      modifies this
      ensures Snapshot() == Step(old(Snapshot()), Event(now, Logout(token)))
      ensures Snapshot() == old(Snapshot()).(tokens := tokens) && |tokens| == |old(tokens)|
      ensures forall i :: 0 <= i < |tokens| ==>
        tokens[i] == if i == token then old(tokens)[i].(revoked := true) else old(tokens)[i]
    {
      if token < |tokens| && !tokens[token].revoked {
        tokens := tokens[token := tokens[token].(revoked := true)];
      }
    }

    /** UpdatePassword's stamp and then RevokeAllRefreshTokens, as ChangePassword and ResetPassword run them. */
    method ChangePassword(user: UserId, now: int)
      modifies this
      ensures Snapshot() == Step(Step(old(Snapshot()), Event(now, Stamp(user))), Event(now, RevokeAll(user)))
      ensures stamps == old(stamps)[user := now] && |tokens| == |old(tokens)|
      ensures forall i :: 0 <= i < |tokens| ==>
        tokens[i] == if old(tokens)[i].user == user then old(tokens)[i].(revoked := true) else old(tokens)[i]
    {
      stamps := stamps[user := now];
      tokens := RevokeOf(tokens, user);
    }
  }
}
