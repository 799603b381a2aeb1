/**
  One account, one device, across every gateway. A step is one Redis script, one publish, one lock
  region of a gateway's connection manager, or one handled invalidate; steps of different processes
  interleave freely. An invalidate carries a user id; the login it came from is kept for the proofs.
 */
module Displacement {
  import opened Wrappers
  import opened SessionStore
  import opened Connections
  import Heartbeat

  /** A login is issued by the script, answered after the publish attempt, and settled by the gateway. */
  datatype Stage = Issued | Answered | Settled(bound: bool)

  datatype Login = Login(user: nat, gateway: nat, conn: string, token: string, replaced: string, stage: Stage)

  datatype System = System(
    sessions: World,
    gateways: seq<Tables>,
    everUsed: seq<set<string>>,  // connection ids handed out so far, per gateway
    inbox: seq<seq<nat>>,        // invalidates delivered but not handled, per gateway, in order
    logins: seq<Login>)

  datatype Action =
    | Tick(seconds: nat)
    | Local(gateway: nat, op: Op)
    | RunScript(user: nat, name: string, token: string, ttl: int, gateway: nat, conn: string)
    | Publish(login: nat, reached: set<nat>)
    | HandleInvalidate(gateway: nat)
    | Bind(login: nat)
    | GiveUp(login: nat)

  /** The invalidate payload and the bound user id are signed 64-bit, and only positive ids are bound. */
  predicate Bindable(user: nat) {
    0 < user < 0x8000_0000_0000_0000
  }

  predicate Shaped(s: System) {
    && |s.gateways| == |s.everUsed| == |s.inbox|
    && forall i | 0 <= i < |s.logins| :: s.logins[i].gateway < |s.gateways|
  }

  function Begin(gateways: nat): System {
    System(START, seq(gateways, _ => EMPTY), seq(gateways, _ => {}), seq(gateways, _ => []), [])
  }

  function WithStage(s: System, login: nat, stage: Stage): System
    requires login < |s.logins|
  {
    s.(logins := s.logins[login := s.logins[login].(stage := stage)])
  }

  function AfterScript(
    s: System, user: nat, name: string, token: string, ttl: int, gateway: nat, conn: string): System
  {
    var outcome := LoginScript(s.sessions.db, user, name, token, ttl);
    var next := s.(sessions := Issue(s.sessions, user, name, token, ttl));
    if outcome.reply.None? then next
    else next.(logins := s.logins + [Login(user, gateway, conn, token, outcome.reply.value, Issued)])
  }

  function AfterPublish(s: System, login: nat, reached: set<nat>): System
    requires login < |s.logins|
  {
    WithStage(s, login, Answered).(
      inbox := seq(|s.inbox|,
                   g requires 0 <= g < |s.inbox| => if g in reached then s.inbox[g] + [login] else s.inbox[g]))
  }

  /** handleMessage: a user id that does not fit is dropped, any other is kicked. */
  function AfterInvalidate(s: System, g: nat): System
    requires Shaped(s) && g < |s.gateways| && s.inbox[g] != [] && s.inbox[g][0] < |s.logins|
  {
    var user := s.logins[s.inbox[g][0]].user;
    var t := s.gateways[g];
    s.(inbox := s.inbox[g := s.inbox[g][1..]],
       gateways := s.gateways[g := if user < 0x8000_0000_0000_0000 then Kicked(t, user) else t])
  }

  function AfterBind(s: System, login: nat): System
    requires Shaped(s) && login < |s.logins|
  {
    var l := s.logins[login];
    if Bindable(l.user)
    then WithStage(s, login, Settled(true)).(
           gateways := s.gateways[l.gateway := Connections.Bound(s.gateways[l.gateway], l.user, l.conn)])
    else WithStage(s, login, Settled(false))
  }

  /** What the processes may do, with no discipline imposed. */
  ghost predicate Next(config: Heartbeat.Config, s: System, a: Action, next: System)
    requires Shaped(s)
  {
    match a
    case Tick(seconds) => next == s.(sessions := Apply(s.sessions, SessionStore.Tick(seconds)))
    case Local(g, op) =>
      && g < |s.gateways| && !op.BindUser? && !op.Kick?
      && (op.Register? ==> op.id !in s.everUsed[g])
      && |next.gateways| == |s.gateways|
      && Connections.Next(config, s.gateways[g], op, next.gateways[g])
      && next == s.(gateways := s.gateways[g := next.gateways[g]],
                    everUsed := s.everUsed[g := s.everUsed[g] + if op.Register? then {op.id} else {}])
    case RunScript(user, name, token, ttl, g, conn) =>
      && g < |s.gateways| && conn in s.everUsed[g]
      && next == AfterScript(s, user, name, token, ttl, g, conn)
    case Publish(login, reached) =>
      && login < |s.logins| && s.logins[login].stage == Issued
      && (s.logins[login].replaced == "" ==> reached == {})
      && next == AfterPublish(s, login, reached)
    case HandleInvalidate(g) =>
      && g < |s.gateways| && s.inbox[g] != [] && s.inbox[g][0] < |s.logins|
      && next == AfterInvalidate(s, g)
    case Bind(login) =>
      && login < |s.logins| && s.logins[login].stage == Answered
      && next == AfterBind(s, login)
    case GiveUp(login) =>
      && login < |s.logins| && !s.logins[login].stage.Settled?
      && next == WithStage(s, login, Settled(false))
  }

  // ----- bound and open connections -----

  /** Login `l` bound its user to a connection that is still registered at its gateway. */
  predicate OpenBound(s: System, l: nat)
    requires Shaped(s)
  {
    && l < |s.logins| && s.logins[l].stage == Settled(true)
    && s.logins[l].conn in s.gateways[s.logins[l].gateway].connections
  }

  // ----- the discipline the theorem asks for -----

  /** Gateway `g` holds a connection that a kick of `user` would close. */
  predicate Holds(s: System, g: nat, user: nat)
    requires g < |s.gateways|
  {
    user in s.gateways[g].users && s.gateways[g].users[user] in s.gateways[g].connections
  }

  /** No gateway that holds a connection of its user has still to handle the invalidate of login `l`. */
  predicate HandledWhereHeld(s: System, l: nat)
    requires Shaped(s) && l < |s.logins|
  {
    forall g: nat | g < |s.inbox| && Holds(s, g, s.logins[l].user) :: l !in s.inbox[g]
  }

  /**
    Login `n` displaced a session, is not bound, and once answered its invalidate waits at the gateway of
    login `l`.
   */
  predicate Pursues(s: System, n: nat, l: nat)
    requires Shaped(s) && l < |s.logins| && n < |s.logins|
  {
    && s.logins[n].replaced != "" && s.logins[n].stage != Settled(true)
    && (s.logins[n].stage == Answered ==> n in s.inbox[s.logins[l].gateway])
  }

  /** Every later login of its user pursues login `l`; so it is when there is none. */
  ghost predicate Pursued(s: System, l: nat)
    requires Shaped(s) && l < |s.logins|
  {
    forall n: nat | l < n < |s.logins| && s.logins[n].user == s.logins[l].user :: Pursues(s, n, l)
  }

  /**
    Gateways matter only while they hold a connection of the user: a displacement that is published
    reaches those, and they handle a login's invalidate before that login's own bind. A bind comes before
    its user's next script, or at least while every later login has still to be published or to be handled
    at its gateway. No session has expired under an open connection when its user logs in again; tokens
    are fresh and live a second or more. Nothing is asked of logins that never bind.
   */
  ghost predicate Orderly(s: System, a: Action)
    requires Shaped(s)
  {
    match a
    case RunScript(user, name, token, ttl, g, conn) =>
      && ttl >= 1 && FreshToken(s.sessions.log, token)
      && ((exists l: nat :: OpenBound(s, l) && s.logins[l].user == user) ==> s.sessions.db.Live(UserKey(user)))
    case Publish(login, reached) =>
      login < |s.logins| && s.logins[login].replaced != "" ==>
        forall g: nat | g < |s.gateways| && Holds(s, g, s.logins[login].user) :: g in reached
    case Bind(login) => login < |s.logins| ==> HandledWhereHeld(s, login) && Pursued(s, login)
    case _ => true
  }

  // ----- what every orderly step keeps -----

  ghost predicate ConnsHandedOut(s: System)
    requires Shaped(s)
  {
    && (forall i | 0 <= i < |s.logins| :: s.logins[i].conn in s.everUsed[s.logins[i].gateway])
    && (forall g | 0 <= g < |s.gateways| :: s.gateways[g].connections.Keys <= s.everUsed[g])
  }

  /** A kick would find the connection of login `l`, and every later login of the user pursues it. */
  ghost predicate OpenIsPursued(s: System, l: nat)
    requires Shaped(s) && l < |s.logins|
  {
    var me := s.logins[l];
    var t := s.gateways[me.gateway];
    && Bindable(me.user) && me.user in t.users && t.users[me.user] == me.conn
    && Pursued(s, l)
  }

  ghost predicate Core(s: System) {
    && Shaped(s)
    && ConnsHandedOut(s)
    && forall l: nat | OpenBound(s, l) :: OpenIsPursued(s, l)
  }

  ghost predicate Inv(s: System) {
    Core(s) && Faithful(s.sessions)
  }

  lemma BeginInv(gateways: nat)
    ensures Inv(Begin(gateways))
  {
    StartIsFaithful();
  }

  // ----- one lemma per kind of step -----

  lemma LocalTables(config: Heartbeat.Config, t: Tables, op: Op, after: Tables)
    requires Connections.Next(config, t, op, after) && !op.BindUser? && !op.Kick?
    ensures forall id | id in after.connections :: id in t.connections || (op.Register? && id == op.id)
    ensures forall u | u in after.users :: u in t.users && after.users[u] == t.users[u]
    ensures forall u | u in t.users && u !in after.users :: t.users[u] !in after.connections
  {
    hide HeartbeatDue;
    hide IdleDue;
    hide DownBy;
  }

  lemma LocalKeepsCore(config: Heartbeat.Config, s: System, g: nat, op: Op, next: System)
    requires Core(s) && Next(config, s, Local(g, op), next)
    ensures Core(next)
  {
    LocalTables(config, s.gateways[g], op, next.gateways[g]);
    hide Connections.Next;
    assert forall h | 0 <= h < |s.gateways| && h != g :: next.gateways[h] == s.gateways[h];
    forall l: nat | OpenBound(next, l) ensures OpenIsPursued(next, l) {
      assert s.logins[l].conn in s.everUsed[s.logins[l].gateway];
      assert OpenBound(s, l) && OpenIsPursued(s, l);
      PursuitKept(s, next, l);
    }
  }

  /** Steps that change no login and drop no waiting invalidate keep every pursuit. */
  lemma PursuitKept(s: System, next: System, l: nat)
    requires Shaped(s) && Shaped(next) && next.logins == s.logins && next.inbox == s.inbox && l < |s.logins|
    ensures forall n: nat | n < |s.logins| :: Pursues(next, n, l) <==> Pursues(s, n, l)
  {}

  lemma TickKeepsCore(config: Heartbeat.Config, s: System, seconds: nat, next: System)
    requires Core(s) && Next(config, s, Action.Tick(seconds), next)
    ensures Core(next)
  {
    forall l: nat | OpenBound(next, l) ensures OpenIsPursued(next, l) {
      assert OpenBound(s, l) && OpenIsPursued(s, l);
      PursuitKept(s, next, l);
    }
  }

  lemma ScriptKeepsCore(s: System, login: Login, next: System)
    requires Core(s) && login.stage == Issued && login.gateway < |s.gateways| && login.conn in s.everUsed[login.gateway]
    requires next == s.(sessions := next.sessions, logins := s.logins + [login])
    requires (exists l: nat :: OpenBound(s, l) && s.logins[l].user == login.user) ==> login.replaced != ""
    ensures Core(next)
  {
    forall l: nat | OpenBound(next, l) ensures OpenIsPursued(next, l) {
      assert next.logins[l] == s.logins[l];
      assert OpenBound(s, l) && OpenIsPursued(s, l);
      forall n: nat | l < n < |next.logins| && next.logins[n].user == s.logins[l].user ensures Pursues(next, n, l) {
        if n < |s.logins| { assert Pursues(s, n, l); }
      }
    }
  }

  /** The script's reply names a session whenever one is live. */
  lemma LiveIsReplaced(w: World, user: nat)
    requires Faithful(w) && w.db.Live(UserKey(user))
    ensures w.db.Get(UserKey(user)).Some? && w.db.Get(UserKey(user)).value != ""
  {
    hide LastOf;
    hide UserKey;
    UserKeyAnswers(w, user);
  }

  lemma ScriptKeepsInv(config: Heartbeat.Config, s: System, a: Action, next: System)
    requires Inv(s) && a.RunScript? && Next(config, s, a, next) && Orderly(s, a)
    ensures Inv(next)
  {
    hide LoginScript;
    hide Core;
    IssueKeeps(s.sessions, a.user, a.name, a.token, a.ttl);
    ScriptEffect(s.sessions, a.user, a.name, a.token, a.ttl);
    if s.sessions.db.Live(UserKey(a.user)) { LiveIsReplaced(s.sessions, a.user); }
    hide Faithful;
    hide Issue;
    hide UserKey;
    var reply := LoginScript(s.sessions.db, a.user, a.name, a.token, a.ttl).reply.value;
    ScriptKeepsCore(s, Login(a.user, a.gateway, a.conn, a.token, reply, Issued), next);
  }

  lemma PublishedInbox(s: System, login: nat, reached: set<nat>)
    requires login < |s.logins|
    ensures var inbox := AfterPublish(s, login, reached).inbox;
            && |inbox| == |s.inbox|
            && (forall g, m | 0 <= g < |s.inbox| && m in inbox[g] :: m in s.inbox[g] || m == login)
            && (forall g, m | 0 <= g < |s.inbox| && m in s.inbox[g] :: m in inbox[g])
            && (forall g | 0 <= g < |s.inbox| && g in reached :: login in inbox[g])
  {
    var inbox := AfterPublish(s, login, reached).inbox;
    forall g | 0 <= g < |s.inbox| && g in reached ensures login in inbox[g] {
      assert inbox[g][|s.inbox[g]|] == login;
    }
  }

  lemma PublishKeepsCore(config: Heartbeat.Config, s: System, login: nat, reached: set<nat>, next: System)
    requires Core(s) && Next(config, s, Publish(login, reached), next) && Orderly(s, Publish(login, reached))
    ensures Core(next)
  {
    PublishedInbox(s, login, reached);
    forall l: nat | OpenBound(next, l) ensures OpenIsPursued(next, l) {
      assert OpenBound(s, l) && OpenIsPursued(s, l);
      forall n: nat | l < n < |next.logins| && next.logins[n].user == next.logins[l].user ensures Pursues(next, n, l) {
        assert Pursues(s, n, l);
      }
    }
  }

  lemma InvalidateKeepsCore(config: Heartbeat.Config, s: System, g: nat, next: System)
    requires Core(s) && Next(config, s, HandleInvalidate(g), next)
    ensures Core(next)
  {
    var m := s.inbox[g][0];
    assert s.inbox[g] == [m] + next.inbox[g];
    forall l: nat | OpenBound(next, l) ensures OpenIsPursued(next, l) {
      assert OpenBound(s, l) && OpenIsPursued(s, l);
      forall n: nat | l < n < |next.logins| && next.logins[n].user == next.logins[l].user ensures Pursues(next, n, l) {
        assert Pursues(s, n, l);
      }
    }
  }

  lemma BindKeepsCore(config: Heartbeat.Config, s: System, login: nat, next: System)
    requires Core(s) && Next(config, s, Bind(login), next) && Orderly(s, Bind(login))
    ensures Core(next)
  {
    forall l: nat | OpenBound(next, l) ensures OpenIsPursued(next, l) {
      if l == login {
        forall n: nat | l < n < |next.logins| && next.logins[n].user == next.logins[l].user
          ensures Pursues(next, n, l)
        {
          assert Pursues(s, n, l);
        }
      } else {
        BindKeepsPursuit(s, login, l);
      }
    }
  }

  lemma BindKeepsPursuit(s: System, login: nat, l: nat)
    requires Core(s) && login < |s.logins| && l != login && s.logins[login].stage == Answered
    requires HandledWhereHeld(s, login) && Pursued(s, login) && OpenBound(AfterBind(s, login), l)
    ensures OpenIsPursued(AfterBind(s, login), l)
  {
    var next := AfterBind(s, login);
    assert OpenBound(s, l) && OpenIsPursued(s, l);
    OpenIsNotBinding(s, l, login);
    hide Core;
    forall n: nat | l < n < |next.logins| && next.logins[n].user == next.logins[l].user ensures Pursues(next, n, l) {
      assert Pursues(s, n, l);
    }
  }

  lemma LaterPursues(s: System, l: nat, n: nat)
    requires Core(s) && OpenBound(s, l) && l < n < |s.logins| && s.logins[n].user == s.logins[l].user
    ensures Pursues(s, n, l)
  {
    assert OpenIsPursued(s, l);
  }

  /** While a user has an open connection, no other login of the user can be bound. */
  lemma OpenIsNotBinding(s: System, l: nat, login: nat)
    requires Core(s) && OpenBound(s, l) && login < |s.logins| && login != l && s.logins[login].stage == Answered
    requires HandledWhereHeld(s, login) && Pursued(s, login)
    ensures s.logins[l].user != s.logins[login].user
  {
    if l < login && s.logins[l].user == s.logins[login].user {
      assert OpenIsPursued(s, l);
      assert Holds(s, s.logins[l].gateway, s.logins[login].user);
    }
  }

  lemma GiveUpKeepsCore(config: Heartbeat.Config, s: System, login: nat, next: System)
    requires Core(s) && Next(config, s, GiveUp(login), next)
    ensures Core(next)
  {
    forall l: nat | OpenBound(next, l) ensures OpenIsPursued(next, l) {
      assert OpenBound(s, l) && OpenIsPursued(s, l);
      forall n: nat | l < n < |next.logins| && next.logins[n].user == next.logins[l].user ensures Pursues(next, n, l) {
        assert Pursues(s, n, l);
      }
    }
  }

  lemma StepKeepsInv(config: Heartbeat.Config, s: System, a: Action, next: System)
    requires Inv(s) && Next(config, s, a, next) && Orderly(s, a)
    ensures Inv(next)
  {
    hide Core;
    match a
    case Tick(seconds) =>
      TickKeepsCore(config, s, seconds, next);
      TickKeeps(s.sessions, seconds);
    case Local(g, op) => LocalKeepsCore(config, s, g, op, next);
    case RunScript(_, _, _, _, _, _) => ScriptKeepsInv(config, s, a, next);
    case Publish(login, reached) => PublishKeepsCore(config, s, login, reached, next);
    case HandleInvalidate(g) => InvalidateKeepsCore(config, s, g, next);
    case Bind(login) => BindKeepsCore(config, s, login, next);
    case GiveUp(login) => GiveUpKeepsCore(config, s, login, next);
  }

  /** Two open connections of one user do not come from an earlier and a later login. */
  lemma LaterIsClosed(s: System, a: nat, b: nat)
    requires Core(s)
    ensures !(a < b && OpenBound(s, a) && OpenBound(s, b) && s.logins[a].user == s.logins[b].user)
  {
    if a < b && OpenBound(s, a) && OpenBound(s, b) && s.logins[a].user == s.logins[b].user {
      LaterPursues(s, a, b);
    }
  }
}
