/**
  Runs that leave one clause of the discipline out, each from the start of the system with one
  gateway: what then goes wrong does happen.
 */
module DisplacementLimits {
  import opened Wrappers
  import opened SessionStore
  import opened Connections
  import opened Displacement
  import opened OneDevice
  import opened Kicks
  import Heartbeat

  const FIRST := "conn-1"
  const SECOND := "conn-2"
  const TTL: int := 60

  /** One gateway with its logins, waiting invalidates, user table and open connections. */
  ghost predicate Stands(s: System, logins: seq<Login>, inbox: seq<nat>, users: map<int, string>, open: set<string>) {
    && |s.gateways| == |s.everUsed| == |s.inbox| == 1
    && s.logins == logins && (forall i | 0 <= i < |logins| :: logins[i].gateway == 0)
    && s.inbox[0] == inbox
    && s.gateways[0].users == users && s.gateways[0].connections.Keys == open
    && s.everUsed[0] == {FIRST, SECOND}
    && Remembers(s.sessions, logins)
  }

  ghost predicate Remembers(w: World, logins: seq<Login>) {
    && Faithful(w) && |w.log| == |logins|
    && forall i | 0 <= i < |logins| :: w.log[i].user == logins[i].user && w.log[i].token == logins[i].token
  }

  /** No time has passed, and every login so far lives for TTL seconds. */
  predicate Unexpired(w: World) {
    w.db.now == 0 && forall i | 0 <= i < |w.log| :: w.log[i].Expiry() == TTL
  }

  /** Every session has run out. */
  predicate RunOut(w: World) {
    forall i | 0 <= i < |w.log| :: w.log[i].Expiry() <= w.db.now
  }

  lemma StageIsNotRemembered(w: World, logins: seq<Login>, l: nat, stage: Stage)
    requires Remembers(w, logins) && l < |logins|
    ensures Remembers(w, logins[l := logins[l].(stage := stage)])
  {
    hide Faithful;
  }

  /** The step keeps every clause of the discipline. */
  ghost predicate InStep(s: System, a: Action)
    requires Shaped(s)
  {
    Orderly(s, a) && Announced(s, a) && InTurn(s, a)
  }

  /** The run goes on with one more step, and stays as disciplined as that step is. */
  lemma Extend(config: Heartbeat.Config, states: seq<System>, actions: seq<Action>, a: Action, next: System)
    returns (states': seq<System>, actions': seq<Action>)
    requires OneDevice.Run(config, states, actions) && Displacement.Next(config, states[|actions|], a, next) &&
             Shaped(next)
    ensures states' == states + [next] && actions' == actions + [a]
    ensures |states'| == |actions'| + 1 && states'[|actions'|] == next && OneDevice.Run(config, states', actions')
    ensures OrderlyRun(config, states, actions) && Orderly(states[|actions|], a) ==>
            OrderlyRun(config, states', actions')
    ensures AnnouncedRun(config, states, actions) && Orderly(states[|actions|], a) &&
            Announced(states[|actions|], a) ==>
              AnnouncedRun(config, states', actions')
    ensures KickRun(config, states, actions) && InStep(states[|actions|], a) ==> KickRun(config, states', actions')
  {
    hide Displacement.Next;
    hide Orderly;
    hide Announced;
    hide InTurn;
    states', actions' := states + [next], actions + [a];
    assert states'[0] == states[0];
    forall i | 0 <= i < |actions'| ensures Displacement.Next(config, states'[i], actions'[i], states'[i + 1]) {
      if i < |actions| {
        assert Displacement.Next(config, states[i], actions[i], states[i + 1]);
      }
    }
  }

  // ----- the steps of these runs -----

  /** A login's script: the reply names the user's latest session if it still lives. */
  lemma Scripted(config: Heartbeat.Config, s: System, logins: seq<Login>,
                 inbox: seq<nat>, users: map<int, string>, open: set<string>,
                 user: nat, token: string, conn: string, replaced: string) returns (a: Action, next: System)
    requires Stands(s, logins, inbox, users, open) && (conn == FIRST || conn == SECOND) && token != ""
    requires forall i | 0 <= i < |logins| :: logins[i].token != token && logins[i].user == user
    requires Unexpired(s.sessions) || RunOut(s.sessions)
    requires replaced == if logins == [] || RunOut(s.sessions) then "" else logins[|logins| - 1].token
    ensures a == RunScript(user, "name", token, TTL, 0, conn)
    ensures Displacement.Next(config, s, a, next) && Shaped(next)
    ensures Unexpired(s.sessions) ==> InStep(s, a) && Unexpired(next.sessions)
    ensures Stands(next, logins + [Login(user, 0, conn, token, replaced, Issued)], inbox, users, open)
  {
    hide LoginScript;
    hide Connections.Next;
    hide Kicked;
    hide Unexpired;
    hide RunOut;
    hide InStep;
    a := RunScript(user, "name", token, TTL, 0, conn);
    next := AfterScript(s, user, "name", token, TTL, 0, conn);
    ScriptRemembered(s.sessions, logins, user, token, conn, replaced);
    hide Remembers;
    hide FreshToken;
    hide Issue;
    hide UserKey;
    ScriptMayRun(config, s, a);
    hide Displacement.Next;
    if s.sessions.db.Live(UserKey(user)) || logins == [] { ScriptInStep(s, a); }
  }

  lemma ScriptInStep(s: System, a: Action)
    requires Shaped(s) && a.RunScript? && a.ttl >= 1 && FreshToken(s.sessions.log, a.token)
    requires s.logins == [] || s.sessions.db.Live(UserKey(a.user))
    ensures InStep(s, a)
  {
    hide FreshToken;
    hide UserKey;
  }

  lemma ScriptMayRun(config: Heartbeat.Config, s: System, a: Action)
    requires Shaped(s) && a.RunScript? && a.gateway < |s.gateways| && a.conn in s.everUsed[a.gateway]
    ensures var next := AfterScript(s, a.user, a.name, a.token, a.ttl, a.gateway, a.conn);
            Shaped(next) && Displacement.Next(config, s, a, next)
  {
    hide LoginScript;
    hide Issue;
  }

  lemma ScriptRemembered(w: World, logins: seq<Login>, user: nat, token: string, conn: string, replaced: string)
    requires Remembers(w, logins) && token != "" && (Unexpired(w) || RunOut(w))
    requires forall i | 0 <= i < |logins| :: logins[i].token != token && logins[i].user == user
    requires replaced == if logins == [] || RunOut(w) then "" else logins[|logins| - 1].token
    ensures FreshToken(w.log, token) && (Unexpired(w) && logins != [] ==> w.db.Live(UserKey(user)))
    ensures LoginScript(w.db, user, "name", token, TTL).reply == Some(replaced)
    ensures Remembers(Issue(w, user, "name", token, TTL), logins + [Login(user, 0, conn, token, replaced, Issued)])
    ensures Unexpired(w) ==> Unexpired(Issue(w, user, "name", token, TTL))
  {
    hide LoginScript;
    hide Faithful;
    ScriptEffect(w, user, "name", token, TTL);
    IssueKeeps(w, user, "name", token, TTL);
    UserKeyAnswers(w, user);
    LastOfAll(w.log, user);
    hide Issue;
    hide LastOf;
    hide UserKey;
  }

  lemma LastOfAll(log: seq<Event>, user: nat)
    requires forall i | 0 <= i < |log| :: log[i].user == user
    ensures LastOf(log, user) == if log == [] then None else Some(|log| - 1)
  {}

  lemma Published(config: Heartbeat.Config, s: System, logins: seq<Login>,
                  inbox: seq<nat>, users: map<int, string>, open: set<string>,
                  login: nat, reached: set<nat>) returns (a: Action, next: System)
    requires Stands(s, logins, inbox, users, open) && login < |logins| && logins[login].stage == Issued
    requires logins[login].replaced == "" ==> reached == {}
    ensures a == Publish(login, reached)
    ensures Displacement.Next(config, s, a, next) && Shaped(next)
    ensures logins[login].replaced == "" || 0 in reached ==> Orderly(s, a) && Announced(s, a)
    ensures reached == {} || (forall i | 0 <= i < login :: logins[i].stage != Issued) ==> InTurn(s, a)
    ensures next.sessions == s.sessions
    ensures Stands(next, logins[login := logins[login].(stage := Answered)],
                   if 0 in reached then inbox + [login] else inbox, users, open)
  {
    hide Remembers;
    hide LoginScript;
    hide Issue;
    hide Connections.Next;
    hide Kicked;
    a, next := Publish(login, reached), AfterPublish(s, login, reached);
    StageIsNotRemembered(s.sessions, logins, login, Answered);
  }

  lemma Handled(config: Heartbeat.Config, s: System, logins: seq<Login>,
                inbox: seq<nat>, users: map<int, string>, open: set<string>,
                user: nat, conn: string) returns (a: Action, next: System)
    requires Stands(s, logins, inbox, users, open) && inbox != [] && inbox[0] < |logins| &&
             logins[inbox[0]].user == user
    requires Bindable(user) && users == map[user := conn]
    ensures a == HandleInvalidate(0)
    ensures Displacement.Next(config, s, a, next) && Shaped(next) && InStep(s, a)
    ensures next.sessions == s.sessions
    ensures Stands(next, logins, inbox[1..], map[], open - {conn})
  {
    hide Remembers;
    hide LoginScript;
    hide Issue;
    hide Connections.Next;
    hide DownBy;
    a, next := HandleInvalidate(0), AfterInvalidate(s, 0);
    assert users - {user} == map[];
    assert (s.gateways[0].connections - {conn}).Keys == open - {conn};
  }

  lemma HandledIdly(config: Heartbeat.Config, s: System, logins: seq<Login>, inbox: seq<nat>, open: set<string>)
    returns (a: Action, next: System)
    requires Stands(s, logins, inbox, map[], open) && inbox != [] && inbox[0] < |logins|
    ensures a == HandleInvalidate(0)
    ensures Displacement.Next(config, s, a, next) && Shaped(next) && InStep(s, a)
    ensures next.sessions == s.sessions
    ensures Stands(next, logins, inbox[1..], map[], open)
  {
    hide Remembers;
    hide LoginScript;
    hide Issue;
    hide Connections.Next;
    hide DownBy;
    a, next := HandleInvalidate(0), AfterInvalidate(s, 0);
  }

  lemma BoundTo(config: Heartbeat.Config, s: System, logins: seq<Login>,
                inbox: seq<nat>, users: map<int, string>, open: set<string>,
                login: nat) returns (a: Action, next: System)
    requires Stands(s, logins, inbox, users, open) && login < |logins| && logins[login].stage == Answered &&
             Bindable(logins[login].user)
    ensures a == Bind(login)
    ensures Displacement.Next(config, s, a, next) && Shaped(next)
    ensures login == |logins| - 1 && (login in inbox ==> users == map[]) ==> Orderly(s, a) && Announced(s, a)
    ensures login == |logins| - 1 && inbox == [] && (forall i | 0 <= i < login :: logins[i].stage != Issued) ==>
            InTurn(s, a)
    ensures next.sessions == s.sessions
    ensures Stands(next, logins[login := logins[login].(stage := Settled(true))], inbox,
                   users[logins[login].user := logins[login].conn], open)
  {
    hide Remembers;
    hide LoginScript;
    hide Issue;
    hide Connections.Next;
    hide Kicked;
    a, next := Bind(login), AfterBind(s, login);
    StageIsNotRemembered(s.sessions, logins, login, Settled(true));
  }

  lemma GivenUp(config: Heartbeat.Config, s: System, logins: seq<Login>, inbox: seq<nat>, users: map<int, string>,
                open: set<string>, login: nat) returns (a: Action, next: System)
    requires Stands(s, logins, inbox, users, open) && login < |logins| && logins[login].stage == Answered
    ensures a == GiveUp(login)
    ensures Displacement.Next(config, s, a, next) && Shaped(next) && InStep(s, a)
    ensures Stands(next, logins[login := logins[login].(stage := Settled(false))], inbox, users, open)
  {
    hide Remembers;
    hide LoginScript;
    hide Issue;
    hide Connections.Next;
    hide Kicked;
    a, next := GiveUp(login), WithStage(s, login, Settled(false));
    StageIsNotRemembered(s.sessions, logins, login, Settled(false));
  }

  lemma Connected(config: Heartbeat.Config, s: System, t: Tables, used: set<string>, id: string, socket: nat)
    returns (a: Action, next: System)
    requires Shaped(s) && s.gateways == [t] && s.everUsed == [used] && id !in used && id !in t.connections
    ensures a == Local(0, Register(id, Socket(socket), 1))
    ensures next == s.(gateways := [Registered(t, id, Socket(socket), 1)], everUsed := [used + {id}])
    ensures Displacement.Next(config, s, a, next) && Shaped(next) && InStep(s, a)
  {
    hide LoginScript;
    hide Issue;
    hide Registered;
    a := Local(0, Register(id, Socket(socket), 1));
    next := s.(gateways := [Registered(t, id, Socket(socket), 1)], everUsed := [used + {id}]);
    assert next.gateways == s.gateways[0 := next.gateways[0]];
    assert next.everUsed == s.everUsed[0 := used + {id}];
  }

  lemma Opened(config: Heartbeat.Config) returns (states: seq<System>, actions: seq<Action>)
    ensures |states| == |actions| + 1 && KickRun(config, states, actions)
    ensures Stands(states[|actions|], [], [], map[], {FIRST, SECOND}) && Unexpired(states[|actions|].sessions)
  {
    hide Displacement.Next;
    hide Orderly;
    hide Announced;
    hide InTurn;
    hide Faithful;
    var s := Begin(1);
    assert s.gateways == [EMPTY] && s.everUsed == [{}] && s.inbox == [[]];
    StartIsFaithful();
    states, actions := [s], [];
    var a, next := Connected(config, s, EMPTY, {}, FIRST, 1);
    states, actions := Extend(config, states, actions, a, next);
    assert FIRST != SECOND;
    var one := next.gateways[0];
    a, next := Connected(config, next, one, {} + {FIRST}, SECOND, 2);
    states, actions := Extend(config, states, actions, a, next);
    hide KickRun;
    hide OneDevice.Run;
    assert {} + {FIRST} + {SECOND} == {FIRST, SECOND};
    assert next.gateways[0].connections.Keys == {FIRST, SECOND};
  }

  /** The user is logged in on the first connection. */
  lemma LoggedIn(config: Heartbeat.Config, user: nat, t1: string) returns (states: seq<System>, actions: seq<Action>)
    requires Bindable(user) && t1 != ""
    ensures |states| == |actions| + 1 && KickRun(config, states, actions)
    ensures Stands(states[|actions|], [Login(user, 0, FIRST, t1, "", Settled(true))], [], map[user := FIRST],
            {FIRST, SECOND})
    ensures Unexpired(states[|actions|].sessions)
  {
    hide KickRun;
    hide Displacement.Next;
    hide Stands;
    hide Orderly;
    hide Announced;
    hide InTurn;
    hide Unexpired;
    var open := {FIRST, SECOND};
    states, actions := Opened(config);
    RunOf(config, states, actions);
    var login := Login(user, 0, FIRST, t1, "", Issued);
    var a, next := Scripted(config, states[|actions|], [], [], map[], open, user, t1, FIRST, "");
    states, actions := Extend(config, states, actions, a, next);
    assert [] + [login] == [login];
    a, next := Published(config, states[|actions|], [login], [], map[], open, 0, {});
    states, actions := Extend(config, states, actions, a, next);
    assert [login][0 := login.(stage := Answered)] == [login.(stage := Answered)];
    login := login.(stage := Answered);
    a, next := BoundTo(config, states[|actions|], [login], [], map[], open, 0);
    states, actions := Extend(config, states, actions, a, next);
    assert [login][0 := login.(stage := Settled(true))] == [login.(stage := Settled(true))];
    assert map[][user as int := FIRST] == map[user as int := FIRST];
  }

  /** The user is logged in on the first connection and the script of a second login has just displaced that session. */
  lemma Relogin(config: Heartbeat.Config, user: nat, t1: string, t2: string)
    returns (states: seq<System>, actions: seq<Action>)
    requires Bindable(user) && t1 != "" && t2 != "" && t1 != t2
    ensures |states| == |actions| + 1 && KickRun(config, states, actions)
    ensures Stands(states[|actions|],
                   [Login(user, 0, FIRST, t1, "", Settled(true)), Login(user, 0, SECOND, t2, t1, Issued)],
                   [], map[user := FIRST], {FIRST, SECOND})
    ensures Unexpired(states[|actions|].sessions)
  {
    hide KickRun;
    hide Displacement.Next;
    hide Stands;
    hide Orderly;
    hide Announced;
    hide InTurn;
    states, actions := LoggedIn(config, user, t1);
    RunOf(config, states, actions);
    var first, second := Login(user, 0, FIRST, t1, "", Settled(true)), Login(user, 0, SECOND, t2, t1, Issued);
    LogIsNotEmpty(states[|actions|], [first], [], map[user := FIRST], {FIRST, SECOND});
    var users, open := map[user as int := FIRST], {FIRST, SECOND};
    var a, next := Scripted(config, states[|actions|], [first], [], users, open, user, t2, SECOND, t1);
    states, actions := Extend(config, states, actions, a, next);
    assert [first] + [second] == [first, second];
  }

  lemma LogIsNotEmpty(s: System, logins: seq<Login>, inbox: seq<nat>, users: map<int, string>, open: set<string>)
    requires Stands(s, logins, inbox, users, open) && logins != [] && Unexpired(s.sessions)
    ensures !RunOut(s.sessions)
  {
    hide Faithful;
    assert s.sessions.log[0].Expiry() == TTL;
  }

  lemma RunOf(config: Heartbeat.Config, states: seq<System>, actions: seq<Action>)
    requires KickRun(config, states, actions) || AnnouncedRun(config, states, actions)
    ensures OneDevice.Run(config, states, actions) && OrderlyRun(config, states, actions) &&
            AnnouncedRun(config, states, actions)
  {}

  // ----- what goes wrong -----

  /** Two logins of one user hold different open connections. */
  predicate TwoOpen(s: System, a: nat, b: nat)
    requires Shaped(s)
  {
    && OpenBound(s, a) && OpenBound(s, b) && s.logins[a].user == s.logins[b].user
    && (s.logins[a].gateway, s.logins[a].conn) != (s.logins[b].gateway, s.logins[b].conn)
  }

  lemma OpenHere(s: System, logins: seq<Login>, inbox: seq<nat>, users: map<int, string>, open: set<string>, l: nat)
    requires Stands(s, logins, inbox, users, open) && l < |logins|
    ensures Shaped(s) && s.logins == logins && s.inbox == [inbox]
    ensures OpenBound(s, l) <==> logins[l].stage == Settled(true) && logins[l].conn in open
  {
    hide Remembers;
  }

  /** Publishing the second login to nobody and binding it leaves two open connections. */
  lemma BindUnpublished(config: Heartbeat.Config,
                        before: seq<System>, past: seq<Action>, user: nat, t1: string, t2: string, replaced: string)
    returns (states: seq<System>, actions: seq<Action>)
    requires Bindable(user) && |before| == |past| + 1 && OneDevice.Run(config, before, past)
    requires Stands(before[|past|],
                    [Login(user, 0, FIRST, t1, "", Settled(true)), Login(user, 0, SECOND, t2, replaced, Issued)],
                    [], map[user := FIRST], {FIRST, SECOND})
    ensures |states| == |actions| + 1 && OneDevice.Run(config, states, actions)
    ensures TwoOpen(states[|actions|], 0, 1)
  {
    hide Displacement.Next;
    hide Stands;
    hide Orderly;
    var open, users := {FIRST, SECOND}, map[user as int := FIRST];
    var first, second := Login(user, 0, FIRST, t1, "", Settled(true)), Login(user, 0, SECOND, t2, replaced, Issued);
    var a, next := Published(config, before[|past|], [first, second], [], users, open, 1, {});
    states, actions := Extend(config, before, past, a, next);
    assert [first, second][1 := second.(stage := Answered)] == [first, second.(stage := Answered)];
    a, next := BoundTo(config, next, [first, second.(stage := Answered)], [], users, open, 1);
    states, actions := Extend(config, states, actions, a, next);
    var logins := [first, second.(stage := Settled(true))];
    assert [first, second.(stage := Answered)][1 := second.(stage := Settled(true))] == logins;
    OpenHere(next, logins, [], users[user := SECOND], open, 0);
    OpenHere(next, logins, [], users[user := SECOND], open, 1);
    assert FIRST != SECOND;
  }

  /**
    A displacement that is not published, as when Register ignores it, leaves the user with two open
    connections once the new login is bound.
   */
  lemma SilentReloginLeavesTwo(config: Heartbeat.Config, user: nat, t1: string, t2: string)
    returns (states: seq<System>, actions: seq<Action>)
    requires Bindable(user) && t1 != "" && t2 != "" && t1 != t2
    ensures |states| == |actions| + 1 && OneDevice.Run(config, states, actions)
    ensures TwoOpen(states[|actions|], 0, 1)
  {
    hide AnnouncedRun;
    hide KickRun;
    hide Displacement.Next;
    hide Stands;
    states, actions := Relogin(config, user, t1, t2);
    RunOf(config, states, actions);
    states, actions := BindUnpublished(config, states, actions, user, t1, t2, t1);
  }

  /** A session that runs out under its open connection leaves nothing to displace, and the connection stays. */
  lemma ExpiryLeavesTwo(config: Heartbeat.Config, user: nat, t1: string, t2: string)
    returns (states: seq<System>, actions: seq<Action>)
    requires Bindable(user) && t1 != "" && t2 != "" && t1 != t2
    ensures |states| == |actions| + 1 && OneDevice.Run(config, states, actions)
    ensures TwoOpen(states[|actions|], 0, 1)
  {
    hide AnnouncedRun;
    hide KickRun;
    hide Displacement.Next;
    hide Stands;
    hide Orderly;
    states, actions := LoggedIn(config, user, t1);
    RunOf(config, states, actions);
    var first, second := Login(user, 0, FIRST, t1, "", Settled(true)), Login(user, 0, SECOND, t2, "", Issued);
    var users := map[user as int := FIRST];
    var a, next := Waited(config, states[|actions|], [first], [], users, {FIRST, SECOND});
    states, actions := Extend(config, states, actions, a, next);
    a, next := Scripted(config, next, [first], [], users, {FIRST, SECOND}, user, t2, SECOND, "");
    states, actions := Extend(config, states, actions, a, next);
    assert [first] + [second] == [first, second];
    states, actions := BindUnpublished(config, states, actions, user, t1, t2, "");
  }

  lemma Waited(config: Heartbeat.Config, s: System, logins: seq<Login>,
               inbox: seq<nat>, users: map<int, string>, open: set<string>)
    returns (a: Action, next: System)
    requires Stands(s, logins, inbox, users, open) && Unexpired(s.sessions)
    ensures a == Action.Tick(TTL) && Displacement.Next(config, s, a, next) && Shaped(next)
    ensures Stands(next, logins, inbox, users, open) && RunOut(next.sessions)
  {
    hide Faithful;
    a := Action.Tick(TTL);
    next := s.(sessions := Apply(s.sessions, SessionStore.Tick(TTL)));
    TickKeeps(s.sessions, TTL);
  }

  /**
    An invalidate that is handled after its own login was bound finds the user on two open connections,
    closes the new one, and leaves the old one open.
   */
  lemma LateKickClosesTheNewConnection(config: Heartbeat.Config, user: nat, t1: string, t2: string)
    returns (states: seq<System>, actions: seq<Action>)
    requires Bindable(user) && t1 != "" && t2 != "" && t1 != t2
    ensures |states| == |actions| + 1 >= 2 && OneDevice.Run(config, states, actions)
    ensures var last := |actions| - 1;
            && actions[last] == HandleInvalidate(0) && states[last].inbox == [[1]]
            && TwoOpen(states[last], 0, 1)
            && OpenBound(states[last + 1], 0) && !OpenBound(states[last + 1], 1)
  {
    hide AnnouncedRun;
    hide KickRun;
    hide Displacement.Next;
    hide Stands;
    hide Orderly;
    var open, users := {FIRST, SECOND}, map[user as int := FIRST];
    states, actions := Relogin(config, user, t1, t2);
    RunOf(config, states, actions);
    var logins := [Login(user, 0, FIRST, t1, "", Settled(true)), Login(user, 0, SECOND, t2, t1, Issued)];
    var a, next := Published(config, states[|actions|], logins, [], users, open, 1, {0});
    states, actions := Extend(config, states, actions, a, next);
    logins := logins[1 := logins[1].(stage := Answered)];
    assert [] + [1 as nat] == [1];
    a, next := BoundTo(config, states[|actions|], logins, [1], users, open, 1);
    states, actions := Extend(config, states, actions, a, next);
    logins, users := logins[1 := logins[1].(stage := Settled(true))], users[user := SECOND];
    OpenHere(next, logins, [1], users, open, 0);
    OpenHere(next, logins, [1], users, open, 1);
    assert FIRST != SECOND;
    assert users == map[user := SECOND];
    a, next := Handled(config, states[|actions|], logins, [1], users, open, user, SECOND);
    states, actions := Extend(config, states, actions, a, next);
    OpenHere(next, logins, [1][1..], map[], open - {SECOND}, 0);
    OpenHere(next, logins, [1][1..], map[], open - {SECOND}, 1);
  }

  // ----- replies that arrive late, and logins bound where nothing was held -----

  /**
    The first login was answered but its bind is late; the second displaced it, was published, and its
    invalidate waits at a gateway that holds nothing of the user.
   */
  lemma TwoAnswered(config: Heartbeat.Config, user: nat, t1: string, t2: string)
    returns (states: seq<System>, actions: seq<Action>)
    requires Bindable(user) && t1 != "" && t2 != "" && t1 != t2
    ensures |states| == |actions| + 1 && KickRun(config, states, actions)
    ensures Stands(states[|actions|],
                   [Login(user, 0, FIRST, t1, "", Answered), Login(user, 0, SECOND, t2, t1, Answered)],
                   [1], map[], {FIRST, SECOND})
  {
    hide KickRun;
    hide Displacement.Next;
    hide Stands;
    hide Orderly;
    hide Announced;
    hide InTurn;
    var open := {FIRST, SECOND};
    states, actions := Opened(config);
    RunOf(config, states, actions);
    var first, second := Login(user, 0, FIRST, t1, "", Issued), Login(user, 0, SECOND, t2, t1, Issued);
    var a, next := Scripted(config, states[|actions|], [], [], map[], open, user, t1, FIRST, "");
    states, actions := Extend(config, states, actions, a, next);
    assert [] + [first] == [first];
    a, next := Published(config, next, [first], [], map[], open, 0, {});
    states, actions := Extend(config, states, actions, a, next);
    assert [first][0 := first.(stage := Answered)] == [first.(stage := Answered)];
    first := first.(stage := Answered);
    LogIsNotEmpty(next, [first], [], map[], open);
    a, next := Scripted(config, next, [first], [], map[], open, user, t2, SECOND, t1);
    states, actions := Extend(config, states, actions, a, next);
    assert [first] + [second] == [first, second];
    a, next := Published(config, next, [first, second], [], map[], open, 1, {0});
    states, actions := Extend(config, states, actions, a, next);
    assert [first, second][1 := second.(stage := Answered)] == [first, second.(stage := Answered)];
    assert [] + [1 as nat] == [1];
  }

  /**
    A reply that is bound after the next login's leaves both connections open, with no invalidate left to
    close either.
   */
  lemma LateReplyLeavesTwo(config: Heartbeat.Config, user: nat, t1: string, t2: string)
    returns (states: seq<System>, actions: seq<Action>)
    requires Bindable(user) && t1 != "" && t2 != "" && t1 != t2
    ensures |states| == |actions| + 1 >= 2 && OneDevice.Run(config, states, actions)
    ensures var last := |actions| - 1;
            && KickRun(config, states[..last + 1], actions[..last])
            && actions[last] == Bind(0) && |states[last].logins| == 2
            && states[last].inbox == [[]] && !Pursued(states[last], 0)
            && TwoOpen(states[last + 1], 0, 1)
  {
    hide KickRun;
    hide Displacement.Next;
    hide Stands;
    hide Orderly;
    hide Announced;
    hide InTurn;
    var open := {FIRST, SECOND};
    states, actions := TwoAnswered(config, user, t1, t2);
    RunOf(config, states, actions);
    var first, second := Login(user, 0, FIRST, t1, "", Answered), Login(user, 0, SECOND, t2, t1, Answered);
    var a, next := HandledIdly(config, states[|actions|], [first, second], [1], open);
    states, actions := Extend(config, states, actions, a, next);
    assert [1 as nat][1..] == [];
    a, next := BoundTo(config, next, [first, second], [], map[], open, 1);
    states, actions := Extend(config, states, actions, a, next);
    var users, boundSecond := map[user as int := SECOND], second.(stage := Settled(true));
    assert map[][user as int := SECOND] == users && [first, second][1 := boundSecond] == [first, boundSecond];
    OpenHere(next, [first, boundSecond], [], users, open, 1);
    assert !Pursues(next, 1, 0);
    a, next := BoundTo(config, next, [first, boundSecond], [], users, open, 0);
    ghost var before, past := states, actions;
    states, actions := Extend(config, states, actions, a, next);
    assert states[..|actions|] == before && actions[..|actions| - 1] == past;
    var logins := [first.(stage := Settled(true)), boundSecond];
    assert [first, boundSecond][0 := first.(stage := Settled(true))] == logins;
    OpenHere(next, logins, [], users[user := FIRST], open, 0);
    OpenHere(next, logins, [], users[user := FIRST], open, 1);
    assert FIRST != SECOND;
  }

  /**
    A reply that is bound after the next login was handled and given up leaves a connection open that is
    not the latest login's, although nothing is outstanding.
   */
  lemma LateReplyOutlivesTheLatest(config: Heartbeat.Config, user: nat, t1: string, t2: string)
    returns (states: seq<System>, actions: seq<Action>)
    requires Bindable(user) && t1 != "" && t2 != "" && t1 != t2
    ensures |states| == |actions| + 1 >= 2 && OrderlyRun(config, states, actions)
    ensures var last := |actions| - 1;
            && KickRun(config, states[..last + 1], actions[..last])
            && actions[last] == Bind(0) && |states[last].logins| == 2 && !StillChased(states[last], 0)
            && OpenBound(states[last + 1], 0) && Quiet(states[last + 1], user, 0) && !IsLatest(states[last + 1], 0)
  {
    hide KickRun;
    hide Displacement.Next;
    hide Stands;
    var open := {FIRST, SECOND};
    states, actions := TwoAnswered(config, user, t1, t2);
    RunOf(config, states, actions);
    hide AnnouncedRun;
    hide OrderlyRun;
    var first, second := Login(user, 0, FIRST, t1, "", Answered), Login(user, 0, SECOND, t2, t1, Answered);
    var a, next := HandledIdly(config, states[|actions|], [first, second], [1], open);
    states, actions := Extend(config, states, actions, a, next);
    assert [1 as nat][1..] == [];
    a, next := GivenUp(config, next, [first, second], [], map[], open, 1);
    states, actions := Extend(config, states, actions, a, next);
    var gone := second.(stage := Settled(false));
    assert [first, second][1 := gone] == [first, gone];
    OpenHere(next, [first, gone], [], map[], open, 1);
    assert Orderly(next, Bind(0)) && !StillChased(next, 0);
    a, next := BoundTo(config, next, [first, gone], [], map[], open, 0);
    ghost var before, past := states, actions;
    states, actions := Extend(config, states, actions, a, next);
    assert states[..|actions|] == before && actions[..|actions| - 1] == past;
    var logins := [first.(stage := Settled(true)), gone];
    assert [first, gone][0 := first.(stage := Settled(true))] == logins;
    OpenHere(next, logins, [], map[][user as int := FIRST], open, 0);
    assert next.logins[1].user == next.logins[0].user;
  }

  /**
    A login bound while its own invalidate still waits at a gateway that holds nothing of its user, which
    orderly runs allow, is closed by that invalidate.
   */
  lemma OwnKickClosesTheConnection(config: Heartbeat.Config, user: nat, t1: string, t2: string)
    returns (states: seq<System>, actions: seq<Action>)
    requires Bindable(user) && t1 != "" && t2 != "" && t1 != t2
    ensures |states| == |actions| + 1 >= 3 && AnnouncedRun(config, states, actions)
    ensures var last := |actions| - 1;
            && KickRun(config, states[..last], actions[..last - 1])
            && actions[last - 1] == Bind(1) && |states[last - 1].logins| == 2 && !OnlyLaterPending(states[last - 1], 1)
            && actions[last] == HandleInvalidate(0) && states[last].inbox == [[1]]
            && OpenBound(states[last], 1) && !OpenBound(states[last + 1], 1)
  {
    hide KickRun;
    hide AnnouncedRun;
    hide Displacement.Next;
    hide Stands;
    hide Orderly;
    hide Announced;
    hide InTurn;
    var open := {FIRST, SECOND};
    states, actions := TwoAnswered(config, user, t1, t2);
    RunOf(config, states, actions);
    ghost var before, past := states, actions;
    var first, second := Login(user, 0, FIRST, t1, "", Answered), Login(user, 0, SECOND, t2, t1, Answered);
    OpenHere(states[|actions|], [first, second], [1], map[], open, 1);
    assert 1 as nat in states[|actions|].inbox[0];
    var a, next := BoundTo(config, states[|actions|], [first, second], [1], map[], open, 1);
    states, actions := Extend(config, states, actions, a, next);
    var users, logins := map[user as int := SECOND], [first, second.(stage := Settled(true))];
    assert map[][user as int := SECOND] == users && [first, second][1 := second.(stage := Settled(true))] == logins;
    OpenHere(next, logins, [1], users, open, 1);
    a, next := Handled(config, next, logins, [1], users, open, user, SECOND);
    states, actions := Extend(config, states, actions, a, next);
    OpenHere(next, logins, [1][1..], map[], open - {SECOND}, 1);
    assert states[..|actions| - 1] == before && actions[..|actions| - 2] == past;
  }

  /** A login that is given up before its displacement is published leaves the old connection open for good. */
  lemma UnannouncedLeavesTheOldConnection(config: Heartbeat.Config, user: nat, t1: string, t2: string)
    returns (states: seq<System>, actions: seq<Action>)
    requires Bindable(user) && t1 != "" && t2 != "" && t1 != t2
    ensures |states| == |actions| + 1 && OrderlyRun(config, states, actions)
    ensures var s := states[|actions|];
            && OpenBound(s, 0) && |s.logins| == 2 && s.logins[0].user == s.logins[1].user == user
            && s.logins[1].stage == Settled(false) && Quiet(s, user, 0) && !IsLatest(s, 0)
  {
    states, actions := Relogin(config, user, t1, t2);
    RunOf(config, states, actions);
    var s := states[|actions|];
    var next := WithStage(s, 1, Settled(false));
    OpenHere(s, s.logins, s.inbox[0], s.gateways[0].users, s.gateways[0].connections.Keys, 0);
    hide AnnouncedRun;
    hide KickRun;
    hide OrderlyRun;
    hide Faithful;
    states, actions := Extend(config, states, actions, GiveUp(1), next);
  }

  /**
    An invalidate that overtakes another of its user closes the connection that one was meant for:
    the kick of login 2, which displaced login 1, closes the connection of login 0.
   */
  lemma OvertakingKickClosesAnothersConnection(config: Heartbeat.Config, user: nat, t1: string, t2: string, t3: string)
    returns (states: seq<System>, actions: seq<Action>)
    requires Bindable(user) && t1 != "" && t2 != "" && t3 != "" && t1 != t2 && t1 != t3 && t2 != t3
    ensures |states| == |actions| + 1 >= 2 && AnnouncedRun(config, states, actions)
    ensures Stands(states[|actions|],
                   [Login(user, 0, FIRST, t1, "", Settled(true)), Login(user, 0, SECOND, t2, t1, Issued),
                    Login(user, 0, SECOND, t3, t2, Answered)], [], map[], {SECOND})
    ensures var last := |actions| - 1;
            && actions[last] == HandleInvalidate(0) && states[last].inbox == [[2]]
            && OpenBound(states[last], 0) && !OpenBound(states[last + 1], 0)
  {
    hide AnnouncedRun;
    hide KickRun;
    hide Displacement.Next;
    hide Stands;
    hide Orderly;
    var open, users := {FIRST, SECOND}, map[user as int := FIRST];
    states, actions := Relogin(config, user, t1, t2);
    RunOf(config, states, actions);
    var first := Login(user, 0, FIRST, t1, "", Settled(true));
    var second := Login(user, 0, SECOND, t2, t1, Issued);
    var third := Login(user, 0, SECOND, t3, t2, Issued);
    LogIsNotEmpty(states[|actions|], [first, second], [], users, open);
    var a, next := Scripted(config, states[|actions|], [first, second], [], users, open, user, t3, SECOND, t2);
    states, actions := Extend(config, states, actions, a, next);
    assert [first, second] + [third] == [first, second, third];
    a, next := Published(config, states[|actions|], [first, second, third], [], users, open, 2, {0});
    states, actions := Extend(config, states, actions, a, next);
    var logins := [first, second, third.(stage := Answered)];
    assert [first, second, third][2 := third.(stage := Answered)] == logins && [] + [2 as nat] == [2];
    OpenHere(next, logins, [2], users, open, 0);
    a, next := Handled(config, states[|actions|], logins, [2], users, open, user, FIRST);
    states, actions := Extend(config, states, actions, a, next);
    assert [2 as nat][1..] == [] && FIRST != SECOND && open - {FIRST} == {SECOND};
    OpenHere(next, logins, [], map[], {SECOND}, 0);
  }

  /**
    An invalidate that is published late, for a login that never bound, closes the connection of a
    newer login, although every displacement is published and each is handled before its own bind.
   */
  lemma StaleKickClosesANewerConnection(config: Heartbeat.Config, user: nat, t1: string, t2: string, t3: string)
    returns (states: seq<System>, actions: seq<Action>)
    requires Bindable(user) && t1 != "" && t2 != "" && t3 != "" && t1 != t2 && t1 != t3 && t2 != t3
    ensures |states| == |actions| + 1 >= 2 && AnnouncedRun(config, states, actions)
    ensures var last := |actions| - 1;
            && actions[last] == HandleInvalidate(0) && states[last].inbox == [[1]]
            && OpenBound(states[last], 2) && !OpenBound(states[last + 1], 2)
  {
    hide AnnouncedRun;
    hide KickRun;
    hide Displacement.Next;
    hide Stands;
    hide Orderly;
    states, actions := OvertakingKickClosesAnothersConnection(config, user, t1, t2, t3);
    RunOf(config, states, actions);
    var first := Login(user, 0, FIRST, t1, "", Settled(true));
    var second := Login(user, 0, SECOND, t2, t1, Issued);
    var third := Login(user, 0, SECOND, t3, t2, Answered);
    var a, next := BoundTo(config, states[|actions|], [first, second, third], [], map[], {SECOND}, 2);
    states, actions := Extend(config, states, actions, a, next);
    third := third.(stage := Settled(true));
    var users := map[user as int := SECOND];
    assert map[][user as int := SECOND] == users;
    assert [first, second, third.(stage := Answered)][2 := third] == [first, second, third];
    a, next := Published(config, states[|actions|], [first, second, third], [], users, {SECOND}, 1, {0});
    states, actions := Extend(config, states, actions, a, next);
    var logins := [first, second.(stage := Answered), third];
    assert [first, second, third][1 := second.(stage := Answered)] == logins && [] + [1 as nat] == [1];
    OpenHere(next, logins, [1], users, {SECOND}, 2);
    a, next := Handled(config, states[|actions|], logins, [1], users, {SECOND}, user, SECOND);
    states, actions := Extend(config, states, actions, a, next);
    OpenHere(next, logins, [1][1..], map[], {SECOND} - {SECOND}, 2);
  }
}
