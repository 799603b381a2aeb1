/**
  The gateway's connection manager: registered connections, the user-to-connection table, the sweep
  for timed-out connections, and the counters. Every method is one region under the manager's lock.
 */
module Connections {
  import opened Wrappers
  import opened Heartbeat

  /** A registered connection may be a nil socket. */
  datatype Conn = NoSocket | Socket(id: nat)

  datatype Metrics = Metrics(total: int, active: int, disconnected: int, failures: int)

  datatype Tables = Tables(
    connections: map<string, Conn>,
    users: map<int, string>,
    metrics: Metrics,
    beats: map<string, Beat>)

  /** The clock as one sweep reads it for one client: for the heartbeat check, and for the idle check. */
  datatype Reading = Reading(check: int, idle: int)

  type Clock = string -> Reading

  const EMPTY := Tables(map[], map[], Metrics(0, 0, 0, 0), map[])

  /** ActiveConnections after `n` decrements, each followed by the reset of a negative count. */
  function DownBy(active: int, n: nat): int {
    if n > 0 && active - n < 0 then 0 else active - n
  }

  // ----- what each operation does to the tables -----

  function Registered(t: Tables, id: string, conn: Conn, now: int): Tables {
    if id in t.connections then t
    else t.(connections := t.connections[id := conn],
            metrics := t.metrics.(total := t.metrics.total + 1, active := t.metrics.active + 1),
            beats := t.beats[id := Pinged(if id in t.beats then Some(t.beats[id]) else None, now)])
  }

  /** Only one of the user entries of a closing connection is cleared; map order decides which. */
  ghost predicate Unregistered(t: Tables, id: string, next: Tables) {
    if id !in t.connections then next == t
    else
      && next == t.(connections := t.connections - {id},
                    metrics := t.metrics.(active := DownBy(t.metrics.active, 1)),
                    users := next.users)
      && (if exists u :: u in t.users && t.users[u] == id
          then exists u :: u in t.users && t.users[u] == id && next.users == t.users - {u}
          else next.users == t.users)
  }

  function Bound(t: Tables, user: int, id: string): Tables {
    t.(users := t.users[user := id])
  }

  /** Kicking by user drops the user entry and whatever connection it names, registered or not. */
  function Kicked(t: Tables, user: int): Tables {
    if user !in t.users then t
    else t.(connections := t.connections - {t.users[user]},
            users := t.users - {user},
            metrics := t.metrics.(active := DownBy(t.metrics.active, 1), disconnected := t.metrics.disconnected + 1))
  }

  /** The user entry names a connection that is no longer registered. */
  predicate Dangling(t: Tables, user: int) {
    user in t.users && t.users[user] !in t.connections
  }

  function BeatsChecked(config: Config, t: Tables, clock: Clock): map<string, Beat> {
    map id | id in t.beats :: if id in t.connections then Checked(config, t.beats[id], clock(id).check) else t.beats[id]
  }

  datatype Verdict = Overdue | Idle | Fine

  /** What one check finds about one client. */
  function VerdictOf(config: Config, t: Tables, id: string, reading: Reading): Verdict {
    if id !in t.beats then Fine
    else if t.beats[id].alive && !Checked(config, t.beats[id], reading.check).alive then Overdue
    else if t.beats[id].Idle(config, reading.idle) then Idle
    else Fine
  }

  function HeartbeatDue(config: Config, t: Tables, clock: Clock): set<string> {
    set id | id in t.connections && VerdictOf(config, t, id, clock(id)).Overdue?
  }

  function IdleDue(config: Config, t: Tables, clock: Clock): set<string> {
    set id | id in t.connections && VerdictOf(config, t, id, clock(id)).Idle?
  }

  function Swept(config: Config, t: Tables, clock: Clock): Tables {
    var failed, idle := HeartbeatDue(config, t, clock), IdleDue(config, t, clock);
    Tables(t.connections - failed - idle,
           t.users,
           t.metrics.(active := DownBy(t.metrics.active, |failed| + |idle|),
                      disconnected := t.metrics.disconnected + |failed| + |idle|,
                      failures := t.metrics.failures + |failed|),
           BeatsChecked(config, t, clock))
  }

  class ConnectionManager {
    const heartbeat: HeartbeatManager
    var connections: map<string, Conn>
    var userConnections: map<int, string>
    var metrics: Metrics

    constructor (config: Config)
      ensures fresh(heartbeat) && heartbeat.config == config && Contents() == EMPTY
    {
      heartbeat := new HeartbeatManager(config);
      connections := map[];
      userConnections := map[];
      metrics := Metrics(0, 0, 0, 0);
    }

    ghost function Contents(): Tables
      reads this, heartbeat
    {
      Tables(connections, userConnections, metrics, heartbeat.beats)
    }

    method RegisterConnection(id: string, conn: Conn, now: int) returns (ok: bool)
      modifies this, heartbeat
      ensures ok <==> id !in old(connections)
      ensures Contents() == Registered(old(Contents()), id, conn, now)
    {
      if id in connections { return false; }
      connections := connections[id := conn];
      metrics := metrics.(total := metrics.total + 1, active := metrics.active + 1);
      heartbeat.RecordPing(id, now);
      return true;
    }

    method DropActive()
      modifies this
      ensures metrics == old(metrics).(active := DownBy(old(metrics).active, 1))
      ensures connections == old(connections) && userConnections == old(userConnections)
    {
      metrics := metrics.(active := metrics.active - 1);
      if metrics.active < 0 {
        metrics := metrics.(active := 0);
      }
    }

    method UnregisterConnection(id: string)
      modifies this
      ensures Unregistered(old(Contents()), id, Contents())
    {
      if id in connections {
        connections := connections - {id};
        DropActive();
        if u :| u in userConnections && userConnections[u] == id {
          userConnections := userConnections - {u};
        }
      }
    }

    method RegisterUserConnection(user: int, id: string)
      modifies this
      ensures Contents() == Bound(old(Contents()), user, id)
    {
      userConnections := userConnections[user := id];
    }

    /** Returns the socket that is then told it was replaced and closed, outside the lock. */
    method DisconnectByUserID(user: int) returns (toClose: Option<nat>)
      modifies this
      ensures Contents() == Kicked(old(Contents()), user)
      ensures toClose == (if user in old(userConnections) && old(userConnections)[user] in old(connections)
                             && old(connections)[old(userConnections)[user]].Socket?
                          then Some(old(connections)[old(userConnections)[user]].id) else None)
    {
      if user !in userConnections { return None; }
      var id := userConnections[user];
      if id !in connections || connections[id].NoSocket? {
        connections := connections - {id};
        userConnections := userConnections - {user};
        metrics := metrics.(disconnected := metrics.disconnected + 1);
        DropActive();
        return None;
      }
      toClose := Some(connections[id].id);
      connections := connections - {id};
      userConnections := userConnections - {user};
      metrics := metrics.(disconnected := metrics.disconnected + 1);
      DropActive();
    }

    method DisconnectClient(id: string)
      modifies this
      ensures connections == old(connections) - {id} && userConnections == old(userConnections)
      ensures metrics ==
              old(metrics).(active := DownBy(old(metrics).active, 1), disconnected := old(metrics).disconnected + 1)
    {
      connections := connections - {id};
      metrics := metrics.(disconnected := metrics.disconnected + 1);
      DropActive();
    }

    /** Check every connection once, in any order, then drop the overdue ones and the idle ones. */
    method CheckAllConnections(clock: Clock)
      modifies this, heartbeat
      ensures Contents() == Swept(heartbeat.config, old(Contents()), clock)
    {
      var overdue, idle := FindTimedOut(clock);
      DisconnectAll(overdue);
      metrics := metrics.(failures := metrics.failures + |overdue|);
      DisconnectAll(idle);
    }

    method FindTimedOut(clock: Clock) returns (overdue: set<string>, idle: set<string>)
      modifies heartbeat
      ensures heartbeat.beats == BeatsChecked(heartbeat.config, old(Contents()), clock)
      ensures overdue == HeartbeatDue(heartbeat.config, old(Contents()), clock)
      ensures idle == IdleDue(heartbeat.config, old(Contents()), clock)
    {
      ghost var before := Contents();
      overdue, idle := {}, {};
      var todo := connections.Keys;
      while todo != {}
        invariant todo <= connections.Keys
        invariant heartbeat.beats.Keys == before.beats.Keys
        invariant forall id | id in before.beats ::
                    heartbeat.beats[id] == if id in connections && id !in todo
                                           then Checked(heartbeat.config, before.beats[id], clock(id).check)
                                             else before.beats[id]
        invariant overdue == HeartbeatDue(heartbeat.config, before, clock) - todo
        invariant idle == IdleDue(heartbeat.config, before, clock) - todo
      {
        var id :| id in todo;
        todo := todo - {id};
        var due := CheckOne(id, clock(id));
        if due.Overdue? {
          overdue := overdue + {id};
        } else if due.Idle? {
          idle := idle + {id};
        }
      }
    }

    method CheckOne(id: string, reading: Reading) returns (verdict: Verdict)
      modifies heartbeat
      ensures heartbeat.beats ==
              if id in old(heartbeat.beats)
              then old(heartbeat.beats)[id := Checked(heartbeat.config, old(heartbeat.beats)[id], reading.check)]
              else old(heartbeat.beats)
      ensures verdict == VerdictOf(heartbeat.config, old(Contents()), id, reading)
    {
      var due := heartbeat.CheckTimeout(id, reading.check);
      if due { return Overdue; }
      if heartbeat.config.idleTimeout > 0 {
        var state := heartbeat.GetState(id);
        if state.Some? && state.value.lastActivity != NEVER
           && reading.idle - state.value.lastActivity > heartbeat.config.idleTimeout {
          return Idle;
        }
      }
      return Fine;
    }

    method DisconnectAll(ids: set<string>)
      requires ids <= connections.Keys
      modifies this
      ensures connections == old(connections) - ids && userConnections == old(userConnections)
      ensures metrics == old(metrics).(active := DownBy(old(metrics).active, |ids|),
                                       disconnected := old(metrics).disconnected + |ids|)
    {
      var todo := ids;
      ghost var done: set<string> := {};
      while todo != {}
        invariant done + todo == ids && done !! todo
        invariant connections == old(connections) - done && userConnections == old(userConnections)
        invariant metrics == old(metrics).(active := DownBy(old(metrics).active, |done|),
                                           disconnected := old(metrics).disconnected + |done|)
      {
        var id :| id in todo;
        todo, done := todo - {id}, done + {id};
        DisconnectClient(id);
      }
    }
  }

  // ----- what these operations come to, entry by entry -----

  /** A kick takes away the user entry and the connection it names, and nothing else of either table. */
  lemma KickExactly(t: Tables, user: int)
    requires user in t.users
    ensures var next := Kicked(t, user);
            && (forall u :: u in next.users <==> u in t.users && u != user)
            && (forall u | u in next.users :: next.users[u] == t.users[u])
            && (forall id :: id in next.connections <==> id in t.connections && id != t.users[user])
            && (forall id | id in next.connections :: next.connections[id] == t.connections[id])
            && next.beats == t.beats
            && next.metrics.total == t.metrics.total && next.metrics.failures == t.metrics.failures
            && next.metrics.disconnected == t.metrics.disconnected + 1
            && next.metrics.active == if t.metrics.active >= 1 then t.metrics.active - 1 else 0
  {}

  /** Closing a registered connection takes it away and one of the user entries that name it, if there are any. */
  lemma UnregisterExactly(t: Tables, id: string, next: Tables)
    requires id in t.connections && Unregistered(t, id, next)
    ensures forall i :: i in next.connections <==> i in t.connections && i != id
    ensures forall i | i in next.connections :: next.connections[i] == t.connections[i]
    ensures forall u | u in next.users :: u in t.users && next.users[u] == t.users[u]
    ensures forall u | u in t.users && u !in next.users :: t.users[u] == id
    ensures |t.users| == |next.users| + if exists u :: u in t.users && t.users[u] == id then 1 else 0
    ensures next.beats == t.beats
    ensures next.metrics == t.metrics.(active := if t.metrics.active >= 1 then t.metrics.active - 1 else 0)
  {
    if exists u :: u in t.users && t.users[u] == id {
      var u :| u in t.users && t.users[u] == id && next.users == t.users - {u};
      assert next.users.Keys == t.users.Keys - {u};
      assert |next.users.Keys| == |next.users| && |t.users.Keys| == |t.users|;
    }
  }

  /** A new connection is stored as it came, counted twice, and heard from at that instant. */
  lemma RegisterExactly(t: Tables, id: string, conn: Conn, now: int)
    ensures var next := Registered(t, id, conn, now);
            && (id in t.connections ==> next == t)
            && (id !in t.connections ==>
                  && next.connections == t.connections[id := conn] && next.users == t.users
                  && next.metrics.total == t.metrics.total + 1 && next.metrics.active == t.metrics.active + 1
                  && next.metrics.disconnected == t.metrics.disconnected && next.metrics.failures == t.metrics.failures
                  && id in next.beats && next.beats[id].lastPing == now == next.beats[id].lastActivity
                  && next.beats[id].missed == 0
                  && next.beats[id].alive == (id in t.beats ==> t.beats[id].alive)
                  && forall i | i != id ::
                       (i in next.beats <==> i in t.beats) && (i in t.beats ==> next.beats[i] == t.beats[i]))
  {}

  // ----- whole runs -----

  datatype Op =
    | Register(id: string, conn: Conn, at: int)
    | Unregister(id: string)
    | BindUser(user: int, id: string)
    | Kick(user: int)
    | Sweep(clock: Clock)
    | Ping(id: string, at: int)
    | Pong(id: string, at: int)
    | Activity(id: string, at: int)

  ghost predicate Next(config: Config, t: Tables, op: Op, next: Tables) {
    match op
    case Register(id, conn, at) => at > NEVER && next == Registered(t, id, conn, at)
    case Unregister(id) => Unregistered(t, id, next)
    case BindUser(user, id) => next == Bound(t, user, id)
    case Kick(user) => next == Kicked(t, user)
    case Sweep(clock) => next == Swept(config, t, clock)
    case Ping(id, at) =>
      at > NEVER && next == t.(beats := t.beats[id := Pinged(if id in t.beats then Some(t.beats[id]) else None, at)])
    case Pong(id, at) =>
      at > NEVER && next == if id in t.beats then t.(beats := t.beats[id := Ponged(t.beats[id], at)]) else t
    case Activity(id, at) =>
      at > NEVER && next == if id in t.beats then t.(beats := t.beats[id := t.beats[id].(lastActivity := at)]) else t
  }

  ghost predicate Run(config: Config, states: seq<Tables>, ops: seq<Op>) {
    && |states| == |ops| + 1 && states[0] == EMPTY
    && forall i | 0 <= i < |ops| :: Next(config, states[i], ops[i], states[i + 1])
  }

  lemma RunPrefix(config: Config, states: seq<Tables>, ops: seq<Op>)
    requires Run(config, states, ops) && ops != []
    ensures Run(config, states[..|states| - 1], ops[..|ops| - 1])
  {}

  // ----- the counters -----

  /** How connections left, how many records died of a sweep, and how often a kick met a dangling user entry. */
  datatype Tally = Tally(closed: nat, timedOut: nat, died: nat, kicked: nat, danglingKicks: nat)

  /** The registered connections whose record was alive before and is not any more. */
  function DiedIn(t: Tables, next: Tables): set<string> {
    set id | id in t.connections && id in t.beats && t.beats[id].alive && id in next.beats && !next.beats[id].alive
  }

  function Counted(c: Tally, t: Tables, op: Op, next: Tables): Tally {
    match op
    case Unregister(id) => if id in t.connections then c.(closed := c.closed + 1) else c
    case Sweep(_) =>
      c.(timedOut := c.timedOut + |t.connections.Keys - next.connections.Keys|, died := c.died + |DiedIn(t, next)|)
    case Kick(user) =>
      if Dangling(t, user) then c.(danglingKicks := c.danglingKicks + 1)
      else if user in t.users then c.(kicked := c.kicked + 1)
      else c
    case _ => c
  }

  function Count(states: seq<Tables>, ops: seq<Op>): Tally
    requires |states| == |ops| + 1
    decreases |ops|
  {
    if ops == [] then Tally(0, 0, 0, 0, 0)
    else Counted(Count(states[..|states| - 1], ops[..|ops| - 1]), states[|ops| - 1], ops[|ops| - 1], states[|ops|])
  }

  ghost predicate Balanced(t: Tables, c: Tally) {
    && 0 <= t.metrics.active <= |t.connections|
    && |t.connections| - t.metrics.active <= c.danglingKicks
    && t.metrics.total == |t.connections| + c.closed + c.timedOut + c.kicked
    && t.metrics.disconnected == c.timedOut + c.kicked + c.danglingKicks
    && t.metrics.failures == c.died
  }

  lemma RemoveKeys<V>(m: map<string, V>, ids: set<string>)
    requires ids <= m.Keys
    ensures |m - ids| == |m| - |ids|
    ensures m.Keys - (m - ids).Keys == ids
  {
    var left := m - ids;
    assert left.Keys == m.Keys - ids;
    assert |left.Keys| == |left| && |m.Keys| == |m|;
  }

  lemma RemoveBoth<V>(m: map<string, V>, a: set<string>, b: set<string>)
    requires a <= m.Keys && b <= m.Keys && a !! b
    ensures |m - a - b| == |m| - |a| - |b|
    ensures |m.Keys - (m - a - b).Keys| == |a| + |b|
  {
    RemoveKeys(m, a + b);
    var left := m - (a + b);
    assert m - a - b == left;
  }

  lemma DueApart(config: Config, t: Tables, clock: Clock)
    ensures HeartbeatDue(config, t, clock) <= t.connections.Keys && IdleDue(config, t, clock) <= t.connections.Keys
    ensures HeartbeatDue(config, t, clock) !! IdleDue(config, t, clock)
  {
    hide VerdictOf;
  }

  lemma SweptKeys(config: Config, t: Tables, clock: Clock)
    ensures var failed, idle := HeartbeatDue(config, t, clock), IdleDue(config, t, clock);
            && |t.connections.Keys - Swept(config, t, clock).connections.Keys| == |failed| + |idle|
            && |Swept(config, t, clock).connections| == |t.connections| - |failed| - |idle|
  {
    hide HeartbeatDue;
    hide IdleDue;
    hide BeatsChecked;
    hide DownBy;
    DueApart(config, t, clock);
    RemoveBoth(t.connections, HeartbeatDue(config, t, clock), IdleDue(config, t, clock));
  }

  /**
    Counter drift: in every reachable state the active count lies between zero and the number of
    connections and misses it by no more than the number of kicks that met a dangling entry; the
    total is the connections still there plus every removal; the disconnected count is the timeouts
    plus all kicks, the ones on dangling entries included; and the failures are the records that died.
   */
  lemma {:induction false} CounterDrift(config: Config, states: seq<Tables>, ops: seq<Op>)
    requires Run(config, states, ops)
    ensures Balanced(states[|ops|], Count(states, ops))
    decreases |ops|
  {
    if ops != [] {
      RunPrefix(config, states, ops);
      CounterDrift(config, states[..|states| - 1], ops[..|ops| - 1]);
      StepKeepsBalance(config, states[|ops| - 1], ops[|ops| - 1], states[|ops|],
                       Count(states[..|states| - 1], ops[..|ops| - 1]));
    }
  }

  lemma StepKeepsBalance(config: Config, t: Tables, op: Op, next: Tables, c: Tally)
    requires Next(config, t, op, next) && Balanced(t, c)
    ensures Balanced(next, Counted(c, t, op, next))
  {
    match op
    case Unregister(id) => UnregisterKeepsBalance(t, id, next, c);
    case Sweep(clock) => SweepKeepsBalance(config, t, clock, c);
    case Kick(user) => KickKeepsBalance(t, user, c);
    case Register(id, conn, at) => RegisterKeepsBalance(t, id, conn, at, c);
    case _ => assert next.connections == t.connections && next.metrics == t.metrics;
  }

  lemma RegisterKeepsBalance(t: Tables, id: string, conn: Conn, at: int, c: Tally)
    requires Balanced(t, c)
    ensures Balanced(Registered(t, id, conn, at), c)
  {}

  lemma UnregisterKeepsBalance(t: Tables, id: string, next: Tables, c: Tally)
    requires Unregistered(t, id, next) && Balanced(t, c)
    ensures Balanced(next, Counted(c, t, Unregister(id), next))
  {
    if id in t.connections { RemoveKeys(t.connections, {id}); }
  }

  lemma SweepKeepsBalance(config: Config, t: Tables, clock: Clock, c: Tally)
    requires Balanced(t, c)
    ensures Balanced(Swept(config, t, clock), Counted(c, t, Sweep(clock), Swept(config, t, clock)))
  {
    SweptKeys(config, t, clock);
    DiedOfHeartbeat(config, t, clock);
    hide DiedIn;
    hide HeartbeatDue;
    hide IdleDue;
    hide BeatsChecked;
  }

  /** The records that die of a sweep are those of the connections it finds overdue. */
  lemma DiedOfHeartbeat(config: Config, t: Tables, clock: Clock)
    ensures DiedIn(t, Swept(config, t, clock)) == HeartbeatDue(config, t, clock)
  {
    var next := Swept(config, t, clock);
    hide IdleDue;
    hide DownBy;
    forall id ensures id in DiedIn(t, next) <==> id in HeartbeatDue(config, t, clock) {
      if id in t.beats && id in t.connections {
        assert next.beats[id] == Checked(config, t.beats[id], clock(id).check);
      }
    }
  }

  lemma KickKeepsBalance(t: Tables, user: int, c: Tally)
    requires Balanced(t, c)
    ensures Balanced(Kicked(t, user), Counted(c, t, Kick(user), Kicked(t, user)))
  {
    if user in t.users && t.users[user] in t.connections {
      RemoveKeys(t.connections, {t.users[user]});
    } else if user in t.users {
      assert t.connections - {t.users[user]} == t.connections;
    }
  }

  /** With no kick on a dangling entry the active count is the number of connections. */
  lemma ActiveIsExactWithoutDanglingKicks(config: Config, states: seq<Tables>, ops: seq<Op>)
    requires Run(config, states, ops) && Count(states, ops).danglingKicks == 0
    ensures states[|ops|].metrics.active == |states[|ops|].connections|
  {
    CounterDrift(config, states, ops);
  }

  /**
    An exact count survives a kick exactly when the kick finds no dangling entry, or no connection is left
    to miscount.
   */
  lemma KickKeepsCountExact(t: Tables, user: int)
    requires t.metrics.active == |t.connections|
    ensures Kicked(t, user).metrics.active == |Kicked(t, user).connections| <==>
            !Dangling(t, user) || t.connections == map[]
  {
    if user in t.users {
      if t.users[user] in t.connections {
        RemoveKeys(t.connections, {t.users[user]});
      } else {
        assert t.connections - {t.users[user]} == t.connections;
        assert t.connections == map[] <==> |t.connections| == 0;
      }
    }
  }

  lemma AppendOp(config: Config, states: seq<Tables>, ops: seq<Op>, op: Op, next: Tables)
    returns (states': seq<Tables>, ops': seq<Op>)
    requires Run(config, states, ops) && Next(config, states[|ops|], op, next)
    ensures states' == states + [next] && ops' == ops + [op] && Run(config, states', ops') && states'[|ops'|] == next
  {
    hide Next;
    states', ops' := states + [next], ops + [op];
    forall i | 0 <= i < |ops'| ensures Next(config, states'[i], ops'[i], states'[i + 1]) {
      if i < |ops| {
        assert Next(config, states[i], ops[i], states[i + 1]);
      }
    }
  }

  /** Only connection `id` is registered, its user is bound, and its record was last heard at instant 1. */
  predicate OneUser(config: Config, t: Tables, user: int, id: string) {
    && t.users == map[user := id] && id in t.beats
    && t.metrics.active == |t.connections|
    && (t.connections == map[] || (t.connections.Keys == {id} && t.beats[id].alive && t.beats[id].Base() == 1))
  }

  lemma SweepOneUser(config: Config, t: Tables, user: int, id: string, clock: Clock)
    requires OneUser(config, t, user, id) && t.connections != map[] && clock(id).check - 1 > config.timeout
    ensures var next := Swept(config, t, clock);
            && OneUser(config, next, user, id)
            && (next.connections == map[] || (next.beats[id].missed == t.beats[id].missed + 1 < config.maxMissed))
  {
    var failed, idle := HeartbeatDue(config, t, clock), IdleDue(config, t, clock);
    SweptKeys(config, t, clock);
    assert t.connections.Keys == {id} && |t.connections| == 1;
    if VerdictOf(config, t, id, clock(id)).Fine? {
      assert failed == {} && idle == {};
      assert t.connections - failed - idle == t.connections;
    } else {
      assert Swept(config, t, clock).connections == map[];
    }
  }

  lemma OpenOneUser(config: Config, user: int, id: string, socket: nat) returns (states: seq<Tables>, ops: seq<Op>)
    ensures Run(config, states, ops) && OneUser(config, states[|ops|], user, id)
  {
    var open := Registered(EMPTY, id, Socket(socket), 1);
    states, ops := AppendOp(config, [EMPTY], [], Register(id, Socket(socket), 1), open);
    states, ops := AppendOp(config, states, ops, BindUser(user, id), Bound(open, user, id));
    hide Run;
  }

  /** Sweeps past the timeout drop the connection in the end, and leave its user entry behind. */
  lemma SweepUntilDropped(config: Config, states: seq<Tables>, ops: seq<Op>, user: int, id: string, clock: Clock)
    returns (states': seq<Tables>, ops': seq<Op>)
    requires Run(config, states, ops) && OneUser(config, states[|ops|], user, id)
    requires clock(id).check - 1 > config.timeout
    ensures Run(config, states', ops') && OneUser(config, states'[|ops'|], user, id) &&
            states'[|ops'|].connections == map[]
    decreases if states[|ops|].connections == map[] then 0 else 1,
              if config.maxMissed > states[|ops|].beats[id].missed
              then config.maxMissed - states[|ops|].beats[id].missed
              else 0
  {
    hide Swept;
    var t := states[|ops|];
    if t.connections == map[] {
      states', ops' := states, ops;
    } else {
      SweepOneUser(config, t, user, id, clock);
      states', ops' := AppendOp(config, states, ops, Sweep(clock), Swept(config, t, clock));
      hide Run;
      states', ops' := SweepUntilDropped(config, states', ops', user, id, clock);
    }
  }

  /**
    The drift is real, whatever the configuration: a user whose connection timed out is kicked while
    another connection is open.
   */
  lemma CountCanDrift(config: Config, user: int, id: string, socket: nat, other: string, otherSocket: nat)
    returns (states: seq<Tables>, ops: seq<Op>)
    requires id != other
    ensures Run(config, states, ops)
    ensures states[|ops|].metrics.active == 0 && states[|ops|].connections == map[other := Socket(otherSocket)]
  {
    hide Next;
    hide OneUser;
    hide Registered;
    hide Kicked;
    hide Swept;
    var late := 2 + if config.timeout > 0 then config.timeout else 0;
    var clock: Clock := _ => Reading(late, late);
    states, ops := OpenOneUser(config, user, id, socket);
    states, ops := SweepUntilDropped(config, states, ops, user, id, clock);
    var t := states[|ops|];
    KickAfterTimeout(config, t, user, id, other, otherSocket, late);
    var crowded := Registered(t, other, Socket(otherSocket), late);
    states, ops := AppendOp(config, states, ops, Register(other, Socket(otherSocket), late), crowded);
    states, ops := AppendOp(config, states, ops, Kick(user), Kicked(crowded, user));
  }

  lemma KickAfterTimeout(config: Config, t: Tables, user: int, id: string, other: string, socket: nat, at: int)
    requires OneUser(config, t, user, id) && t.connections == map[] && id != other && at > NEVER
    ensures var crowded := Registered(t, other, Socket(socket), at);
            && Next(config, t, Register(other, Socket(socket), at), crowded)
            && Next(config, crowded, Kick(user), Kicked(crowded, user))
            && Kicked(crowded, user).metrics.active == 0
            && Kicked(crowded, user).connections == map[other := Socket(socket)]
  {
    var crowded := Registered(t, other, Socket(socket), at);
    assert crowded.connections == map[other := Socket(socket)];
    assert crowded.connections - {id} == crowded.connections;
  }

  // ----- the sweep -----

  function RegisteredIds(ops: seq<Op>): set<string> {
    set i | 0 <= i < |ops| && ops[i].Register? :: ops[i].id
  }

  /** Connection ids come from a counter and are never handed out twice. */
  ghost predicate NoReuse(ops: seq<Op>) {
    forall i, j | 0 <= i < j < |ops| && ops[i].Register? && ops[j].Register? :: ops[i].id != ops[j].id
  }

  ghost predicate AllMonitored(config: Config, t: Tables, everRegistered: set<string>) {
    && t.connections.Keys <= everRegistered
    && (forall id | id in t.connections :: id in t.beats)
    && (forall id | id in t.beats && (id in t.connections || id !in everRegistered) :: t.beats[id].alive)
    && (forall id | id in t.beats :: t.beats[id].lastActivity > NEVER)
    && (forall id | id in t.beats && t.beats[id].alive :: t.beats[id].missed < config.maxMissed)
  }

  /** With ids never reused, every registered connection has a live heartbeat record in every reachable state. */
  lemma {:induction false} EveryConnectionMonitored(config: Config, states: seq<Tables>, ops: seq<Op>)
    requires Run(config, states, ops) && NoReuse(ops) && config.maxMissed >= 1
    ensures AllMonitored(config, states[|ops|], RegisteredIds(ops))
    decreases |ops|
  {
    if ops != [] {
      var before := ops[..|ops| - 1];
      RunPrefix(config, states, ops);
      EveryConnectionMonitored(config, states[..|states| - 1], before);
      assert RegisteredIds(ops) ==
             RegisteredIds(before) + (if ops[|before|].Register? then {ops[|before|].id} else {});
      StepKeepsMonitored(config, states[|before|], ops[|before|], states[|ops|], RegisteredIds(before));
    }
  }

  lemma StepKeepsMonitored(config: Config, t: Tables, op: Op, next: Tables, ever: set<string>)
    requires AllMonitored(config, t, ever) && Next(config, t, op, next) && config.maxMissed >= 1
    requires op.Register? ==> op.id !in ever
    ensures AllMonitored(config, next, ever + if op.Register? then {op.id} else {})
  {
    hide Unregistered;
    hide Swept;
    hide Registered;
    hide Kicked;
    match op
    case Sweep(clock) => SweepKeepsMonitored(config, t, clock, ever);
    case Unregister(id) => UnregisterDrops(t, id, next);
    case Register(id, conn, at) => RegisterKeepsMonitored(config, t, id, conn, at, ever);
    case Kick(user) => KickDrops(t, user);
    case _ => assert next.connections == t.connections;
  }

  lemma RegisterKeepsMonitored(config: Config, t: Tables, id: string, conn: Conn, at: int, ever: set<string>)
    requires AllMonitored(config, t, ever) && config.maxMissed >= 1 && at > NEVER && id !in ever
    ensures AllMonitored(config, Registered(t, id, conn, at), ever + {id})
  {}

  lemma KickDrops(t: Tables, user: int)
    ensures Kicked(t, user).connections.Keys <= t.connections.Keys && Kicked(t, user).beats == t.beats
  {}

  lemma UnregisterDrops(t: Tables, id: string, next: Tables)
    requires Unregistered(t, id, next)
    ensures next.connections.Keys <= t.connections.Keys && next.beats == t.beats
  {}

  lemma SweepKeepsMonitored(config: Config, t: Tables, clock: Clock, ever: set<string>)
    requires AllMonitored(config, t, ever) && config.maxMissed >= 1
    ensures AllMonitored(config, Swept(config, t, clock), ever)
  {
    var next := Swept(config, t, clock);
    hide IdleDue;
    forall id | id in next.connections ensures next.beats[id].alive {
      assert id !in HeartbeatDue(config, t, clock);
    }
  }

  /**
    After a sweep every connection left is alive with fewer than `maxMissed` misses and is not idle
    beyond a positive idle timeout.
   */
  lemma SweepLeavesNoOverdue(config: Config, states: seq<Tables>, ops: seq<Op>, id: string)
    requires Run(config, states, ops) && NoReuse(ops) && config.maxMissed >= 1
    requires ops != [] && ops[|ops| - 1].Sweep? && id in states[|ops|].connections
    ensures var b := states[|ops|].beats;
            && id in b && b[id].alive && b[id].missed < config.maxMissed
            && (config.idleTimeout > 0 ==> ops[|ops| - 1].clock(id).idle - b[id].lastActivity <= config.idleTimeout)
  {
    EveryConnectionMonitored(config, states, ops);
    RunPrefix(config, states, ops);
    EveryConnectionMonitored(config, states[..|ops|], ops[..|ops| - 1]);
  }

  /**
    A sweep drops exactly the connections that have a record which is alive and overdue for the last miss
    allowed, or which was not active for longer than a positive idle timeout; the user entries stay.
   */
  lemma SweepDropsExactly(config: Config, t: Tables, clock: Clock, id: string)
    requires id in t.connections
    ensures var next := Swept(config, t, clock);
            && next.users == t.users
            && (id in next.connections ==> next.connections[id] == t.connections[id])
            && (id !in next.connections <==>
                  && id in t.beats
                  && var b := t.beats[id];
                     || (b.alive && b.missed + 1 >= config.maxMissed
                         && clock(id).check - (if b.lastPong == NEVER then b.lastPing else b.lastPong) > config.timeout)
                     || (config.idleTimeout > 0 && b.lastActivity != NEVER
                         && clock(id).idle - b.lastActivity > config.idleTimeout))
  {}

  /** Reusing the id of a connection that timed out leaves it unwatched: no sweep ever finds it overdue again. */
  lemma ReusedIdIsUnwatched(config: Config, t: Tables, id: string, conn: Conn, at: int, later: Clock)
    requires id !in t.connections && id in t.beats && !t.beats[id].alive
    ensures var r := Registered(t, id, conn, at);
            id in r.connections && !r.beats[id].alive && id !in HeartbeatDue(config, r, later)
  {}
}
