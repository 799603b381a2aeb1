/** What one step of the whole system changes, and what it leaves alone, whatever came before. */
module DisplacementSteps {
  import opened Wrappers
  import opened SessionStore
  import opened Connections
  import opened Displacement
  import Heartbeat

  /** Gateway tables, inboxes and sessions are as before, except at gateway `g`. */
  predicate OnlyGateway(s: System, next: System, g: nat) {
    && next.sessions == s.sessions && next.everUsed == s.everUsed
    && |next.gateways| == |s.gateways| && |next.inbox| == |s.inbox|
    && forall h | 0 <= h < |s.gateways| && h != g :: next.gateways[h] == s.gateways[h]
  }

  /**
    A bind of a positive signed 64-bit id always names the connection under the user, and so opens it if
    it is still registered; any other id is settled without a trace.
   */
  lemma BindOpens(config: Heartbeat.Config, s: System, login: nat, next: System)
    requires Shaped(s) && Displacement.Next(config, s, Bind(login), next)
    ensures login < |s.logins| && Shaped(next) && |next.logins| == |s.logins|
    ensures forall i | 0 <= i < |s.logins| && i != login :: next.logins[i] == s.logins[i]
    ensures next.inbox == s.inbox && OnlyGateway(s, next, s.logins[login].gateway)
    ensures var l := s.logins[login];
            var before, after := s.gateways[l.gateway], next.gateways[l.gateway];
            if 1 <= l.user <= 9223372036854775807
            then && next.logins[login] == l.(stage := Settled(true))
                 && after == before.(users := before.users[l.user := l.conn])
                 && (OpenBound(next, login) <==> l.conn in before.connections)
            else next.logins[login] == l.(stage := Settled(false)) && after == before
  {
    hide LoginScript;
  }

  /**
    A handled invalidate is the front one of its gateway. It takes the user's entry and the connection it
    names away there, unless the id is no signed 64-bit one or has no entry, and it changes nothing else.
   */
  lemma InvalidateKicks(config: Heartbeat.Config, s: System, g: nat, next: System)
    requires Shaped(s) && Displacement.Next(config, s, HandleInvalidate(g), next)
    ensures g < |s.gateways| && s.inbox[g] != [] && s.inbox[g][0] < |s.logins| && next.logins == s.logins
    ensures OnlyGateway(s, next, g) && next.inbox == s.inbox[g := s.inbox[g][1..]]
    ensures var user := s.logins[s.inbox[g][0]].user;
            var before, after := s.gateways[g], next.gateways[g];
            if user <= 9223372036854775807 && user in before.users
            then && after.users == before.users - {user}
                 && after.connections == before.connections - {before.users[user]}
                 && after.beats == before.beats
            else after == before
  {
    hide LoginScript;
  }

  /** A publish appends the login to the inboxes it reaches and to no other, and the login is answered. */
  lemma PublishReaches(config: Heartbeat.Config, s: System, login: nat, reached: set<nat>, next: System)
    requires Shaped(s) && Displacement.Next(config, s, Publish(login, reached), next)
    ensures login < |s.logins| && s.logins[login].stage == Issued
    ensures next.logins == s.logins[login := s.logins[login].(stage := Answered)]
    ensures next.gateways == s.gateways && next.sessions == s.sessions && |next.inbox| == |s.inbox|
    ensures forall g | 0 <= g < |s.inbox| :: next.inbox[g] == s.inbox[g] + if g in reached then [login] else []
    ensures reached != {} ==> s.logins[login].replaced != ""
  {
    hide LoginScript;
  }

  /**
    A script that may live adds one issued login, with the token the database held live for the user as
    the one it replaced; one that may not adds none, and neither touches a gateway.
   */
  lemma ScriptIssues(config: Heartbeat.Config, s: System, a: Action, next: System)
    requires Shaped(s) && a.RunScript? && Displacement.Next(config, s, a, next)
    requires s.sessions.db.Get(UserKey(a.user)) != Some(a.token)
    ensures next.gateways == s.gateways && next.inbox == s.inbox && next.everUsed == s.everUsed
    ensures a.gateway < |s.gateways| && a.conn in s.everUsed[a.gateway]
    ensures var live := s.sessions.db.Get(UserKey(a.user));
            if a.ttl >= 1
            then next.logins == s.logins + [Login(a.user, a.gateway, a.conn, a.token,
                                                  if live.Some? then live.value else "", Issued)]
            else next.logins == s.logins
  {
    if a.ttl >= 1 {
      ScriptCompletes(s.sessions.db, a.user, a.name, a.token, a.ttl);
    } else {
      ScriptStops(s.sessions.db, a.user, a.name, a.token, a.ttl);
    }
    hide LoginScript;
    hide Issue;
    hide UserKey;
  }
}
