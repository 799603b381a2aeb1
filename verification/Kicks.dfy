/**
  What kicks close and whose connection stays open, in orderly runs that also announce every
  displacement, and publish and handle a user's displacements in the order of the logins.
 */
module Kicks {
  import opened Wrappers
  import opened SessionStore
  import Connections
  import opened Displacement
  import opened OneDevice
  import Heartbeat

  // ----- two further clauses -----

  /** Login `l` displaced a session and has still to publish that. */
  predicate Unpublished(s: System, l: nat)
    requires l < |s.logins|
  {
    s.logins[l].stage == Issued && s.logins[l].replaced != ""
  }

  /** Every later login of the user that was published waits at the gateway of login `l`, also when it was given up. */
  ghost predicate StillChased(s: System, l: nat)
    requires Shaped(s) && l < |s.logins|
  {
    forall n: nat | l < n < |s.logins| && s.logins[n].user == s.logins[l].user && s.logins[n].stage != Issued ::
      n in s.inbox[s.logins[l].gateway]
  }

  /** No displacement is given up before it was published; a late bind is still chased by all that were. */
  ghost predicate Announced(s: System, a: Action)
    requires Shaped(s)
  {
    match a
    case GiveUp(login) => login < |s.logins| ==> !Unpublished(s, login)
    case Bind(login) => login < |s.logins| ==> StillChased(s, login)
    case _ => true
  }

  /** Of the user of login `l`, only later logins have still to publish, or to be handled at its gateway. */
  ghost predicate OnlyLaterPending(s: System, l: nat)
    requires Shaped(s) && l < |s.logins|
  {
    && (forall i: nat | i < |s.logins| && s.logins[i].user == s.logins[l].user && Unpublished(s, i) :: l < i)
    && (forall m: nat | m in s.inbox[s.logins[l].gateway] && m < |s.logins| && s.logins[m].user == s.logins[l].user ::
       l < m)
  }

  /** A user's displacements are published in order, and those up to a login are over at its gateway when it binds. */
  ghost predicate InTurn(s: System, a: Action)
    requires Shaped(s)
  {
    match a
    case Publish(login, reached) =>
      login < |s.logins| && reached != {} ==>
        forall i: nat | i < login && s.logins[i].user == s.logins[login].user :: !Unpublished(s, i)
    case Bind(login) => login < |s.logins| ==> OnlyLaterPending(s, login)
    case _ => true
  }

  // ----- the open connection is the latest login's once everything is handled -----

  ghost predicate NoneSlips(s: System)
    requires Shaped(s)
  {
    forall l: nat | OpenBound(s, l) :: StillChased(s, l)
  }

  /** What a step does to the logins there are: one may be added, issued, and at most one changes its stage. */
  predicate LoginsMove(s: System, a: Action, next: System) {
    && |s.logins| <= |next.logins| <= |s.logins| + 1
    && (|next.logins| > |s.logins| ==>
       a.RunScript? && next.logins[|s.logins|].stage == Issued && next.logins[|s.logins|].user == a.user)
    && (forall i | 0 <= i < |s.logins| :: next.logins[i] == s.logins[i].(stage := next.logins[i].stage))
    && (forall i | 0 <= i < |s.logins| && next.logins[i].stage != s.logins[i].stage ::
          (a.Publish? || a.Bind? || a.GiveUp?) && i == a.login && next.logins[i].stage != Issued &&
            !s.logins[i].stage.Settled?)
    && (a.Publish? ==>
          && a.login < |s.logins| && s.logins[a.login].stage == Issued && next.logins[a.login].stage == Answered
          && (s.logins[a.login].replaced == "" ==> a.reached == {}))
    && (a.Bind? ==> a.login < |s.logins| && s.logins[a.login].stage == Answered)
  }

  /** Invalidates are added by a publish, and leave an inbox only by being handled, from the front. */
  predicate InboxMoves(s: System, a: Action, next: System) {
    && |next.inbox| == |s.inbox|
    && (if a.Publish? then
          forall g | 0 <= g < |s.inbox| ::
            next.inbox[g] == if g in a.reached then s.inbox[g] + [a.login] else s.inbox[g]
        else if a.HandleInvalidate? then
          a.gateway < |s.inbox| && s.inbox[a.gateway] != [] &&
            next.inbox == s.inbox[a.gateway := s.inbox[a.gateway][1..]]
        else next.inbox == s.inbox)
  }

  predicate Moved(s: System, a: Action, next: System) {
    LoginsMove(s, a, next) && InboxMoves(s, a, next)
  }

  lemma StepMoves(config: Heartbeat.Config, s: System, a: Action, next: System)
    requires Core(s) && Displacement.Next(config, s, a, next)
    ensures Moved(s, a, next)
  {
    hide LoginScript;
    hide Issue;
    hide Connections.Next;
    hide ConnsHandedOut;
  }

  lemma OpenBefore(config: Heartbeat.Config, s: System, a: Action, next: System, l: nat)
    requires Core(s) && Shaped(next) && Displacement.Next(config, s, a, next) && OpenBound(next, l)
    ensures OpenBound(s, l) ||
            (a == Bind(l) && l < |s.logins| && s.logins[l].stage == Answered && next == AfterBind(s, l))
  {
    hide LoginScript;
    hide Issue;
    if a.Local? {
      LocalTables(config, s.gateways[a.gateway], a.op, next.gateways[a.gateway]);
      hide Connections.Next;
      assert s.logins[l].conn in s.everUsed[s.logins[l].gateway];
    }
  }

  /** A handled invalidate closes whatever connection its user had open at that gateway. */
  lemma HandledClosesOwn(s: System, g: nat, l: nat)
    requires Core(s) && g < |s.gateways| && s.inbox[g] != [] && s.inbox[g][0] < |s.logins|
    requires OpenBound(s, l) && OpenBound(AfterInvalidate(s, g), l) && s.logins[l].gateway == g
    ensures s.logins[l].user != s.logins[s.inbox[g][0]].user
  {
    assert OpenIsPursued(s, l);
  }

  lemma ChasedStays(s: System, a: Action, next: System, l: nat, n: nat)
    requires Shaped(s) && Moved(s, a, next) && Announced(s, a)
    requires l < n < |s.logins| && Pursues(s, n, l)
    requires a.Publish? && a.login == n ==> s.logins[l].gateway in a.reached
    requires s.logins[n].stage != Issued ==> n in s.inbox[s.logins[l].gateway]
    requires next.logins[n].stage != Issued && next.logins[n].stage != Settled(true)
    requires a.HandleInvalidate? && a.gateway == s.logins[l].gateway ==> s.inbox[a.gateway][0] != n
    ensures n in next.inbox[s.logins[l].gateway]
  {
    var g := s.logins[l].gateway;
    if s.logins[n].stage != Issued {
      if a.HandleInvalidate? && a.gateway == g {
        assert s.inbox[g] == [s.inbox[g][0]] + s.inbox[g][1..];
      }
    } else {
      assert a.Publish? && a.login == n;
      assert next.inbox[g] == s.inbox[g] + [n];
    }
  }

  lemma OpenIsHeld(s: System, l: nat)
    requires Core(s) && OpenBound(s, l)
    ensures Holds(s, s.logins[l].gateway, s.logins[l].user)
  {
    assert OpenIsPursued(s, l);
  }

  lemma ChaseKept(config: Heartbeat.Config, s: System, a: Action, next: System, l: nat)
    requires Core(s) && Core(next) && Displacement.Next(config, s, a, next) && Orderly(s, a) && Announced(s, a)
    requires OpenBound(s, l) && OpenBound(next, l) && StillChased(s, l)
    ensures StillChased(next, l)
  {
    StepMoves(config, s, a, next);
    if a.HandleInvalidate? && a.gateway == s.logins[l].gateway {
      HandledClosesOwn(s, a.gateway, l);
    }
    hide Displacement.Next;
    OpenIsHeld(s, l);
    var g := s.logins[l].gateway;
    forall n: nat | l < n < |next.logins| && next.logins[n].user == next.logins[l].user &&
      next.logins[n].stage != Issued
      ensures n in next.inbox[g]
    {
      LaterPursues(s, l, n);
      LaterPursues(next, l, n);
      hide Core;
      ChasedStays(s, a, next, l, n);
    }
  }

  lemma StepKeepsNoneSlips(config: Heartbeat.Config, s: System, a: Action, next: System)
    requires Core(s) && Core(next) && Displacement.Next(config, s, a, next) && Orderly(s, a) && Announced(s, a) &&
             NoneSlips(s)
    ensures NoneSlips(next)
  {
    forall l: nat | OpenBound(next, l) ensures StillChased(next, l) {
      OpenBefore(config, s, a, next, l);
      if OpenBound(s, l) {
        ChaseKept(config, s, a, next, l);
      } else {
        assert StillChased(s, l);
      }
    }
  }

  ghost predicate AnnouncedRun(config: Heartbeat.Config, states: seq<System>, actions: seq<Action>) {
    OrderlyRun(config, states, actions) && forall i | 0 <= i < |actions| :: Announced(states[i], actions[i])
  }

  lemma {:induction false} RunKeepsNoneSlips(config: Heartbeat.Config,
                                             states: seq<System>, actions: seq<Action>, i: nat)
    requires AnnouncedRun(config, states, actions) && i < |states|
    ensures Inv(states[i]) && NoneSlips(states[i])
  {
    RunKeepsInv(config, states, actions, i);
    hide Displacement.Next;
    hide Orderly;
    hide Announced;
    hide Core;
    hide Faithful;
    hide StillChased;
    if i > 0 {
      RunKeepsNoneSlips(config, states, actions, i - 1);
      StepKeepsNoneSlips(config, states[i - 1], actions[i - 1], states[i]);
    }
  }

  /** Login `l` is the latest of its user so far. */
  predicate IsLatest(s: System, l: nat)
    requires l < |s.logins|
  {
    forall n | l < n < |s.logins| :: s.logins[n].user != s.logins[l].user
  }

  /** No displacement by the user has still to be published, or to be handled at gateway `g`. */
  predicate Quiet(s: System, user: nat, g: nat)
    requires g < |s.inbox|
  {
    && (forall i: nat | i < |s.logins| && s.logins[i].user == user :: !Unpublished(s, i))
    && (forall m: nat | m in s.inbox[g] && m < |s.logins| :: s.logins[m].user != user)
  }

  /**
    Once no displacement by a user has still to be published, or to be handled where the user's open
    connection is, that connection is the latest login's. Without the first clause of this module a login
    can be given up unannounced, and the connection it displaced stays open.
   */
  lemma OpenConnectionIsLatest(
    config: Heartbeat.Config, states: seq<System>, actions: seq<Action>, i: nat, l: nat)
    requires AnnouncedRun(config, states, actions) && i < |states| && OpenBound(states[i], l)
    requires Quiet(states[i], states[i].logins[l].user, states[i].logins[l].gateway)
    ensures IsLatest(states[i], l)
  {
    RunKeepsNoneSlips(config, states, actions, i);
    hide AnnouncedRun;
    var s := states[i];
    assert StillChased(s, l);
    forall n: nat | l < n < |s.logins| ensures s.logins[n].user != s.logins[l].user {
      if s.logins[n].user == s.logins[l].user { QuietIsNotPursued(s, n, l); }
    }
  }

  lemma QuietIsNotPursued(s: System, n: nat, l: nat)
    requires Core(s) && OpenBound(s, l) && StillChased(s, l) && l < n < |s.logins|
    requires Quiet(s, s.logins[l].user, s.logins[l].gateway)
    ensures s.logins[n].user != s.logins[l].user
  {
    if s.logins[n].user == s.logins[l].user { LaterPursues(s, l, n); }
  }

  // ----- a kick closes the connection of the login it displaced, and no other -----

  /** Logins and the session history are the same list. */
  ghost predicate Aligned(s: System) {
    && |s.logins| == |s.sessions.log|
    && forall i | 0 <= i < |s.logins| ::
       s.logins[i].user == s.sessions.log[i].user && s.logins[i].token == s.sessions.log[i].token
  }

  /** In a gateway's inbox a user's invalidates are in the order of the logins, and older than any unpublished. */
  ghost predicate QueueRight(s: System, q: seq<nat>) {
    && (forall k | 0 <= k < |q| :: q[k] < |s.logins|)
    && (forall j, k | 0 <= j < k < |q| && s.logins[q[j]].user == s.logins[q[k]].user :: q[j] < q[k])
    && (forall k, i: nat | 0 <= k < |q| && i < |s.logins| && Unpublished(s, i)
                           && s.logins[q[k]].user == s.logins[i].user :: q[k] < i)
  }

  ghost predicate Queued(s: System) {
    forall g | 0 <= g < |s.inbox| :: QueueRight(s, s.inbox[g])
  }

  /** Login `n` is the next of its user after login `l`. */
  predicate NextOf(s: System, l: nat, n: nat) {
    l < n < |s.logins| && s.logins[n].user == s.logins[l].user &&
      forall k | l < k < n :: s.logins[k].user != s.logins[l].user
  }

  /** A login that displaced a session displaced that of the user's previous login. */
  ghost predicate ReplacesPrevious(s: System) {
    forall l: nat, n: nat | NextOf(s, l, n) && s.logins[n].replaced != "" :: s.logins[n].replaced == s.logins[l].token
  }

  /** The user entry was made by a bind of that user. */
  ghost predicate EntryFromBind(s: System, g: nat, u: int)
    requires Shaped(s) && g < |s.gateways| && u in s.gateways[g].users
  {
    exists l: nat :: l < |s.logins| && s.logins[l].stage == Settled(true)
                     && s.logins[l].user == u && s.logins[l].gateway == g && s.logins[l].conn == s.gateways[g].users[u]
  }

  ghost predicate EntriesFromBinds(s: System)
    requires Shaped(s)
  {
    forall g: nat, u | g < |s.gateways| && u in s.gateways[g].users :: EntryFromBind(s, g, u)
  }

  ghost predicate KickInv(s: System) {
    && Inv(s) && NoneSlips(s)
    && Aligned(s) && Queued(s) && ReplacesPrevious(s) && EntriesFromBinds(s)
    && forall l: nat | OpenBound(s, l) :: OnlyLaterPending(s, l)
  }

  lemma StepKeepsAligned(config: Heartbeat.Config, s: System, a: Action, next: System)
    requires Core(s) && Aligned(s) && Displacement.Next(config, s, a, next)
    ensures Aligned(next)
  {
    hide LoginScript;
    hide Connections.Next;
  }

  /** Users stay, no login becomes unpublished but a new one, and the queue is the same or without its front. */
  lemma ShorterStaysRight(s: System, q: seq<nat>, next: System, rest: seq<nat>)
    requires QueueRight(s, q) && |s.logins| <= |next.logins|
    requires rest == q || (q != [] && rest == q[1..])
    requires forall i | 0 <= i < |s.logins| :: next.logins[i].user == s.logins[i].user
    requires forall i: nat | i < |s.logins| && Unpublished(next, i) :: Unpublished(s, i)
    ensures QueueRight(next, rest)
  {
    assert rest != q ==> forall k | 0 <= k < |rest| :: rest[k] == q[k + 1];
  }

  lemma PublishedStaysRight(s: System, q: seq<nat>, next: System, login: nat)
    requires QueueRight(s, q) && login < |s.logins| == |next.logins|
    requires Unpublished(s, login) && !Unpublished(next, login)
    requires forall i | 0 <= i < |s.logins| :: next.logins[i].user == s.logins[i].user
    requires forall i: nat | i < |s.logins| && Unpublished(next, i) :: Unpublished(s, i)
    requires forall i: nat | i < login && s.logins[i].user == s.logins[login].user :: !Unpublished(s, i)
    ensures QueueRight(next, q + [login])
  {
    hide Unpublished;
    var longer := q + [login];
    assert forall k | 0 <= k < |q| :: longer[k] == q[k];
    assert longer[|q|] == login;
  }

  /** No login there was becomes unpublished, and a published one no longer is. */
  lemma UnpublishedBefore(s: System, a: Action, next: System)
    requires LoginsMove(s, a, next)
    ensures forall i: nat | i < |s.logins| && Unpublished(next, i) :: Unpublished(s, i)
    ensures a.Publish? && a.reached != {} ==> Unpublished(s, a.login) && !Unpublished(next, a.login)
  {}

  lemma StepKeepsQueued(s: System, a: Action, next: System)
    requires Shaped(s) && Queued(s) && Moved(s, a, next) && InTurn(s, a)
    ensures Queued(next)
  {
    hide QueueRight;
    hide Unpublished;
    UnpublishedBefore(s, a, next);
    forall g | 0 <= g < |next.inbox| ensures QueueRight(next, next.inbox[g]) {
      assert QueueRight(s, s.inbox[g]);
      if a.Publish? && g in a.reached {
        PublishedStaysRight(s, s.inbox[g], next, a.login);
      } else {
        ShorterStaysRight(s, s.inbox[g], next, next.inbox[g]);
      }
    }
  }

  lemma StepKeepsEntries(config: Heartbeat.Config, s: System, a: Action, next: System)
    requires Core(s) && Shaped(next) && EntriesFromBinds(s) && Displacement.Next(config, s, a, next)
    ensures EntriesFromBinds(next)
  {
    StepMoves(config, s, a, next);
    forall g: nat, u | g < |next.gateways| && u in next.gateways[g].users ensures EntryFromBind(next, g, u) {
      EntryBefore(config, s, a, next, g, u);
      if !(a.Bind? && next.logins[a.login].stage == Settled(true)
           && g == s.logins[a.login].gateway && u == s.logins[a.login].user) {
        assert EntryFromBind(s, g, u);
        var l: nat :| l < |s.logins| && s.logins[l].stage == Settled(true)
          && s.logins[l].user == u && s.logins[l].gateway == g && s.logins[l].conn == s.gateways[g].users[u];
        assert next.logins[l] == s.logins[l];
      }
    }
  }

  /** A user entry is an old one, or the one a bind has just made. */
  lemma EntryBefore(config: Heartbeat.Config, s: System, a: Action, next: System, g: nat, u: int)
    requires Core(s) && Shaped(next) && Displacement.Next(config, s, a, next)
    requires g < |next.gateways| && u in next.gateways[g].users
    ensures |next.gateways| == |s.gateways|
    ensures || (u in s.gateways[g].users && next.gateways[g].users[u] == s.gateways[g].users[u])
            || (a.Bind? && a.login < |s.logins| && next.logins[a.login].stage == Settled(true)
                && g == s.logins[a.login].gateway
                && u == s.logins[a.login].user && next.gateways[g].users[u] == s.logins[a.login].conn)
    ensures a.Bind? && a.login < |s.logins| && next.logins[a.login].stage == Settled(true)
            && g == s.logins[a.login].gateway && u == s.logins[a.login].user ==>
              next.gateways[g].users[u] == s.logins[a.login].conn
  {
    hide LoginScript;
    hide Issue;
    if a.Local? {
      LocalTables(config, s.gateways[a.gateway], a.op, next.gateways[a.gateway]);
    }
    hide Connections.Next;
  }

  lemma ScriptReplacesLatest(config: Heartbeat.Config, s: System, a: Action, next: System, l: nat)
    requires Inv(s) && Aligned(s) && a.RunScript? && Displacement.Next(config, s, a, next) && Orderly(s, a)
    requires l < |s.logins| && s.logins[l].user == a.user && IsLatest(s, l)
    ensures |next.logins| == |s.logins| + 1
    ensures next.logins[|s.logins|].replaced == "" || next.logins[|s.logins|].replaced == s.logins[l].token
  {
    hide LoginScript;
    hide Core;
    ScriptEffect(s.sessions, a.user, a.name, a.token, a.ttl);
    UserKeyAnswers(s.sessions, a.user);
    hide Faithful;
    hide Issue;
    hide UserKey;
    LatestIsLast(s, l);
    hide LastOf;
  }

  lemma LatestIsLast(s: System, l: nat)
    requires Aligned(s) && l < |s.logins| && IsLatest(s, l)
    ensures LastOf(s.sessions.log, s.logins[l].user) == Some(l)
  {
    assert s.sessions.log[l].user == s.logins[l].user;
  }

  lemma StepKeepsReplaces(config: Heartbeat.Config, s: System, a: Action, next: System)
    requires Inv(s) && Aligned(s) && ReplacesPrevious(s)
    requires Moved(s, a, next) && Displacement.Next(config, s, a, next) && Orderly(s, a)
    ensures ReplacesPrevious(next)
  {
    hide Displacement.Next;
    hide Orderly;
    hide Aligned;
    hide Inv;
    forall l: nat, n: nat | NextOf(next, l, n) && next.logins[n].replaced != ""
      ensures next.logins[n].replaced == next.logins[l].token
    {
      if n < |s.logins| {
        assert NextOf(s, l, n);
      } else {
        assert IsLatest(s, l);
        ScriptReplacesLatest(config, s, a, next, l);
      }
    }
  }

  lemma PendingKept(s: System, a: Action, next: System, l: nat)
    requires Shaped(s) && Shaped(next) && Queued(s) && Moved(s, a, next)
    requires l < |s.logins| && OnlyLaterPending(s, l)
    ensures OnlyLaterPending(next, l)
  {
    var g := s.logins[l].gateway;
    assert forall m | m in next.inbox[g] :: m in s.inbox[g] || (a.Publish? && m == a.login && a.reached != {});
    assert forall i: nat | i < |s.logins| && Unpublished(next, i) :: Unpublished(s, i);
    assert a.Publish? && a.reached != {} ==> Unpublished(s, a.login);
  }

  lemma StepKeepsKickInv(config: Heartbeat.Config, s: System, a: Action, next: System)
    requires KickInv(s) && Shaped(next) && Displacement.Next(config, s, a, next)
    requires Orderly(s, a) && Announced(s, a) && InTurn(s, a)
    ensures KickInv(next)
  {
    assert Shaped(s);
    hide Displacement.Next;
    hide Orderly;
    hide Announced;
    hide Core;
    hide Faithful;
    StepKeepsInv(config, s, a, next);
    StepKeepsNoneSlips(config, s, a, next);
    StepKeepsAligned(config, s, a, next);
    StepMoves(config, s, a, next);
    StepKeepsQueued(s, a, next);
    StepKeepsReplaces(config, s, a, next);
    hide Moved;
    hide ReplacesPrevious;
    hide Queued;
    StepKeepsEntries(config, s, a, next);
    hide EntriesFromBinds;
    hide OnlyLaterPending;
    forall l: nat | OpenBound(next, l) ensures OnlyLaterPending(next, l) {
      OpenBefore(config, s, a, next, l);
      PendingKept(s, a, next, l);
    }
  }

  ghost predicate KickRun(config: Heartbeat.Config, states: seq<System>, actions: seq<Action>) {
    AnnouncedRun(config, states, actions) && forall i | 0 <= i < |actions| :: InTurn(states[i], actions[i])
  }

  lemma BeginKickInv(gateways: nat)
    ensures KickInv(Begin(gateways))
  {
    BeginInv(gateways);
  }

  lemma {:induction false} RunKeepsKickInv(config: Heartbeat.Config, states: seq<System>, actions: seq<Action>, i: nat)
    requires KickRun(config, states, actions) && i < |states|
    ensures KickInv(states[i])
  {
    hide Displacement.Next;
    hide Orderly;
    hide Announced;
    hide InTurn;
    hide KickInv;
    if i == 0 {
      var n: nat :| states[0] == Begin(n);
      BeginKickInv(n);
    } else {
      RunKeepsKickInv(config, states, actions, i - 1);
      StepKeepsKickInv(config, states[i - 1], actions[i - 1], states[i]);
    }
  }

  /** A kick by the user id of login `m` that finds a registered connection finds the one login `m` displaced. */
  lemma KickFindsDisplaced(s: System, g: nat, d: nat)
    requires Core(s) && NoneSlips(s) && Queued(s) && ReplacesPrevious(s) && g < |s.inbox| && s.inbox[g] != []
    requires OpenBound(s, d) && OnlyLaterPending(s, d) && s.logins[d].gateway == g
    requires s.inbox[g][0] < |s.logins| && s.logins[s.inbox[g][0]].user == s.logins[d].user
    ensures d < s.inbox[g][0] && s.logins[s.inbox[g][0]].replaced == s.logins[d].token
  {
    var m := s.inbox[g][0];
    assert StillChased(s, d) && d < m;
    var f := FirstLater(s, d, m);
    LaterPursues(s, d, f);
    FrontIsFirst(s, g, f);
  }

  /** A login whose invalidate waits, or is still to be published, is no earlier than the front one of its user. */
  lemma FrontIsFirst(s: System, g: nat, f: nat)
    requires Queued(s) && g < |s.inbox| && s.inbox[g] != [] && f < |s.logins|
    requires s.logins[f].user == s.logins[s.inbox[g][0]].user
    ensures f in s.inbox[g] || Unpublished(s, f) ==> s.inbox[g][0] <= f
  {
    assert QueueRight(s, s.inbox[g]);
  }

  lemma FirstLater(s: System, d: nat, m: nat) returns (f: nat)
    requires d < m < |s.logins| && s.logins[m].user == s.logins[d].user
    ensures NextOf(s, d, f) && f <= m
  {
    f := d + 1;
    while s.logins[f].user != s.logins[d].user
      invariant d < f <= m && forall k | d < k < f :: s.logins[k].user != s.logins[d].user
      decreases m - f
    {
      f := f + 1;
    }
  }

  /**
    Every handled invalidate touches one gateway and closes there at most one connection: the one
    bound by the login whose session the invalidate's own login displaced. Without the clauses of this
    module an invalidate can outlive its login and close a newer connection, or overtake another and
    close the connection that one was meant for.
   */
  lemma KickHitsOnlyTheDisplaced(
    config: Heartbeat.Config, states: seq<System>, actions: seq<Action>, i: nat, h: nat, id: string)
    requires KickRun(config, states, actions) && i < |actions| && actions[i].HandleInvalidate?
    requires h < |states[i].gateways| && id in states[i].gateways[h].connections
    requires h < |states[i + 1].gateways| && id !in states[i + 1].gateways[h].connections
    ensures h == actions[i].gateway
    ensures var s := states[i];
            var kicker := s.inbox[h][0];
            exists d: nat :: d < kicker && s.logins[d].user == s.logins[kicker].user
              && s.logins[d].token == s.logins[kicker].replaced
              && s.logins[d].gateway == h && s.logins[d].conn == id
  {
    RunKeepsKickInv(config, states, actions, i);
    var s := states[i];
    KickCloses(config, s, actions[i].gateway, states[i + 1], h, id);
    hide KickRun;
    var user := s.logins[s.inbox[h][0]].user;
    assert EntryFromBind(s, h, user);
    var d: nat :| d < |s.logins| && s.logins[d].stage == Settled(true)
      && s.logins[d].user == user && s.logins[d].gateway == h && s.logins[d].conn == s.gateways[h].users[user];
    assert OpenBound(s, d) && OnlyLaterPending(s, d);
    KickFindsDisplaced(s, h, d);
  }

  /**
    In such runs an open connection is the latest login's if and only if no displacement by its user has
    still to be published, or to be handled at its gateway.
   */
  lemma LatestExactlyWhenQuiet(
    config: Heartbeat.Config, states: seq<System>, actions: seq<Action>, i: nat, l: nat)
    requires KickRun(config, states, actions) && i < |states| && OpenBound(states[i], l)
    ensures var s := states[i]; IsLatest(s, l) <==> Quiet(s, s.logins[l].user, s.logins[l].gateway)
  {
    RunKeepsKickInv(config, states, actions, i);
    var s := states[i];
    if Quiet(s, s.logins[l].user, s.logins[l].gateway) {
      OpenConnectionIsLatest(config, states, actions, i, l);
    }
    hide KickRun;
    hide Core;
    assert OnlyLaterPending(s, l);
  }

  lemma KickCloses(config: Heartbeat.Config, s: System, g: nat, next: System, h: nat, id: string)
    requires Shaped(s) && Displacement.Next(config, s, HandleInvalidate(g), next)
    requires h < |s.gateways| && id in s.gateways[h].connections
    requires h < |next.gateways| && id !in next.gateways[h].connections
    ensures h == g && s.inbox[h] != [] && s.inbox[h][0] < |s.logins|
    ensures var user := s.logins[s.inbox[h][0]].user; user in s.gateways[h].users && s.gateways[h].users[user] == id
  {}
}
