/**
  Runs from the start of the route manager, over a store of one service type and one route, that end
  at rest with a table that is not that of the store: a service type written between the two reads of
  a build, and a reload by the timer that fails.
 */
module RouteLimits {
  import opened Wrappers
  import opened RouteBuild
  import opened RouteManager
  import opened RouteRuns

  const PREFIXES := Prefixes("k/", "k/t/", "k/r/")
  const TYPE_KEY := "k/t/a"
  const ROUTE_KEY := "k/r/b"
  const TYPE := TypeSpec(1, "a", StatelessLb, "target", true)
  const ROUTE := RouteSpec(1, "b", "method", "ingress", "a", false, false)
  const STORE := [Put(TYPE_KEY, Some(TYPE), None), Put(ROUTE_KEY, None, Some(ROUTE))]

  // ----- what a build of this store gives -----

  lemma KeysUnderPrefixes()
    ensures PREFIXES.Nested()
    ensures PREFIXES.types <= TYPE_KEY && !(PREFIXES.routes <= TYPE_KEY)
    ensures PREFIXES.routes <= ROUTE_KEY && !(PREFIXES.types <= ROUTE_KEY)
    ensures KeySuffix(TYPE_KEY, PREFIXES.types) == "a" && KeySuffix(ROUTE_KEY, PREFIXES.routes) == "b"
  {
    SuffixBetweenSlashes("k/t/", "", "a", "");
    assert "k/t/" + "" + "a" + "" == "k/t/a";
    SuffixBetweenSlashes("k/r/", "", "b", "");
    assert "k/r/" + "" + "b" + "" == "k/r/b";
    hide KeySuffix;
    assert TYPE_KEY[2] == 't' && ROUTE_KEY[2] == 'r' && PREFIXES.types[2] == 't' && PREFIXES.routes[2] == 'r';
  }

  lemma StoreViews()
    ensures TypesAt(STORE, PREFIXES.types) == [Kv(TYPE_KEY, Some(TYPE))]
    ensures RoutesAt(STORE, PREFIXES.routes) == [Kv(ROUTE_KEY, Some(ROUTE))]
  {
    KeysUnderPrefixes();
    hide KeySuffix;
    var first, second := STORE[0], STORE[1];
    assert STORE[..1] == [first] && [first][..0] == [];
    assert TypesAt([first], PREFIXES.types) == [Kv(TYPE_KEY, Some(TYPE))];
    assert RoutesAt([first], PREFIXES.routes) == [];
  }

  /** A change that is not about the routes leaves their view alone, and deleting the type empties its view. */
  lemma AfterChange(c: Change)
    requires !(PREFIXES.routes <= c.key)
    ensures RoutesAt(STORE + [c], PREFIXES.routes) == [Kv(ROUTE_KEY, Some(ROUTE))]
    ensures c == Delete(TYPE_KEY) ==> TypesAt(STORE + [c], PREFIXES.types) == []
  {
    StoreViews();
    KeysUnderPrefixes();
    assert (STORE + [c])[..2] == STORE;
    hide KeySuffix;
  }

  /** The build for a connection `conn` dialled for the type. */
  function BuiltWith(conn: nat, routesRev: nat): Built {
    Built(map["method" := Binding(conn, "ingress", false, false)], {conn}, routesRev + 1)
  }

  lemma Builds(types: seq<Kv<TypeSpec>>, routes: seq<Kv<RouteSpec>>, typesRev: nat, routesRev: nat, conn: nat)
    requires types == [Kv(TYPE_KEY, Some(TYPE))] && routes == [Kv(ROUTE_KEY, Some(ROUTE))] && typesRev <= routesRev
    ensures BuildFrom(Range(types, typesRev), Range(routes, routesRev), PREFIXES.types, PREFIXES.routes,
            map[TYPE_KEY := conn])
            == Ok(BuiltWith(conn, routesRev))
  {
    KeysUnderPrefixes();
    hide KeySuffix;
    var dial := map[TYPE_KEY := conn];
    assert types[..0] == [] && routes[..0] == [];
    assert Dialled(types[0], PREFIXES.types, dial);
    assert TypeConns([], PREFIXES.types, dial) == map[];
    var conns := TypeConns(types, PREFIXES.types, dial);
    assert conns == map["a" := conn];
    WinnersOfOne(routes, conns.Keys);
    hide TypeConns;
    hide Winners;
    assert conns.Values == {conn} by { assert conns["a"] == conn; }
    var winners := Winners(routes, PREFIXES.routes, conns.Keys);
    assert (map m | m in winners && winners[m].serviceType in conns :: BindingOf(winners[m], conns))
        == map["method" := Binding(conn, "ingress", false, false)];
  }

  lemma WinnersOfOne(routes: seq<Kv<RouteSpec>>, types: set<string>)
    requires routes == [Kv(ROUTE_KEY, Some(ROUTE))] && "a" in types
    ensures Winners(routes, PREFIXES.routes, types) == map["method" := ROUTE]
  {
    KeysUnderPrefixes();
    hide KeySuffix;
    assert routes[..0] == [] && Usable(routes[0], PREFIXES.routes, types);
  }

  // ----- one step after another -----

  lemma Extend(p: Prefixes, states: seq<State>, actions: seq<Action>, a: Action, next: State)
    returns (states': seq<State>, actions': seq<Action>)
    requires Run(p, states, actions) && Next(p, states[|actions|], a, next)
    ensures states' == states + [next] && actions' == actions + [a]
    ensures |states'| == |actions'| + 1 && states'[|actions'|] == next && Run(p, states', actions')
  {
    hide Next;
    states', actions' := states + [next], actions + [a];
    assert states'[0] == states[0];
    forall i | 0 <= i < |actions'| ensures Next(p, states'[i], actions'[i], states'[i + 1]) {
      if i < |actions| {
        assert Next(p, states[i], actions[i], states[i + 1]);
      }
    }
  }

  /** The first build, by the loop, with the store changed between its two reads or not at all. */
  function BootSnapshot(change: Option<Change>, conn: nat): Snapshot {
    var rev := if change.Some? then 3 else 2;
    Snapshot(2, rev, map[TYPE_KEY := conn], BuiltWith(conn, rev))
  }

  function Log(change: Option<Change>): seq<Change> {
    if change.Some? then STORE + [change.value] else STORE
  }

  /** The manager at rest after its first build. */
  function Booted(change: Option<Change>, conn: nat): State {
    State(Log(change), Idle, |Log(change)| + 1, Some(BootSnapshot(change, conn)), false, 0, Open(|Log(change)|), false,
          {conn}, {conn}, {}, {}, false)
  }

  lemma BootReads(change: Option<Change>, conn: nat)
    requires change.Some? ==> !(PREFIXES.routes <= change.value.key)
    ensures ReadAt(PREFIXES, Log(change), 2, |Log(change)|, map[TYPE_KEY := conn]) == Ok(BuiltWith(conn, |Log(change)|))
    ensures Opened(PREFIXES, Log(change), 2, map[TYPE_KEY := conn]) == {conn}
  {
    StoreViews();
    KeysUnderPrefixes();
    var log, dial := Log(change), map[TYPE_KEY := conn];
    assert log[..2] == STORE && log[..|log|] == log;
    if change.Some? { AfterChange(change.value); }
    hide TypesAt;
    hide RoutesAt;
    hide KeySuffix;
    var kv := Kv(TYPE_KEY, Some(TYPE));
    Builds([kv], [Kv(ROUTE_KEY, Some(ROUTE))], 2, |log|, conn);
    hide BuildFrom;
    assert Dialled(kv, PREFIXES.types, dial) && dial[kv.key] == conn;
  }

  /** The first build has read the store and is about to be published. */
  function AboutToPublish(change: Option<Change>, conn: nat): State {
    Begin(Log(change)).(phase := Ready(true, BootSnapshot(change, conn)), dialled := {conn})
  }

  lemma BootReading(change: Option<Change>, conn: nat) returns (states: seq<State>, actions: seq<Action>)
    requires change.Some? ==> !(PREFIXES.routes <= change.value.key)
    ensures |states| == |actions| + 1 && Run(PREFIXES, states, actions) &&
            states[|actions|] == AboutToPublish(change, conn)
    ensures change.Some? ==> |actions| >= 3 && actions[2] == Write(change.value)
  {
    hide ReadAt;
    hide Opened;
    BootReads(change, conn);
    var s := Begin(STORE);
    states, actions := [s], [];
    s := s.(phase := Started(true));
    states, actions := Extend(PREFIXES, states, actions, Acquire(true), s);
    s := s.(phase := HaveTypes(true, 2));
    states, actions := Extend(PREFIXES, states, actions, ReadTypes, s);
    if change.Some? {
      s := s.(log := STORE + [change.value]);
      states, actions := Extend(PREFIXES, states, actions, Write(change.value), s);
    }
    assert {} + {conn} == {conn} && {conn} - {conn} == {};
    var a := ReadRoutes(map[TYPE_KEY := conn]);
    states, actions := Extend(PREFIXES, states, actions, a, AboutToPublish(change, conn));
  }

  /** The first build is published and active, and the loop goes on to its watch. */
  function JustBooted(change: Option<Change>, conn: nat): State {
    Booted(change, conn).(watch := Loading)
  }

  lemma BootPublishing(change: Option<Change>, conn: nat) returns (states: seq<State>, actions: seq<Action>)
    requires change.Some? ==> !(PREFIXES.routes <= change.value.key)
    ensures |states| == |actions| + 1 && Run(PREFIXES, states, actions) && states[|actions|] == JustBooted(change, conn)
    ensures change.Some? ==> |actions| >= 3 && actions[2] == Write(change.value)
  {
    hide ReadAt;
    hide Opened;
    hide Log;
    states, actions := BootReading(change, conn);
    LogLength(change);
    var s, n := AboutToPublish(change, conn), BootSnapshot(change, conn);
    s := s.(phase := RevStored(true, n), nextWatchRev := n.built.nextWatchRev);
    states, actions := Extend(PREFIXES, states, actions, StoreRev, s);
    s := s.(phase := Stored(true, n), published := Some(n));
    states, actions := Extend(PREFIXES, states, actions, PublishTable, s);
    hide Run;
    assert {} + {} == s.draining;
    states, actions := Extend(PREFIXES, states, actions, SwapConns, JustBooted(change, conn));
  }

  lemma LogLength(change: Option<Change>)
    ensures |Log(change)| == if change.Some? then 3 else 2
  {}

  lemma Boot(change: Option<Change>, conn: nat) returns (states: seq<State>, actions: seq<Action>)
    requires change.Some? ==> !(PREFIXES.routes <= change.value.key)
    ensures |states| == |actions| + 1 && Run(PREFIXES, states, actions) && states[|actions|] == Booted(change, conn)
    ensures change.Some? ==> |actions| >= 3 && actions[2] == Write(change.value)
  {
    hide ReadAt;
    hide Opened;
    hide Log;
    hide BootSnapshot;
    states, actions := BootPublishing(change, conn);
    LogLength(change);
    hide Run;
    var s := JustBooted(change, conn);
    s := s.(watch := Loaded(s.nextWatchRev));
    states, actions := Extend(PREFIXES, states, actions, LoadRev, s);
    states, actions := Extend(PREFIXES, states, actions, OpenWatch, Booted(change, conn));
  }

  // ----- what the theorems cannot promise -----

  /**
    A type record deleted between the two reads of a build is never seen: the manager comes to rest
    with everything delivered and no rebuild to come, and with a table for a type that is gone.
   */
  lemma TypeWriteInGapIsMissed(conn: nat) returns (states: seq<State>, actions: seq<Action>)
    ensures |states| == |actions| + 1 && Run(PREFIXES, states, actions) && PREFIXES.Nested()
    ensures var s := states[|actions|];
            && Quiescent(s) && s.published.Some?
            && "method" in s.published.value.built.table
            && TypesAt(s.log, PREFIXES.types) == []
            && ReadAt(PREFIXES, s.log, |s.log|, |s.log|, s.published.value.dial) == Err(EmptyServiceTypes)
  {
    var change := Delete(TYPE_KEY);
    KeysUnderPrefixes();
    AfterChange(change);
    hide TypesAt;
    hide RoutesAt;
    hide KeySuffix;
    states, actions := Boot(Some(change), conn);
    var log := Log(Some(change));
    assert log[..|log|] == log;
  }

  /** A reload that fails is not retried: its write is neither seen nor pending, and nothing more happens. */
  lemma FailedReloadIsNotRetried(change: Change, conn: nat) returns (states: seq<State>, actions: seq<Action>)
    requires PREFIXES.Relevant(change)
    ensures |states| == |actions| + 1 && Run(PREFIXES, states, actions)
    ensures var s := states[|actions|];
            && s.phase.Idle? && s.published.Some? && |s.log| == 3 && s.log[2] == change
            && !Seen(PREFIXES, s.published.value, change, 3) && !Pending(s, 3)
            && s.watch == Open(3) && !s.armed && s.waiting == 0
  {
    hide ReadAt;
    hide Opened;
    hide BootSnapshot;
    states, actions := WriteDelivered(change, conn);
    BootRevisions(conn);
    hide Run;
    var s := AfterDelivery(change, conn);
    s := s.(armed := false, waiting := 1);
    states, actions := Extend(PREFIXES, states, actions, Fire, s);
    s := s.(phase := Started(false), waiting := 0);
    states, actions := Extend(PREFIXES, states, actions, Acquire(false), s);
    s := s.(phase := Idle, timerFailed := true);
    states, actions := Extend(PREFIXES, states, actions, Fail, s);
  }

  lemma BootRevisions(conn: nat)
    ensures BootSnapshot(None, conn).typesRev == BootSnapshot(None, conn).routesRev == 2
  {}

  function AfterDelivery(change: Change, conn: nat): State {
    Booted(None, conn).(log := STORE + [change], watch := Open(3), armed := true)
  }

  lemma WriteDelivered(change: Change, conn: nat) returns (states: seq<State>, actions: seq<Action>)
    requires PREFIXES.Relevant(change)
    ensures |states| == |actions| + 1 && Run(PREFIXES, states, actions) &&
            states[|actions|] == AfterDelivery(change, conn)
  {
    hide ReadAt;
    hide Opened;
    hide BootSnapshot;
    states, actions := Boot(None, conn);
    WatchCovers(change);
    hide Run;
    var s := Booted(None, conn).(log := STORE + [change]);
    states, actions := Extend(PREFIXES, states, actions, Write(change), s);
    assert s.log[2] == change;
    states, actions := Extend(PREFIXES, states, actions, Deliver(3), AfterDelivery(change, conn));
  }

  lemma WatchCovers(change: Change)
    requires PREFIXES.Relevant(change)
    ensures PREFIXES.watch <= change.key
  {
    assert PREFIXES.watch <= PREFIXES.types && PREFIXES.watch <= PREFIXES.routes;
  }
}
