/**
  The route manager as interleaved steps over a revisioned store. Every write to the store gets the
  next revision and reads are linearizable. One step is one store read, one atomic store, one swap
  under a lock, one timer firing or one watch delivery; rebuilds by the debounce timer and by the
  watch loop race for the build lock.
 */
module RouteManager {
  import opened Wrappers
  import opened RouteBuild

  // ----- the store -----

  /** A written value is whatever it decodes to as a type record and as a route record. */
  datatype Change = Put(key: string, asType: Option<TypeSpec>, asRoute: Option<RouteSpec>) | Delete(key: string)

  /** The watch prefix, and the two prefixes that Build reads. */
  datatype Prefixes = Prefixes(watch: string, types: string, routes: string) {
    predicate Nested() {
      watch <= types && watch <= routes
    }

    predicate Relevant(c: Change) {
      types <= c.key || routes <= c.key
    }
  }

  function PutKv<T>(view: seq<Kv<T>>, key: string, value: Option<T>): seq<Kv<T>> {
    if view == [] then [Kv(key, value)]
    else if view[0].key == key then [Kv(key, value)] + view[1..]
    else if Greater(view[0].key, key) then [Kv(key, value)] + view
    else [view[0]] + PutKv(view[1..], key, value)
  }

  function DropKv<T>(view: seq<Kv<T>>, key: string): seq<Kv<T>> {
    if view == [] then []
    else if view[0].key == key then view[1..]
    else [view[0]] + DropKv(view[1..], key)
  }

  /** The records under a prefix after a history of writes, in key order. */
  function TypesAt(log: seq<Change>, prefix: string): seq<Kv<TypeSpec>> {
    if log == [] then [] else
      var before, c := TypesAt(log[..|log| - 1], prefix), log[|log| - 1];
      if !(prefix <= c.key) then before
      else if c.Put? then PutKv(before, c.key, c.asType) else DropKv(before, c.key)
  }

  function RoutesAt(log: seq<Change>, prefix: string): seq<Kv<RouteSpec>> {
    if log == [] then [] else
      var before, c := RoutesAt(log[..|log| - 1], prefix), log[|log| - 1];
      if !(prefix <= c.key) then before
      else if c.Put? then PutKv(before, c.key, c.asRoute) else DropKv(before, c.key)
  }

  lemma {:induction false} TypesUnchanged(log: seq<Change>, from: nat, prefix: string)
    requires from <= |log| && forall r | from <= r < |log| :: !(prefix <= log[r].key)
    ensures TypesAt(log, prefix) == TypesAt(log[..from], prefix)
  {
    if from == |log| {
      assert log[..from] == log;
    } else {
      var shorter := log[..|log| - 1];
      TypesUnchanged(shorter, from, prefix);
      assert shorter[..from] == log[..from];
    }
  }

  lemma {:induction false} RoutesUnchanged(log: seq<Change>, from: nat, prefix: string)
    requires from <= |log| && forall r | from <= r < |log| :: !(prefix <= log[r].key)
    ensures RoutesAt(log, prefix) == RoutesAt(log[..from], prefix)
  {
    if from == |log| {
      assert log[..from] == log;
    } else {
      var shorter := log[..|log| - 1];
      RoutesUnchanged(shorter, from, prefix);
      assert shorter[..from] == log[..from];
    }
  }

  // ----- the manager -----

  /** A successful build: the revisions of its two reads, the dials that succeeded, and the result. */
  datatype Snapshot = Snapshot(typesRev: nat, routesRev: nat, dial: map<string, nat>, built: Built)

  /** Where the holder of the build lock is. */
  datatype Phase =
    | Idle
    | Started(byRun: bool)
    | HaveTypes(byRun: bool, typesRev: nat)
    | Ready(byRun: bool, next: Snapshot)
    | RevStored(byRun: bool, next: Snapshot)
    | Stored(byRun: bool, next: Snapshot)
  {
    predicate Finishing() { Ready? || RevStored? || Stored? }
  }

  /** Where the watch loop is; an open watch has delivered everything up to `delivered`. */
  datatype Watch = Loading | Loaded(rev: int) | Open(delivered: nat) | Dropped | Rebooting | Exited

  datatype State = State(
    log: seq<Change>,
    phase: Phase,
    nextWatchRev: int,
    published: Option<Snapshot>,
    armed: bool,                // the debounce timer is running
    waiting: nat,               // fired timers waiting for the build lock
    watch: Watch,
    timerFailed: bool,          // the last rebuild was the timer's, and it failed
    dialled: set<nat>, active: set<nat>, draining: set<nat>, closed: set<nat>,
    shutDown: bool)

  function Begin(log: seq<Change>): State {
    State(log, Idle, 0, None, false, 0, Rebooting, false, {}, {}, {}, {}, false)
  }

  datatype Action =
    | Write(change: Change)
    | LoadRev | OpenWatch | Deliver(upTo: nat) | DropWatch | Reconnect
    | Fire
    | Acquire(byRun: bool)
    | ReadTypes
    | ReadRoutes(dial: map<string, nat>)
    | Fail
    | StoreRev | PublishTable | SwapConns
    | Drain(conn: nat)
    | Close

  function ReadAt(p: Prefixes, log: seq<Change>, typesRev: nat, routesRev: nat, dial: map<string, nat>)
    : Result<Built, BuildError>
    requires typesRev <= |log| && routesRev <= |log|
  {
    BuildFrom(Range(TypesAt(log[..typesRev], p.types), typesRev),
      Range(RoutesAt(log[..routesRev], p.routes), routesRev),
              p.types, p.routes, dial)
  }

  /** The connections a dial oracle opened for the type records that were dialled. */
  function Opened(p: Prefixes, log: seq<Change>, typesRev: nat, dial: map<string, nat>): set<nat>
    requires typesRev <= |log|
  {
    DialledConns(TypesAt(log[..typesRev], p.types), p.types, dial)
  }

  /** The watch loop goes on once its own rebuild is over, except that the very first one must succeed. */
  function AfterReboot(byRun: bool, watch: Watch, haveTable: bool): Watch {
    if byRun then (if haveTable then Loading else Exited) else watch
  }

  ghost predicate Next(p: Prefixes, s: State, a: Action, next: State) {
    match a
    case Write(change) => next == s.(log := s.log + [change])
    case LoadRev => s.watch.Loading? && next == s.(watch := Loaded(s.nextWatchRev))
    case OpenWatch => s.watch.Loaded? && s.watch.rev >= 1 && next == s.(watch := Open(s.watch.rev - 1))
    case Deliver(upTo) =>
      && s.watch.Open? && s.watch.delivered < upTo <= |s.log|
      && next == s.(watch := Open(upTo),
                    armed := s.armed || exists r :: s.watch.delivered <= r < upTo && p.watch <= s.log[r].key)
    case DropWatch => s.watch.Open? && next == s.(watch := Dropped)
    case Reconnect => s.watch.Dropped? && next == s.(watch := Rebooting)
    case Fire => s.armed && next == s.(armed := false, waiting := s.waiting + 1)
    case Acquire(byRun) =>
      && s.phase.Idle?
      && (if byRun then s.watch.Rebooting? && next == s.(phase := Started(true))
          else s.waiting > 0 && next == s.(phase := Started(false), waiting := s.waiting - 1))
    case ReadTypes => s.phase.Started? && next == s.(phase := HaveTypes(s.phase.byRun, |s.log|))
    case ReadRoutes(dial) =>
      && s.phase.HaveTypes? && s.phase.typesRev <= |s.log|
      && (forall k | k in dial :: dial[k] !in s.dialled)
      && (forall j, k | j in dial && k in dial && j != k :: dial[j] != dial[k])
      && var built := ReadAt(p, s.log, s.phase.typesRev, |s.log|, dial);
         var dialledNow := Opened(p, s.log, s.phase.typesRev, dial);
         built.Ok?
         && next == s.(phase := Ready(s.phase.byRun, Snapshot(s.phase.typesRev, |s.log|, dial, built.value)),
                       dialled := s.dialled + dialledNow,
                       closed := s.closed + (dialledNow - built.value.conns))
    case Fail =>
      && (s.phase.Started? || s.phase.HaveTypes?)
      && next == s.(phase := Idle, timerFailed := !s.phase.byRun,
                    watch := AfterReboot(s.phase.byRun, s.watch, s.published.Some?))
    case StoreRev =>
      s.phase.Ready?
      && next == s.(phase := RevStored(s.phase.byRun, s.phase.next), nextWatchRev := s.phase.next.built.nextWatchRev)
    case PublishTable =>
      s.phase.RevStored?
      && next == s.(phase := Stored(s.phase.byRun, s.phase.next), published := Some(s.phase.next))
    case SwapConns =>
      s.phase.Stored?
      && next == s.(phase := Idle, timerFailed := false,
                    active := s.phase.next.built.conns, draining := s.draining + s.active,
                    watch := AfterReboot(s.phase.byRun, s.watch, true))
    case Drain(conn) => conn in s.draining && next == s.(draining := s.draining - {conn}, closed := s.closed + {conn})
    case Close => next == s.(closed := s.closed + s.active, active := {}, shutDown := true)
  }

  ghost predicate Run(p: Prefixes, states: seq<State>, actions: seq<Action>) {
    && |states| == |actions| + 1 && (exists log :: states[0] == Begin(log))
    && forall i | 0 <= i < |actions| :: Next(p, states[i], actions[i], states[i + 1])
  }

  // ----- every snapshot is a faithful build of what its reads saw -----

  ghost predicate Genuine(p: Prefixes, log: seq<Change>, x: Snapshot) {
    && x.typesRev <= x.routesRev <= |log|
    && ReadAt(p, log, x.typesRev, x.routesRev, x.dial) == Ok(x.built)
    && x.built.nextWatchRev == x.routesRev + 1
  }

  lemma GenuineStays(p: Prefixes, log: seq<Change>, c: Change, x: Snapshot)
    requires Genuine(p, log, x)
    ensures Genuine(p, log + [c], x)
  {
    assert (log + [c])[..x.typesRev] == log[..x.typesRev] && (log + [c])[..x.routesRev] == log[..x.routesRev];
  }

  /** Revisions only go up: the build under way read no earlier than the published one. */
  ghost predicate Ordered(p: Prefixes, s: State) {
    && (s.published.Some? ==> Genuine(p, s.log, s.published.value))
    && (s.phase.Finishing() ==> Genuine(p, s.log, s.phase.next))
    && (s.phase.HaveTypes? ==> s.phase.typesRev <= |s.log|)
    && (s.published.Some? ==>
          && (s.phase.HaveTypes? ==> s.published.value.routesRev <= s.phase.typesRev)
          && (s.phase.Ready? || s.phase.RevStored? ==> s.published.value.routesRev <= s.phase.next.typesRev))
    && (s.phase.Stored? ==> s.published == Some(s.phase.next))
    && s.nextWatchRev == (if s.phase.RevStored? || s.phase.Stored? then s.phase.next.routesRev + 1
                          else if s.published.Some? then s.published.value.routesRev + 1 else 0)
    && (s.watch.Loading? || s.watch.Loaded? || s.watch.Open? || s.watch.Dropped? ==> s.published.Some?)
    && (s.watch.Loaded? ==> 1 <= s.watch.rev <= s.nextWatchRev)
    && (s.watch.Open? ==> s.watch.delivered <= |s.log|)
  }

  lemma ReadAtRevision(p: Prefixes, log: seq<Change>, typesRev: nat, routesRev: nat, dial: map<string, nat>)
    requires typesRev <= routesRev <= |log| && ReadAt(p, log, typesRev, routesRev, dial).Ok?
    ensures ReadAt(p, log, typesRev, routesRev, dial).value.nextWatchRev == routesRev + 1
  {}

  lemma StepKeepsOrdered(p: Prefixes, s: State, a: Action, next: State)
    requires Ordered(p, s) && Next(p, s, a, next)
    ensures Ordered(p, next)
  {
    hide Ordered;
    hide Next;
    match a
    case Write(change) => WriteKeepsOrdered(p, s, change, next);
    case ReadRoutes(dial) => ReadKeepsOrdered(p, s, dial, next);
    case _ =>
      if AroundBuild(a) {
        AroundKeepsOrdered(p, s, a, next);
      } else {
        OthersKeepOrdered(p, s, a, next);
      }
  }

  /** The steps of the watch, the timer, draining and Close. */
  predicate AroundBuild(a: Action) {
    a.LoadRev? || a.OpenWatch? || a.Deliver? || a.DropWatch? || a.Reconnect? || a.Fire? || a.Drain? || a.Close?
  }

  lemma AroundKeepsOrdered(p: Prefixes, s: State, a: Action, next: State)
    requires Ordered(p, s) && Next(p, s, a, next) && AroundBuild(a)
    ensures Ordered(p, next)
    ensures next.phase == s.phase && next.published == s.published && next.log == s.log &&
            next.nextWatchRev == s.nextWatchRev
  {
    RevisionOf(p, s);
    hide Genuine;
    hide ReadAt;
    hide Opened;
    match a
    case LoadRev =>
    case OpenWatch =>
    case Deliver(_) =>
    case DropWatch =>
    case Reconnect =>
    case Fire =>
    case Drain(_) =>
    case Close =>
  }

  lemma OthersKeepOrdered(p: Prefixes, s: State, a: Action, next: State)
    requires Ordered(p, s) && Next(p, s, a, next) && !a.Write? && !a.ReadRoutes? && !AroundBuild(a)
    ensures Ordered(p, next)
  {
    RevisionOf(p, s);
    hide Genuine;
    hide ReadAt;
    hide Opened;
    match a
    case Acquire(_) =>
    case ReadTypes =>
    case Fail =>
    case StoreRev =>
    case PublishTable =>
    case SwapConns =>
  }

  lemma RevisionOf(p: Prefixes, s: State)
    requires Ordered(p, s)
    ensures s.phase.Finishing() ==> s.phase.next.built.nextWatchRev == s.phase.next.routesRev + 1
    ensures s.published.Some? ==> s.published.value.routesRev <= |s.log|
    ensures s.nextWatchRev <= |s.log| + 1
    ensures s.phase.Finishing() ==> s.phase.next.routesRev <= |s.log|
    ensures s.published.Some? && s.phase.Finishing() ==> s.published.value.routesRev <= s.phase.next.routesRev
  {
    hide ReadAt;
  }

  lemma WriteKeepsOrdered(p: Prefixes, s: State, change: Change, next: State)
    requires Ordered(p, s) && Next(p, s, Write(change), next)
    ensures Ordered(p, next)
  {
    hide ReadAt;
    hide Opened;
    if s.published.Some? { GenuineStays(p, s.log, change, s.published.value); }
    if s.phase.Finishing() { GenuineStays(p, s.log, change, s.phase.next); }
    hide Genuine;
  }

  lemma ReadKeepsOrdered(p: Prefixes, s: State, dial: map<string, nat>, next: State)
    requires Ordered(p, s) && Next(p, s, ReadRoutes(dial), next)
    ensures Ordered(p, next)
  {
    ReadAtRevision(p, s.log, s.phase.typesRev, |s.log|, dial);
    hide ReadAt;
    hide Opened;
    assert Genuine(p, next.log, next.phase.next);
    hide Genuine;
  }

  // ----- connections -----

  /** Just built means built by the rebuild under way and not yet made active. */
  function JustBuilt(s: State): set<nat> {
    if s.phase.Finishing() then s.phase.next.built.conns else {}
  }

  function TableConns(table: map<string, Binding>): set<nat> {
    set m | m in table :: table[m].conn
  }

  /** Each dialled connection is in exactly one of the four places, and the published table uses none that is closed. */
  ghost predicate ConnsRight(s: State) {
    && s.dialled == JustBuilt(s) + s.active + s.draining + s.closed
    && JustBuilt(s) !! s.active !! s.draining !! s.closed
    && (s.published.Some? && !s.shutDown ==>
          TableConns(s.published.value.built.table) <= if s.phase.Stored? then JustBuilt(s) else s.active)
    && (s.phase.Finishing() ==> TableConns(s.phase.next.built.table) <= JustBuilt(s))
  }

  lemma BuiltConnsAreOpened(p: Prefixes, log: seq<Change>, typesRev: nat, routesRev: nat, dial: map<string, nat>)
    requires typesRev <= |log| && routesRev <= |log| && ReadAt(p, log, typesRev, routesRev, dial).Ok?
    ensures var built := ReadAt(p, log, typesRev, routesRev, dial).value;
            && TableConns(built.table) <= built.conns <= Opened(p, log, typesRev, dial)
            && forall c | c in Opened(p, log, typesRev, dial) :: exists k :: k in dial && c == dial[k]
  {
    var kvs := TypesAt(log[..typesRev], p.types);
    var conns := TypeConns(kvs, p.types, dial);
    forall c | c in conns.Values ensures c in Opened(p, log, typesRev, dial) {
      var tk :| tk in conns && conns[tk] == c;
      TypeConnsLast(kvs, p.types, dial, tk);
      var kv := kvs[LastDialled(kvs, p.types, dial, tk).value];
      assert kv in kvs && Dialled(kv, p.types, dial) && dial[kv.key] == c;
    }
  }

  lemma StepKeepsConnsRight(p: Prefixes, s: State, a: Action, next: State)
    requires ConnsRight(s) && Ordered(p, s) && Next(p, s, a, next)
    ensures ConnsRight(next)
  {
    hide ReadAt;
    hide Opened;
    hide Genuine;
    hide TableConns;
    match a
    case ReadRoutes(dial) => ReadKeepsConns(p, s, dial, next);
    case SwapConns => SwapKeepsConns(s, next);
    case _ =>
      hide Ordered;
      if a.Drain? || a.Close? || a.PublishTable? {
        SimpleKeepsConns(p, s, a, next);
      } else {
        OthersMoveNoConns(p, s, a, next);
        hide Next;
      }
  }

  lemma ReadKeepsConns(p: Prefixes, s: State, dial: map<string, nat>, next: State)
    requires ConnsRight(s) && Next(p, s, ReadRoutes(dial), next)
    ensures ConnsRight(next)
  {
    hide TableConns;
    var dialledNow := Opened(p, s.log, s.phase.typesRev, dial);
    BuiltConnsAreOpened(p, s.log, s.phase.typesRev, |s.log|, dial);
    hide Opened;
    hide ReadAt;
    hide ConnsRight;
    assert dialledNow !! s.dialled;
    NewBuildConns(s, next, dialledNow);
  }

  /** Draining, Close and publishing move connections or the table one by one. */
  lemma SimpleKeepsConns(p: Prefixes, s: State, a: Action, next: State)
    requires ConnsRight(s) && Next(p, s, a, next) && (a.Drain? || a.Close? || a.PublishTable?)
    ensures ConnsRight(next)
  {
    hide TableConns;
    hide ReadAt;
    hide Opened;
    match a
    case Drain(conn) => DrainKeepsConns(s, conn);
    case Close =>
    case PublishTable =>
  }

  lemma DrainKeepsConns(s: State, conn: nat)
    requires ConnsRight(s) && conn in s.draining
    ensures ConnsRight(s.(draining := s.draining - {conn}, closed := s.closed + {conn}))
  {
    hide TableConns;
  }

  /** The other steps open, close and move no connection, and publish nothing. */
  lemma OthersMoveNoConns(p: Prefixes, s: State, a: Action, next: State)
    requires Next(p, s, a, next)
    requires !a.ReadRoutes? && !a.SwapConns? && !a.Drain? && !a.Close? && !a.PublishTable?
    ensures next.dialled == s.dialled && next.active == s.active && next.draining == s.draining &&
            next.closed == s.closed
    ensures next.published == s.published && next.shutDown == s.shutDown
    ensures next.phase.Stored? == s.phase.Stored? && next.phase.Finishing() == s.phase.Finishing()
    ensures s.phase.Finishing() ==> next.phase.next == s.phase.next
  {
    hide ReadAt;
    hide Opened;
    if AroundBuild(a) {
      assert next.phase == s.phase;
    } else {
      match a
      case Write(_) =>
      case Acquire(_) =>
      case ReadTypes =>
      case Fail =>
      case StoreRev =>
    }
  }

  lemma NewBuildConns(s: State, next: State, dialledNow: set<nat>)
    requires ConnsRight(s) && s.phase.HaveTypes? && next.phase.Ready? && dialledNow !! s.dialled
    requires next == s.(phase := next.phase, dialled := s.dialled + dialledNow,
                        closed := s.closed + (dialledNow - next.phase.next.built.conns))
    requires TableConns(next.phase.next.built.table) <= next.phase.next.built.conns <= dialledNow
    ensures ConnsRight(next)
  {
    hide TableConns;
  }

  lemma SwapKeepsConns(s: State, next: State)
    requires ConnsRight(s) && s.phase.Stored? && s.published == Some(s.phase.next) && next.phase.Idle?
    requires next == s.(phase := Idle, timerFailed := false, active := s.phase.next.built.conns,
                        draining := s.draining + s.active, watch := next.watch)
    ensures ConnsRight(next)
  {
    hide TableConns;
  }

  // ----- the same calls on the manager's own fields -----

  /** The manager's fields, as far as Bootstrap touches them. */
  datatype Fields = Fields(nextWatchRev: int, table: map<string, Binding>, activeConns: set<nat>)

  class Manager {
    const prefixes: Prefixes
    var nextWatchRev: int
    var table: map<string, Binding>
    var activeConns: set<nat>
    var reloadArmed: bool

    constructor (prefixes: Prefixes)
      ensures this.prefixes == prefixes && Contents() == Fields(0, map[], {}) && !reloadArmed
    {
      this.prefixes := prefixes;
      nextWatchRev, table, activeConns, reloadArmed := 0, map[], {}, false;
    }

    ghost function Contents(): Fields
      reads this
    {
      Fields(nextWatchRev, table, activeConns)
    }

    /** Bootstrap with the build lock held; `toDrain` is closed after the drain delay. */
    method Bootstrap(types: Option<Range<TypeSpec>>, routes: Option<Range<RouteSpec>>, dial: map<string, nat>)
      returns (err: Option<BuildError>, toDrain: set<nat>, closed: set<nat>)
      requires forall a, b | a in dial && b in dial && a != b :: dial[a] != dial[b]
      requires types.Some? ==>
               forall i, j | 0 <= i < j < |types.value.kvs| :: types.value.kvs[i].key != types.value.kvs[j].key
      modifies this
      ensures match BuildOutcome(types, routes, prefixes.types, prefixes.routes, dial)
              case Ok(b) =>
                && err == None && nextWatchRev == b.nextWatchRev && table == b.table && activeConns == b.conns
                && toDrain == old(activeConns)
                && closed == DialledConns(types.value.kvs, prefixes.types, dial) - activeConns
              case Err(e) => err == Some(e)
      ensures err.Some? ==> Contents() == old(Contents()) && toDrain == {} && closed == {}
      ensures reloadArmed == old(reloadArmed)
    {
      var built, _, dups := Build(types, routes, prefixes.types, prefixes.routes, dial);
      closed := dups;
      if built.Err? { return Some(built.error), {}, closed; }
      nextWatchRev := built.value.nextWatchRev;
      table := built.value.table;
      toDrain := activeConns;
      activeConns := built.value.conns;
      err := None;
    }

    method ScheduleReload()
      modifies this
      ensures reloadArmed && Contents() == old(Contents())
    {
      reloadArmed := true;
    }

    method Close() returns (closed: set<nat>)
      modifies this
      ensures closed == old(activeConns) && Contents() == old(Contents()).(activeConns := {})
      ensures reloadArmed == old(reloadArmed)
    {
      closed := activeConns;
      activeConns := {};
    }
  }

  /** The fields of the manager in a state of the step relation. */
  function FieldsOf(s: State): Fields {
    Fields(s.nextWatchRev, if s.published.Some? then s.published.value.built.table else map[], s.active)
  }

  /**
    A rebuild with no step of anyone else between its steps does to the fields what Bootstrap does when
    both reads see the store as it is, and drains and closes the same connections.
   */
  lemma StepsAreBootstrap(p: Prefixes, dial: map<string, nat>, byRun: bool, states: seq<State>)
    requires |states| == 7
    requires Next(p, states[0], Acquire(byRun), states[1]) && Next(p, states[1], ReadTypes, states[2])
    requires Next(p, states[2], ReadRoutes(dial), states[3]) && Next(p, states[3], StoreRev, states[4])
    requires Next(p, states[4], PublishTable, states[5]) && Next(p, states[5], SwapConns, states[6])
    ensures var s, last := states[0], states[6];
            var n := |s.log|;
            var built := BuildOutcome(Some(Range(TypesAt(s.log, p.types), n)),
              Some(Range(RoutesAt(s.log, p.routes), n)), p.types, p.routes, dial);
            && built.Ok?
            && FieldsOf(last) == Fields(built.value.nextWatchRev, built.value.table, built.value.conns)
            && last.draining == s.draining + s.active
            && last.closed == s.closed + (Opened(p, s.log, n, dial) - built.value.conns)
  {
    hide Opened;
    hide TypesAt;
    hide RoutesAt;
    assert states[0].log[..|states[0].log|] == states[0].log;
    ReadIsBuild(p, states[0].log, dial);
    hide ReadAt;
    hide BuildOutcome;
  }

  /**
    A rebuild that fails, before its first read or after it, leaves the fields and every connection as they
    were, as Bootstrap does when the build fails.
   */
  lemma FailedStepsChangeNothing(p: Prefixes, byRun: bool, states: seq<State>)
    requires |states| == 3 || |states| == 4
    requires Next(p, states[0], Acquire(byRun), states[1])
    requires |states| == 3 ==> Next(p, states[1], Fail, states[2])
    requires |states| == 4 ==> Next(p, states[1], ReadTypes, states[2]) && Next(p, states[2], Fail, states[3])
    ensures var s, last := states[0], states[|states| - 1];
            && FieldsOf(last) == FieldsOf(s) && last.published == s.published && last.log == s.log
            && last.dialled == s.dialled && last.active == s.active
            && last.draining == s.draining && last.closed == s.closed
            && last.phase.Idle? && last.shutDown == s.shutDown
  {}

  lemma ReadIsBuild(p: Prefixes, log: seq<Change>, dial: map<string, nat>)
    ensures var built := ReadAt(p, log, |log|, |log|, dial);
            built ==
              BuildOutcome(Some(Range(TypesAt(log, p.types), |log|)), Some(Range(RoutesAt(log, p.routes), |log|)),
              p.types, p.routes, dial)
  {
    hide TypesAt;
    hide RoutesAt;
    assert log[..|log|] == log;
  }
}
