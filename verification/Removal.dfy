/**
  When a registered connection is dropped. Every run of the connection manager gives each client id
  a timeline of its own; the client's heartbeat record is what that timeline leads to, so what holds
  of a timeline holds of the connection.
 */
module Removal {
  import opened Wrappers
  import opened Heartbeat
  import opened Connections

  // ----- the timeline of one client in a run -----

  /** What an operation does to the record of `id`, if anything. */
  function EventOf(t: Tables, op: Op, id: string): Option<Event> {
    match op
    case Register(i, _, at) => if i == id && id !in t.connections then Some(Event.Ping(at)) else None
    case Ping(i, at) => if i == id then Some(Event.Ping(at)) else None
    case Pong(i, at) => if i == id && id in t.beats then Some(Event.Pong(at)) else None
    case Activity(i, at) => if i == id && id in t.beats then Some(Event.Activity(at)) else None
    case Sweep(clock) => if id in t.connections && id in t.beats then Some(Check(clock(id).check)) else None
    case _ => None
  }

  function Appended(events: seq<Event>, e: Option<Event>): seq<Event> {
    if e.Some? then events + [e.value] else events
  }

  function Project(states: seq<Tables>, ops: seq<Op>, id: string): seq<Event>
    requires |states| == |ops| + 1
    decreases |ops|
  {
    if ops == [] then []
    else Appended(Project(states[..|states| - 1], ops[..|ops| - 1], id), EventOf(states[|ops| - 1], ops[|ops| - 1], id))
  }

  lemma ProjectStep(states: seq<Tables>, ops: seq<Op>, id: string)
    requires |states| == |ops| + 1 && ops != []
    ensures Project(states, ops, id) ==
            Appended(Project(states[..|states| - 1], ops[..|ops| - 1], id),
              EventOf(states[|ops| - 1], ops[|ops| - 1], id))
  {
    hide EventOf;
  }

  /** The record of `id` before and after one operation. */
  lemma RecordStep(config: Config, t: Tables, op: Op, next: Tables, id: string)
    requires Next(config, t, op, next)
    ensures match EventOf(t, op, id)
            case None => (id in next.beats <==> id in t.beats) && (id in t.beats ==> next.beats[id] == t.beats[id])
            case Some(e) =>
              && id in next.beats && (id in t.beats || e.Ping?)
              && next.beats[id] == if id in t.beats then React(config, t.beats[id], e) else Pinged(None, e.at)
  {
    hide HeartbeatDue;
    hide IdleDue;
    hide Checked;
    hide DownBy;
  }

  predicate Follows(config: Config, t: Tables, events: seq<Event>, id: string) {
    && (id in t.beats <==> events != [])
    && (events != [] ==> events[0].Ping? && t.beats[id] == After(config, events))
  }

  /** In every run the record of a client is what its own timeline leads to. */
  lemma {:induction false} RecordFollowsTimeline(config: Config, states: seq<Tables>, ops: seq<Op>, id: string)
    requires Run(config, states, ops)
    ensures Follows(config, states[|ops|], Project(states, ops, id), id)
    decreases |ops|
  {
    if ops != [] {
      var t, op := states[|ops| - 1], ops[|ops| - 1];
      RunPrefix(config, states, ops);
      RecordFollowsTimeline(config, states[..|states| - 1], ops[..|ops| - 1], id);
      RecordStep(config, t, op, states[|ops|], id);
      hide Next;
      hide EventOf;
      hide Run;
      AfterAppended(config, Project(states[..|states| - 1], ops[..|ops| - 1], id), EventOf(t, op, id));
    }
  }

  lemma AfterAppended(config: Config, events: seq<Event>, e: Option<Event>)
    ensures e.Some? ==>
              After(config, Appended(events, e)) ==
              if events == [] then Pinged(None, e.value.at) else React(config, After(config, events), e.value)
  {
    if e.Some? {
      assert (events + [e.value])[..|events|] == events;
    }
  }

  // ----- time as one client sees it -----

  predicate Touches(op: Op, id: string) {
    ((op.Register? || op.Ping? || op.Pong? || op.Activity?) && op.id == id) || op.Sweep?
  }

  function TimeFor(op: Op, id: string): int
    requires Touches(op, id)
  {
    if op.Sweep? then op.clock(id).check else op.at
  }

  /** The clock does not run backwards as far as `id` can tell. */
  ghost predicate Monotone(ops: seq<Op>, id: string) {
    forall i, j | 0 <= i < j < |ops| && Touches(ops[i], id) && Touches(ops[j], id) ::
      TimeFor(ops[i], id) <= TimeFor(ops[j], id)
  }

  lemma EventTime(t: Tables, op: Op, id: string)
    ensures EventOf(t, op, id).Some? ==> Touches(op, id) && EventOf(t, op, id).value.at == TimeFor(op, id)
  {}

  ghost predicate FromSomeOp(at: int, ops: seq<Op>, id: string) {
    exists j :: 0 <= j < |ops| && Touches(ops[j], id) && at == TimeFor(ops[j], id)
  }

  ghost predicate FromOps(events: seq<Event>, ops: seq<Op>, id: string) {
    forall k | 0 <= k < |events| :: FromSomeOp(events[k].at, ops, id)
  }

  lemma FromOpsStep(events: seq<Event>, ops: seq<Op>, e: Option<Event>, op: Op, id: string)
    requires FromOps(events, ops, id)
    requires e.Some? ==> Touches(op, id) && e.value.at == TimeFor(op, id)
    ensures FromOps(Appended(events, e), ops + [op], id)
  {
    hide Touches;
    var all := ops + [op];
    forall k | 0 <= k < |Appended(events, e)| ensures FromSomeOp(Appended(events, e)[k].at, all, id) {
      if k < |events| {
        assert FromSomeOp(events[k].at, ops, id);
        var j :| 0 <= j < |ops| && Touches(ops[j], id) && events[k].at == TimeFor(ops[j], id);
        assert all[j] == ops[j];
      } else {
        assert all[|ops|] == op;
      }
    }
  }

  lemma {:induction false} ProjectedTimes(states: seq<Tables>, ops: seq<Op>, id: string)
    requires |states| == |ops| + 1
    ensures FromOps(Project(states, ops, id), ops, id)
    decreases |ops|
  {
    if ops != [] {
      var before, op := ops[..|ops| - 1], ops[|ops| - 1];
      ProjectedTimes(states[..|states| - 1], before, id);
      EventTime(states[|ops| - 1], op, id);
      hide FromOps;
      hide EventOf;
      ProjectStep(states, ops, id);
      assert before + [op] == ops;
      FromOpsStep(Project(states[..|states| - 1], before, id), before, EventOf(states[|ops| - 1], op, id), op, id);
    }
  }

  /** With the clock running forwards, the projection is a timeline. */
  lemma {:induction false} ProjectsToTimeline(config: Config, states: seq<Tables>, ops: seq<Op>, id: string)
    requires Run(config, states, ops) && Monotone(ops, id) && Project(states, ops, id) != []
    ensures Timeline(Project(states, ops, id))
    decreases |ops|
  {
    var before, op, t := ops[..|ops| - 1], ops[|ops| - 1], states[|ops| - 1];
    var past, e := Project(states[..|states| - 1], before, id), EventOf(t, op, id);
    RunPrefix(config, states, ops);
    MonotonePrefix(ops, id);
    RecordFollowsTimeline(config, states, ops, id);
    EventTime(t, op, id);
    if past != [] {
      ProjectsToTimeline(config, states[..|states| - 1], before, id);
      ProjectedTimes(states[..|states| - 1], before, id);
      LaterThan(past, ops, id);
    } else {
      FirstIsPositive(config, t, op, states[|ops|], id);
    }
    hide EventOf;
    hide Run;
    hide Follows;
    hide Monotone;
    hide Touches;
  }

  lemma MonotonePrefix(ops: seq<Op>, id: string)
    requires Monotone(ops, id) && ops != []
    ensures Monotone(ops[..|ops| - 1], id)
  {
    hide Touches;
  }

  lemma LaterThan(past: seq<Event>, ops: seq<Op>, id: string)
    requires ops != [] && Monotone(ops, id) && FromOps(past, ops[..|ops| - 1], id)
    ensures Touches(ops[|ops| - 1], id) ==> forall k | 0 <= k < |past| :: past[k].at <= TimeFor(ops[|ops| - 1], id)
  {
    hide Touches;
    if Touches(ops[|ops| - 1], id) {
      forall k | 0 <= k < |past| ensures past[k].at <= TimeFor(ops[|ops| - 1], id) {
        assert FromSomeOp(past[k].at, ops[..|ops| - 1], id);
        var j :| 0 <= j < |ops| - 1 && Touches(ops[..|ops| - 1][j], id) &&
          past[k].at == TimeFor(ops[..|ops| - 1][j], id);
        assert ops[j] == ops[..|ops| - 1][j];
      }
    }
  }

  lemma FirstIsPositive(config: Config, t: Tables, op: Op, next: Tables, id: string)
    requires Next(config, t, op, next)
    ensures EventOf(t, op, id).Some? && EventOf(t, op, id).value.Ping? ==> EventOf(t, op, id).value.at > NEVER
  {}

  /**
    In every run the missed count of a registered connection is the number of overdue checks since it was
    last heard.
   */
  lemma MissedCountInRuns(config: Config, states: seq<Tables>, ops: seq<Op>, id: string)
    requires Run(config, states, ops) && NoReuse(ops) && Monotone(ops, id) && config.maxMissed >= 1
    requires id in states[|ops|].connections
    ensures var events := Project(states, ops, id);
            && Timeline(events)
            && id in states[|ops|].beats
            && states[|ops|].beats[id].missed == |OverdueChecks(config, events)| < config.maxMissed
  {
    EveryConnectionMonitored(config, states, ops);
    RecordFollowsTimeline(config, states, ops, id);
    ProjectsToTimeline(config, states, ops, id);
    hide Run;
    hide OverdueChecks;
    hide Timeline;
    MissedCountExact(config, Project(states, ops, id));
  }

  // ----- a connection that is not heard from is dropped in time -----

  /** The manager hears from `id` when it registers, pings or pongs. */
  predicate Hears(op: Op, id: string) {
    (op.Register? || op.Ping? || op.Pong?) && op.id == id
  }

  ghost predicate LastHeard(ops: seq<Op>, id: string, h: nat) {
    h < |ops| && Hears(ops[h], id) && forall k | h < k < |ops| :: !Hears(ops[k], id)
  }

  /** The sweeps after operation `h` that check `id` more than a timeout after it. */
  function LateSweeps(config: Config, ops: seq<Op>, id: string, h: nat): set<nat>
    requires h < |ops| && Hears(ops[h], id)
  {
    set k: nat | h < k < |ops| && ops[k].Sweep? && ops[k].clock(id).check > TimeFor(ops[h], id) + config.timeout
  }

  function LateChecks(config: Config, events: seq<Event>, from: nat): set<nat>
    requires from < |events|
  {
    set k: nat | from < k < |events| && events[k].Check? && events[k].at > events[from].at + config.timeout
  }

  lemma LateSweepsStep(config: Config, ops: seq<Op>, id: string, h: nat)
    requires h < |ops| - 1 && Hears(ops[h], id)
    ensures var op := ops[|ops| - 1];
            |LateSweeps(config, ops, id, h)| ==
            |LateSweeps(config, ops[..|ops| - 1], id, h)|
            + if op.Sweep? && op.clock(id).check > TimeFor(ops[h], id) + config.timeout then 1 else 0
  {
    var before, op := ops[..|ops| - 1], ops[|ops| - 1];
    assert LateSweeps(config, ops, id, h) ==
           LateSweeps(config, before, id, h)
           + if op.Sweep? && op.clock(id).check > TimeFor(ops[h], id) + config.timeout then {|before|} else {};
  }

  lemma LateChecksStep(config: Config, events: seq<Event>, e: Option<Event>, from: nat)
    requires from < |events|
    ensures |LateChecks(config, Appended(events, e), from)| ==
            |LateChecks(config, events, from)|
            + if e.Some? && e.value.Check? && e.value.at > events[from].at + config.timeout then 1 else 0
  {
    if e.Some? {
      var all := events + [e.value];
      assert LateChecks(config, all, from) ==
             LateChecks(config, events, from)
             + if e.value.Check? && e.value.at > events[from].at + config.timeout then {|events|} else {};
    }
  }

  /** The timeline of a connection ends, from its last beat on, in the sweeps that the run holds. */
  ghost predicate EndsInSweeps(config: Config, events: seq<Event>, ops: seq<Op>, id: string, h: nat, from: nat)
    requires h < |ops| && Hears(ops[h], id)
  {
    && from < |events| && events[from].IsBeat() && events[from].at == TimeFor(ops[h], id)
    && (forall k | from < k < |events| :: !events[k].IsBeat())
    && |LateChecks(config, events, from)| == |LateSweeps(config, ops, id, h)|
  }

  /** A registered connection was registered before any operation but its own registration. */
  lemma WasRegistered(config: Config, t: Tables, op: Op, next: Tables, id: string)
    requires Next(config, t, op, next) && id in next.connections
    ensures id in t.connections || (op.Register? && op.id == id)
  {}

  lemma {:induction false} TimelineSinceHeard(config: Config, states: seq<Tables>, ops: seq<Op>, id: string, h: nat)
    returns (from: nat)
    requires Run(config, states, ops) && NoReuse(ops) && config.maxMissed >= 1
    requires LastHeard(ops, id, h) && id in states[|ops|].connections
    ensures EndsInSweeps(config, Project(states, ops, id), ops, id, h, from)
    decreases |ops|
  {
    var before, op, t := ops[..|ops| - 1], ops[|ops| - 1], states[|ops| - 1];
    var past, e := Project(states[..|states| - 1], before, id), EventOf(t, op, id);
    RunPrefix(config, states, ops);
    hide Project;
    ProjectStep(states, ops, id);
    if h == |ops| - 1 {
      from := |past|;
      HeardIsBeat(config, states, ops, id);
      hide Run;
      hide EventOf;
      assert LateSweeps(config, ops, id, h) == {};
      assert LateChecks(config, past + [e.value], from) == {};
    } else {
      WasRegistered(config, t, op, states[|ops|], id);
      hide Next;
      EveryConnectionMonitored(config, states[..|states| - 1], before);
      hide Run;
      from := TimelineSinceHeard(config, states[..|states| - 1], before, id, h);
      SilenceStep(config, t, past, ops, id, h, from);
    }
  }

  /** An operation that does not hear from a registered connection adds at most a check to its timeline. */
  lemma SilenceStep(config: Config, t: Tables, past: seq<Event>, ops: seq<Op>, id: string, h: nat, from: nat)
    requires h < |ops| - 1 && Hears(ops[h], id) && !Hears(ops[|ops| - 1], id)
    requires EndsInSweeps(config, past, ops[..|ops| - 1], id, h, from)
    requires id in t.connections && id in t.beats
    ensures EndsInSweeps(config, Appended(past, EventOf(t, ops[|ops| - 1], id)), ops, id, h, from)
  {
    LateSweepsStep(config, ops, id, h);
    LateChecksStep(config, past, EventOf(t, ops[|ops| - 1], id), from);
    hide LateSweeps;
    hide LateChecks;
  }

  /** Hearing from a connection that stays registered is a beat of its record. */
  lemma HeardIsBeat(config: Config, states: seq<Tables>, ops: seq<Op>, id: string)
    requires Run(config, states, ops) && NoReuse(ops) && config.maxMissed >= 1
    requires ops != [] && Hears(ops[|ops| - 1], id) && id in states[|ops|].connections
    ensures var e := EventOf(states[|ops| - 1], ops[|ops| - 1], id);
            e.Some? && e.value.IsBeat() && e.value.at == TimeFor(ops[|ops| - 1], id)
  {
    var before, op, t := ops[..|ops| - 1], ops[|ops| - 1], states[|ops| - 1];
    RunPrefix(config, states, ops);
    EveryConnectionMonitored(config, states[..|states| - 1], before);
    WasRegistered(config, t, op, states[|ops|], id);
    if op.Register? {
      assert id !in RegisteredIds(before) by {
        assert forall i | 0 <= i < |before| :: before[i] == ops[i];
      }
    }
    hide Next;
  }

  /**
    A connection that is still registered has met fewer than `maxMissed` sweeps more than a timeout
    after the manager last heard from it, whatever activity it reported.
   */
  lemma SilentConnectionsAreDropped(config: Config, states: seq<Tables>, ops: seq<Op>, id: string, h: nat)
    requires Run(config, states, ops) && NoReuse(ops) && Monotone(ops, id) && config.maxMissed >= 1
    requires LastHeard(ops, id, h) && id in states[|ops|].connections
    ensures |LateSweeps(config, ops, id, h)| < config.maxMissed
  {
    var events := Project(states, ops, id);
    var from := TimelineSinceHeard(config, states, ops, id, h);
    hide LateSweeps;
    EveryConnectionMonitored(config, states, ops);
    RecordFollowsTimeline(config, states, ops, id);
    ProjectsToTimeline(config, states, ops, id);
    hide Run;
    hide Project;
    assert LastBeat(events) == from;
    if |LateChecks(config, events, from)| >= config.maxMissed {
      RemovedInTime(config, events, LateChecks(config, events, from));
    }
  }

  /**
    The serving loop reports activity and neither pings nor pongs, so a connection that is still
    registered has met fewer than `maxMissed` sweeps more than a timeout after it registered, however
    busy it is.
   */
  lemma BusyConnectionsAreDropped(config: Config, states: seq<Tables>, ops: seq<Op>, id: string, h: nat)
    requires Run(config, states, ops) && NoReuse(ops) && Monotone(ops, id) && config.maxMissed >= 1
    requires id in states[|ops|].connections &&
             forall k | 0 <= k < |ops| && (ops[k].Ping? || ops[k].Pong?) :: ops[k].id != id
    requires h < |ops| && ops[h].Register? && ops[h].id == id
    ensures |LateSweeps(config, ops, id, h)| < config.maxMissed
  {
    SilentConnectionsAreDropped(config, states, ops, id, h);
  }
}
