/**
  When a sweep drops a connection, read off the operations of the run: what it did last, and how many
  sweeps have found it overdue since it was heard from.
 */
module Idling {
  import opened Wrappers
  import opened Heartbeat
  import opened Connections
  import opened Removal

  /** An operation that counts as activity of `id`. */
  predicate Stirs(op: Op, id: string) {
    (op.Register? || op.Ping? || op.Activity?) && op.id == id
  }

  ghost predicate LastStirred(ops: seq<Op>, id: string, h: nat) {
    h < |ops| && Stirs(ops[h], id) && forall k | h < k < |ops| :: !Stirs(ops[k], id)
  }

  /** A step that does not stir `id` leaves the activity time of its record alone. */
  lemma StaysStill(config: Config, t: Tables, op: Op, next: Tables, id: string)
    requires Next(config, t, op, next) && !Stirs(op, id) && id in t.beats
    ensures id in next.beats && next.beats[id].lastActivity == t.beats[id].lastActivity
  {
    RecordStep(config, t, op, next, id);
    hide Next;
  }

  /** A step that stirs a connection which is registered after it sets the activity time of its record. */
  lemma StirredAt(config: Config, t: Tables, op: Op, next: Tables, id: string)
    requires Next(config, t, op, next) && Stirs(op, id)
    requires if op.Register? then id !in t.connections else id in t.beats
    ensures id in next.beats && next.beats[id].lastActivity == op.at > NEVER
  {}

  /** With ids never reused, one that is registered last was not registered before. */
  lemma NewId(ops: seq<Op>, id: string)
    requires NoReuse(ops) && ops != [] && ops[|ops| - 1].Register? && ops[|ops| - 1].id == id
    ensures id !in RegisteredIds(ops[..|ops| - 1])
  {
    var before := ops[..|ops| - 1];
    assert forall i | 0 <= i < |before| :: before[i] == ops[i];
  }

  /** What a step makes of the activity time of a connection that is registered after it. */
  lemma StirOrStay(config: Config, t: Tables, op: Op, next: Tables, id: string, ever: set<string>)
    requires AllMonitored(config, t, ever) && Next(config, t, op, next) && id in next.connections
    requires op.Register? ==> op.id !in ever
    ensures id in next.beats
    ensures if Stirs(op, id) then next.beats[id].lastActivity == op.at > NEVER
            else id in t.connections && id in t.beats && next.beats[id].lastActivity == t.beats[id].lastActivity
  {
    WasRegistered(config, t, op, next, id);
    if Stirs(op, id) {
      StirredAt(config, t, op, next, id);
    } else {
      StaysStill(config, t, op, next, id);
    }
  }

  /** The activity time of a registered connection is that of the operation that stirred it last. */
  lemma {:induction false} ActivityInRuns(config: Config, states: seq<Tables>, ops: seq<Op>, id: string)
    returns (h: nat)
    requires Run(config, states, ops) && NoReuse(ops) && config.maxMissed >= 1
    requires id in states[|ops|].connections
    ensures LastStirred(ops, id, h)
    ensures id in states[|ops|].beats && states[|ops|].beats[id].lastActivity == ops[h].at > NEVER
    decreases |ops|
  {
    var before, op, t, next := ops[..|ops| - 1], ops[|ops| - 1], states[|ops| - 1], states[|ops|];
    hide Next;
    hide AllMonitored;
    RunPrefix(config, states, ops);
    EveryConnectionMonitored(config, states[..|states| - 1], before);
    if op.Register? { NewId(ops, op.id); }
    StirOrStay(config, t, op, next, id, RegisteredIds(before));
    hide RegisteredIds;
    if Stirs(op, id) {
      h := |ops| - 1;
    } else {
      h := ActivityInRuns(config, states[..|states| - 1], before, id);
      hide Run;
      forall k | h < k < |ops| ensures !Stirs(ops[k], id) {
        if k < |before| { assert before[k] == ops[k]; }
      }
    }
  }

  /**
    A registered connection that a sweep does not find dead is dropped by it if and only if the idle
    timeout is positive and the sweep's idle reading comes later than that after the last registration,
    ping or activity of the connection.
   */
  lemma IdleSweepDropsExactly(
    config: Config, states: seq<Tables>, ops: seq<Op>, id: string, h: nat)
    requires Run(config, states, ops) && NoReuse(ops) && config.maxMissed >= 1
    requires ops != [] && ops[|ops| - 1].Sweep? && id in states[|ops| - 1].connections
    requires id in states[|ops|].beats && states[|ops|].beats[id].alive
    requires LastStirred(ops, id, h)
    ensures id !in states[|ops|].connections <==>
            config.idleTimeout > 0 && ops[|ops| - 1].clock(id).idle - ops[h].at > config.idleTimeout
  {
    var t, clock := states[|ops| - 1], ops[|ops| - 1].clock;
    var before := ops[..|ops| - 1];
    RunPrefix(config, states, ops);
    EveryConnectionMonitored(config, states[..|states| - 1], before);
    var g := ActivityInRuns(config, states[..|states| - 1], before, id);
    SameStir(ops, id, g, h);
    assert Next(config, t, ops[|ops| - 1], states[|ops|]);
    hide Run;
    SweepDropsExactly(config, t, clock, id);
    AliveAfter(config, t, clock, id);
    hide Swept;
  }

  lemma AliveAfter(config: Config, t: Tables, clock: Clock, id: string)
    requires id in t.connections && id in t.beats && t.beats[id].alive
    ensures var next := Swept(config, t, clock);
            id in next.beats && (next.beats[id].alive <==>
                                 !(t.beats[id].missed + 1 >= config.maxMissed
                                   && clock(id).check - t.beats[id].Base() > config.timeout))
  {
    hide HeartbeatDue;
    hide IdleDue;
  }

  lemma SameStir(ops: seq<Op>, id: string, g: nat, h: nat)
    requires ops != [] && ops[|ops| - 1].Sweep?
    requires LastStirred(ops[..|ops| - 1], id, g) && LastStirred(ops, id, h)
    ensures g == h
  {
    var before := ops[..|ops| - 1];
    assert forall k | 0 <= k < |before| :: before[k] == ops[k];
    assert Stirs(before[h], id) && Stirs(ops[g], id);
  }

  /** What the record of a registered connection says, read off its own timeline. */
  lemma RecordInRuns(config: Config, states: seq<Tables>, ops: seq<Op>, id: string)
    requires Run(config, states, ops) && NoReuse(ops) && Monotone(ops, id) && config.maxMissed >= 1
    requires id in states[|ops|].connections
    ensures var events := Project(states, ops, id);
            && Timeline(events) && id in states[|ops|].beats
            && var b := states[|ops|].beats[id];
               && b.alive && b.missed == |OverdueChecks(config, events)|
               && (if b.lastPong == NEVER then b.lastPing else b.lastPong) == MeasuredFrom(events)
  {
    EveryConnectionMonitored(config, states, ops);
    MissedCountInRuns(config, states, ops, id);
    RecordFollowsTimeline(config, states, ops, id);
    hide Run;
    hide Project;
    hide Monotone;
    hide NoReuse;
    MissedCountExact(config, Project(states, ops, id));
    hide OverdueChecks;
    hide MeasuredFrom;
    hide Timeline;
  }

  /**
    A sweep drops a registered connection if and only if it was found overdue by one sweep less than
    allowed since it was last heard and this one is late too, or it has been idle for too long.
   */
  lemma SweepDropsInRuns(config: Config, states: seq<Tables>, ops: seq<Op>, id: string, h: nat)
    requires Run(config, states, ops) && NoReuse(ops) && config.maxMissed >= 1
    requires ops != [] && ops[|ops| - 1].Sweep? && Monotone(ops, id) && id in states[|ops| - 1].connections
    requires LastStirred(ops, id, h)
    ensures var clock, events := ops[|ops| - 1].clock, Project(states[..|ops|], ops[..|ops| - 1], id);
            && Timeline(events)
            && (id !in states[|ops|].connections <==>
                  || (|OverdueChecks(config, events)| + 1 >= config.maxMissed
                      && clock(id).check - MeasuredFrom(events) > config.timeout)
                  || (config.idleTimeout > 0 && clock(id).idle - ops[h].at > config.idleTimeout))
  {
    var t, clock, before, past := states[|ops| - 1], ops[|ops| - 1].clock, ops[..|ops| - 1], states[..|ops|];
    RunPrefix(config, states, ops);
    MonotonePrefix(ops, id);
    var g := ActivityInRuns(config, past, before, id);
    SameStir(ops, id, g, h);
    RecordInRuns(config, past, before, id);
    assert Next(config, t, ops[|ops| - 1], states[|ops|]);
    hide Run;
    hide Project;
    hide OverdueChecks;
    hide MeasuredFrom;
    hide Timeline;
    hide Monotone;
    hide NoReuse;
    hide LastStirred;
    SweepDropsExactly(config, t, clock, id);
    hide Swept;
  }
}
