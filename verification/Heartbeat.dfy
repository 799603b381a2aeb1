/**
  Heartbeat records of the gateway's connections. Times are instants of one monotone clock that is
  positive while the process runs; `NEVER` is Go's zero time.
 */
module Heartbeat {
  import opened Wrappers

  const NEVER: int := 0

  datatype Config = Config(timeout: int, maxMissed: int, idleTimeout: int)

  datatype Beat = Beat(lastPing: int, lastPong: int, lastActivity: int, missed: int, alive: bool) {
    /** The instant the timeout is measured from: the last pong, or the last ping while there was no pong. */
    function Base(): int {
      if lastPong == NEVER then lastPing else lastPong
    }

    predicate Overdue(config: Config, now: int) {
      now - Base() > config.timeout
    }

    predicate Idle(config: Config, now: int) {
      config.idleTimeout > 0 && lastActivity != NEVER && now - lastActivity > config.idleTimeout
    }
  }

  function Pinged(record: Option<Beat>, now: int): Beat {
    match record
    case None => Beat(now, NEVER, now, 0, true)
    case Some(b) => b.(lastPing := now, lastActivity := now, missed := 0)
  }

  function Ponged(b: Beat, now: int): Beat {
    b.(lastPong := now, missed := 0)
  }

  /** One check: an overdue live record counts a miss and dies of the last one allowed. */
  function Checked(config: Config, b: Beat, now: int): Beat {
    if b.alive && b.Overdue(config, now)
    then b.(missed := b.missed + 1, alive := b.missed + 1 < config.maxMissed)
    else b
  }

  class HeartbeatManager {
    const config: Config
    var beats: map<string, Beat>

    constructor (config: Config)
      ensures this.config == config && beats == map[]
    {
      this.config := config;
      beats := map[];
    }

    method RecordPing(id: string, now: int)
      modifies this
      ensures beats == old(beats)[id := Pinged(if id in old(beats) then Some(old(beats)[id]) else None, now)]
    {
      if id in beats {
        beats := beats[id := beats[id].(lastPing := now, lastActivity := now, missed := 0)];
      } else {
        beats := beats[id := Beat(now, NEVER, now, 0, true)];
      }
    }

    method RecordPong(id: string, now: int)
      modifies this
      ensures beats == if id in old(beats) then old(beats)[id := Ponged(old(beats)[id], now)] else old(beats)
    {
      if id in beats {
        beats := beats[id := beats[id].(lastPong := now, missed := 0)];
      }
    }

    method RecordActivity(id: string, now: int)
      modifies this
      ensures beats == if id in old(beats) then old(beats)[id := old(beats)[id].(lastActivity := now)] else old(beats)
    {
      if id in beats {
        beats := beats[id := beats[id].(lastActivity := now)];
      }
    }

    method GetState(id: string) returns (state: Option<Beat>)
      ensures state == if id in beats then Some(beats[id]) else None
    {
      state := if id in beats then Some(beats[id]) else None;
    }

    /** True exactly when this very check kills the record. */
    method CheckTimeout(id: string, now: int) returns (due: bool)
      modifies this
      ensures beats == if id in old(beats) then old(beats)[id := Checked(config, old(beats)[id], now)] else old(beats)
      ensures due <==> id in old(beats) && old(beats)[id].alive && !beats[id].alive
    {
      if id !in beats || !beats[id].alive { return false; }
      var checkTime := beats[id].lastPong;
      if checkTime == NEVER {
        checkTime := beats[id].lastPing;
      }
      if now - checkTime > config.timeout {
        beats := beats[id := beats[id].(missed := beats[id].missed + 1)];
        if beats[id].missed >= config.maxMissed {
          beats := beats[id := beats[id].(alive := false)];
          return true;
        }
      }
      return false;
    }
  }

  // ----- the life of one record -----

  datatype Event = Ping(at: int) | Pong(at: int) | Activity(at: int) | Check(at: int) {
    predicate IsBeat() { Ping? || Pong? }
  }

  /** A registration ping comes first and the clock never runs backwards. */
  ghost predicate Timeline(events: seq<Event>) {
    && events != [] && events[0].Ping?
    && (forall i | 0 <= i < |events| :: events[i].at > NEVER)
    && (forall i, j | 0 <= i < j < |events| :: events[i].at <= events[j].at)
  }

  function React(config: Config, b: Beat, e: Event): Beat {
    match e
    case Ping(now) => Pinged(Some(b), now)
    case Pong(now) => Ponged(b, now)
    case Activity(now) => b.(lastActivity := now)
    case Check(now) => Checked(config, b, now)
  }

  function After(config: Config, events: seq<Event>): Beat
    requires events != []
  {
    if |events| == 1 then Pinged(None, events[0].at)
    else React(config, After(config, events[..|events| - 1]), events[|events| - 1])
  }

  // What the timeline itself says, without any record.

  function LastBeat(events: seq<Event>): (i: nat)
    requires events != [] && events[0].Ping?
    ensures i < |events| && events[i].IsBeat() && forall k | i < k < |events| :: !events[k].IsBeat()
  {
    if events[|events| - 1].IsBeat() then |events| - 1 else LastBeat(events[..|events| - 1])
  }

  function LastPong(events: seq<Event>): (r: Option<nat>)
    ensures r.Some? ==>
            r.value < |events| && events[r.value].Pong? && forall k | r.value < k < |events| :: !events[k].Pong?
    ensures r.None? ==> forall k | 0 <= k < |events| :: !events[k].Pong?
  {
    if events == [] then None
    else if events[|events| - 1].Pong? then Some(|events| - 1)
    else LastPong(events[..|events| - 1])
  }

  /** The instant overdue checks are measured from: the last pong if there was one, else the last ping. */
  function MeasuredFrom(events: seq<Event>): int
    requires events != [] && events[0].Ping?
  {
    var pong := LastPong(events);
    events[if pong.Some? then pong.value else LastBeat(events)].at
  }

  /** The checks since the last ping or pong that found the connection overdue. */
  function OverdueChecks(config: Config, events: seq<Event>): set<nat>
    requires events != [] && events[0].Ping?
  {
    set k: nat | LastBeat(events) < k < |events| && events[k].Check? &&
      events[k].at - MeasuredFrom(events) > config.timeout
  }

  lemma OverdueChecksStep(config: Config, events: seq<Event>)
    requires |events| > 1 && events[0].Ping?
    ensures var before := events[..|events| - 1];
            var e := events[|events| - 1];
            && (e.IsBeat() ==> OverdueChecks(config, events) == {})
            && (!e.IsBeat() ==>
                  && MeasuredFrom(events) == MeasuredFrom(before)
                  && OverdueChecks(config, events) ==
                     OverdueChecks(config, before)
                     + (if e.Check? && e.at - MeasuredFrom(before) > config.timeout then {|before|} else {}))
  {
    var before := events[..|events| - 1];
    if !events[|before|].IsBeat() {
      assert forall k | 0 <= k < |before| :: before[k] == events[k];
      assert LastBeat(events) == LastBeat(before);
      assert MeasuredFrom(events) == MeasuredFrom(before);
    }
  }

  /**
    Heartbeat exactness: the missed count of a live record is exactly the number of overdue checks
    since the last ping or pong.
   */
  lemma {:induction false} MissedCountExact(config: Config, events: seq<Event>)
    requires Timeline(events) && config.maxMissed >= 1 && After(config, events).alive
    ensures var b := After(config, events);
            && b.missed == |OverdueChecks(config, events)| < config.maxMissed
            && b.Base() == MeasuredFrom(events)
            && (b.lastPong == NEVER <==> LastPong(events).None?)
            && (b.lastPong == NEVER ==> b.lastPing == events[LastBeat(events)].at)
  {
    if |events| == 1 {
      assert OverdueChecks(config, events) == {};
    } else {
      var before := events[..|events| - 1];
      MissedCountExact(config, before);
      OverdueChecksStep(config, events);
      hide OverdueChecks;
      var e := events[|before|];
      assert e.IsBeat() ==> LastBeat(events) == |before|;
    }
  }

  /**
    A record dies only of a check, after exactly `maxMissed` checks since the last ping or pong
    found it overdue; and from the first of those on, every check did.
   */
  lemma DiesOfConsecutiveMisses(config: Config, events: seq<Event>)
    requires Timeline(events) && |events| > 1 && config.maxMissed >= 1
    requires After(config, events[..|events| - 1]).alive && !After(config, events).alive
    ensures events[|events| - 1].Check?
    ensures |OverdueChecks(config, events)| == config.maxMissed
    ensures forall j, k | j in OverdueChecks(config, events) && j <= k < |events| && events[k].Check? ::
              k in OverdueChecks(config, events)
  {
    var before := events[..|events| - 1];
    MissedCountExact(config, before);
    OverdueChecksStep(config, events);
    assert |before| !in OverdueChecks(config, before);
    OnceOverdueAlwaysOverdue(config, events);
  }

  lemma OnceOverdueAlwaysOverdue(config: Config, events: seq<Event>)
    requires Timeline(events)
    ensures forall j, k | j in OverdueChecks(config, events) && j <= k < |events| && events[k].Check? ::
              k in OverdueChecks(config, events)
  {}

  lemma {:induction false} DeadStaysDead(config: Config, events: seq<Event>, more: seq<Event>)
    requires events != [] && !After(config, events).alive
    ensures !After(config, events + more).alive
  {
    if more == [] {
      assert events + more == events;
    } else {
      DeadStaysDead(config, events, more[..|more| - 1]);
      assert (events + more)[..|events + more| - 1] == events + more[..|more| - 1];
    }
  }

  /**
    A record that was last pinged or ponged at some instant is dead by the `maxMissed`-th check after
    that instant plus the timeout, whatever activity it sees in between.
   */
  lemma RemovedInTime(config: Config, events: seq<Event>, late: set<nat>)
    requires Timeline(events) && config.maxMissed >= 1
    requires forall k | k in late ::
               LastBeat(events) < k < |events| && events[k].Check?
               && events[k].at > events[LastBeat(events)].at + config.timeout
    requires |late| >= config.maxMissed
    ensures !After(config, events).alive
  {
    if After(config, events).alive {
      MissedCountExact(config, events);
      var pong := LastPong(events);
      assert pong.Some? ==> pong.value <= LastBeat(events);
      assert late <= OverdueChecks(config, events);
      CardinalityLe(late, OverdueChecks(config, events));
    }
  }

  lemma {:induction false} CardinalityLe<T>(a: set<T>, b: set<T>)
    requires a <= b
    ensures |a| <= |b|
  {
    if a != {} {
      var x :| x in a;
      CardinalityLe(a - {x}, b - {x});
    }
  }

  /**
    A record that sees only activity after the ping of its registration is dead by its `maxMissed`-th
    check more than a timeout after that ping.
   */
  lemma ActivityDoesNotKeepAlive(config: Config, events: seq<Event>, late: set<nat>)
    requires Timeline(events) && config.maxMissed >= 1
    requires forall k | 0 < k < |events| :: events[k].Activity? || events[k].Check?
    requires forall k | k in late :: k < |events| && events[k].Check? && events[k].at > events[0].at + config.timeout
    requires |late| >= config.maxMissed
    ensures !After(config, events).alive
  {
    RemovedInTime(config, events, late);
  }
}
