/**
  The gateway's serving loop for one WebSocket connection, and the route snapshot it consults.
  Frames, handler results and the user id found in a reply are inputs; routes may be swapped
  between any two frames, so each request frame comes with the snapshot that was current for it.
 */
module Handler {
  import opened Wrappers

  datatype RouteBinding = RouteBinding(isPublic: bool, establishSession: bool)

  type Snapshot = map<string, RouteBinding>

  /** The current route table; a published table is never changed, only replaced. */
  class AtomicRouter {
    var current: Snapshot

    constructor ()
      ensures current == map[]
    {
      current := map[];
    }

    method Store(next: Option<Snapshot>)
      modifies this
      ensures current == if next.Some? then next.value else map[]
    {
      current := if next.Some? then next.value else map[];
    }

    method Get(name: string) returns (route: Option<RouteBinding>)
      ensures route == if name in current then Some(current[name]) else None
    {
      route := if name in current then Some(current[name]) else None;
    }
  }

  // gRPC status codes used by the loop itself
  const OK := 0
  const INVALID_ARGUMENT := 3
  const NOT_FOUND := 5
  const INTERNAL := 13
  const UNAUTHENTICATED := 16

  /**
    What invoking a route came to: an error with its code, a reply that does not convert, or a reply naming
    a user (0: none).
   */
  datatype Outcome = Failed(code: int) | Unconvertible | Replied(user: int)

  datatype Frame =
    | ReadError
    | PingFrame
    | NonText
    | BadJson
    | Request(name: string, routes: Snapshot, outcome: Outcome)
  {
    predicate Routed() { Request? && name in routes }

    function Route(): RouteBinding
      requires Routed()
    {
      routes[name]
    }
  }

  /** What the loop did for one frame it read. */
  datatype Done = Done(pongs: nat, responses: seq<int>, invoked: bool, bound: Option<int>, active: bool, stop: bool)

  /** The loop keeps going until a frame makes it stop; the last element is the frame it stopped at. */
  method ServeWS(frames: seq<Frame>) returns (log: seq<Done>)
    ensures log == Served(frames, |frames|)
  {
    log := [];
    var isAuthenticated := false;
    for i := 0 to |frames|
      invariant |log| == i && log == Served(frames, i)
      invariant log == [] || !log[i - 1].stop
      invariant isAuthenticated == Authenticated(frames, i)
    {
      var done := Handled(isAuthenticated, frames[i]);
      isAuthenticated := isAuthenticated || Logs(isAuthenticated, frames[i]);
      log := log + [done];
      if done.stop {
        ServedStops(frames, i + 1, |frames|);
        return;
      }
    }
  }

  // ----- one frame, and what the first frames lead to -----

  /** The branches of the loop body, in order. */
  function Handled(authenticated: bool, frame: Frame): Done {
    match frame
    case ReadError => Done(0, [], false, None, false, true)
    case PingFrame => Done(1, [], false, None, true, false)
    case NonText => Done(0, [INVALID_ARGUMENT], false, None, false, true)
    case BadJson => Done(0, [INVALID_ARGUMENT], false, None, false, true)
    case Request(name, routes, outcome) =>
      if name !in routes then Done(0, [NOT_FOUND], false, None, false, true)
      else if !routes[name].isPublic && !authenticated then Done(0, [UNAUTHENTICATED], false, None, false, true)
      else
        match outcome
        case Failed(code) => Done(0, [code], true, None, false, routes[name].establishSession)
        case Unconvertible => Done(0, [INTERNAL], true, None, false, routes[name].establishSession)
        case Replied(user) =>
          Done(0, [OK], true, if routes[name].establishSession && user > 0 then Some(user) else None, true, false)
  }

  /** Some earlier frame was a successful call of a session-establishing route. */
  function Authenticated(frames: seq<Frame>, n: nat): bool
    requires n <= |frames|
  {
    n > 0 && (Authenticated(frames, n - 1) || Logs(Authenticated(frames, n - 1), frames[n - 1]))
  }

  predicate Logs(authenticated: bool, frame: Frame) {
    && frame.Routed() && frame.Route().establishSession && frame.outcome.Replied?
    && (frame.Route().isPublic || authenticated)
  }

  /** The log after the first `n` frames: nothing is read once the loop has stopped. */
  function Served(frames: seq<Frame>, n: nat): (log: seq<Done>)
    requires n <= |frames|
    ensures |log| <= n
    ensures |log| < n ==> log != [] && log[|log| - 1].stop
  {
    if n == 0 then [] else
      var log := Served(frames, n - 1);
      if log != [] && log[|log| - 1].stop then log
      else log + [Handled(Authenticated(frames, n - 1), frames[n - 1])]
  }

  /** What was done for frame `k`, and that the loop went on after every frame but the last one read. */
  lemma {:induction false} ServedAt(frames: seq<Frame>, n: nat, k: nat)
    requires n <= |frames| && k < |Served(frames, n)|
    ensures Served(frames, n)[k] == Handled(Authenticated(frames, k), frames[k])
    ensures k + 1 < |Served(frames, n)| ==> !Served(frames, n)[k].stop
  {
    if k < |Served(frames, n - 1)| {
      ServedAt(frames, n - 1, k);
    }
  }

  lemma {:induction false} ServedStops(frames: seq<Frame>, i: nat, n: nat)
    requires i <= n <= |frames|
    requires Served(frames, i) != [] && Served(frames, i)[|Served(frames, i)| - 1].stop
    ensures Served(frames, n) == Served(frames, i)
  {
    if i < n {
      ServedStops(frames, i, n - 1);
    }
  }

  // ----- what holds of every connection -----

  /** Frame `j` was read, its route invoked, and the route both establishes a session and replied. */
  ghost predicate EstablishedBy(frames: seq<Frame>, log: seq<Done>, j: nat) {
    && j < |log| <= |frames| && log[j].invoked
    && frames[j].Routed() && frames[j].Route().establishSession && frames[j].outcome.Replied?
  }

  lemma EstablishedWhenLogs(frames: seq<Frame>, j: nat)
    requires j < |Served(frames, |frames|)|
    ensures EstablishedBy(frames, Served(frames, |frames|), j) <==> Logs(Authenticated(frames, j), frames[j])
  {
    hide Served;
    hide Authenticated;
    ServedAt(frames, |frames|, j);
  }

  lemma {:induction false} AuthenticatedMeansEstablished(frames: seq<Frame>, i: nat)
    requires i <= |Served(frames, |frames|)|
    ensures Authenticated(frames, i) <==> exists j: nat :: j < i && EstablishedBy(frames, Served(frames, |frames|), j)
  {
    var log := Served(frames, |frames|);
    if i > 0 {
      AuthenticatedMeansEstablished(frames, i - 1);
      EstablishedWhenLogs(frames, i - 1);
    }
  }

  /**
    The gate: among the frames read, a route is invoked exactly when the snapshot of its frame has
    it and it is public there or an earlier frame on this connection established a session.
   */
  lemma GateHolds(frames: seq<Frame>, i: nat)
    requires i < |Served(frames, |frames|)|
    ensures var log := Served(frames, |frames|);
            log[i].invoked <==>
            frames[i].Routed() &&
              (frames[i].Route().isPublic || exists j: nat :: j < i && EstablishedBy(frames, log, j))
  {
    AuthenticatedMeansEstablished(frames, i);
    ServedAt(frames, |frames|, i);
  }

  /**
    Every frame read gets its due: one response for anything but a ping, one pong attempt and no
    response for a ping (section 5.5.2 of RFC 6455), nothing for a failed read.
   */
  lemma OneResponseEach(frames: seq<Frame>, i: nat)
    requires i < |Served(frames, |frames|)|
    ensures var d := Served(frames, |frames|)[i];
            && |d.responses| == (if frames[i].ReadError? || frames[i].PingFrame? then 0 else 1)
            && d.pongs == (if frames[i].PingFrame? then 1 else 0)
            && (d.responses == [OK] && frames[i].Request? && frames[i].outcome.Replied? ==> d.invoked && d.active)
            && (d.responses != [] && !d.invoked ==>
                  d.stop && d.responses[0] in {INVALID_ARGUMENT, NOT_FOUND, UNAUTHENTICATED})
  {
    ServedAt(frames, |frames|, i);
  }

  /** The loop reads frame after frame up to the first that stops it. */
  lemma ReadsUntilStopped(frames: seq<Frame>)
    ensures var log := Served(frames, |frames|);
            && |log| <= |frames|
            && (forall i | 0 <= i < |log| - 1 :: !log[i].stop)
            && (|log| < |frames| ==> log != [] && log[|log| - 1].stop)
  {
    var log := Served(frames, |frames|);
    forall i | 0 <= i < |log| - 1 ensures !log[i].stop {
      ServedAt(frames, |frames|, i);
    }
  }

  /** Frame `i`, being read, is one the loop does not go on after. */
  predicate Stopping(frames: seq<Frame>, log: seq<Done>, i: nat)
    requires i < |log| <= |frames|
  {
    match frames[i]
    case ReadError => true
    case PingFrame => false
    case NonText => true
    case BadJson => true
    case Request(name, routes, outcome) =>
      !log[i].invoked || (name in routes && routes[name].establishSession && !outcome.Replied?)
  }

  /** Exactly the frames that cannot be read, are refused, or fail to establish a session stop the loop. */
  lemma StopsExactly(frames: seq<Frame>, i: nat)
    requires i < |Served(frames, |frames|)|
    ensures Served(frames, |frames|)[i].stop <==> Stopping(frames, Served(frames, |frames|), i)
  {
    ServedAt(frames, |frames|, i);
  }

  /** The code a frame is answered with: the reason it is refused, or what invoking its route came to. */
  function CodeFor(frame: Frame, invoked: bool): int
    requires !frame.ReadError? && !frame.PingFrame?
  {
    if !frame.Request? then INVALID_ARGUMENT
    else if frame.name !in frame.routes then NOT_FOUND
    else if !invoked then UNAUTHENTICATED
    else match frame.outcome
         case Failed(code) => code
         case Unconvertible => INTERNAL
         case Replied(_) => OK
  }

  /** Every response carries the code of its frame, and only a ping or a reply counts as activity. */
  lemma CodesExactly(frames: seq<Frame>, i: nat)
    requires i < |Served(frames, |frames|)|
    ensures var d, f := Served(frames, |frames|)[i], frames[i];
            && (!f.ReadError? && !f.PingFrame? ==> d.responses == [CodeFor(f, d.invoked)])
            && (d.active <==> f.PingFrame? || (f.Request? && d.invoked && f.outcome.Replied?))
  {
    ServedAt(frames, |frames|, i);
  }

  /**
    A frame binds a user exactly when its route was invoked, establishes a session and replied with that
    positive id.
   */
  lemma BindsExactly(frames: seq<Frame>, i: nat, user: int)
    requires i < |Served(frames, |frames|)|
    ensures Served(frames, |frames|)[i].bound == Some(user) <==>
            EstablishedBy(frames, Served(frames, |frames|), i) && frames[i].outcome == Replied(user) && user > 0
  {
    ServedAt(frames, |frames|, i);
  }

  /** A user is bound only by a successful session-establishing call that named a positive user id. */
  lemma BoundOnlyOnLogin(frames: seq<Frame>, i: nat)
    requires i < |Served(frames, |frames|)| && Served(frames, |frames|)[i].bound.Some?
    ensures EstablishedBy(frames, Served(frames, |frames|), i)
    ensures frames[i].outcome == Replied(Served(frames, |frames|)[i].bound.value) && frames[i].outcome.user > 0
  {
    ServedAt(frames, |frames|, i);
  }

  /**
    A failed attempt to establish a session ends the connection, so no later frame is read; an
    ordinary failed call does not.
   */
  lemma FailedLoginEnds(frames: seq<Frame>, i: nat)
    requires i < |Served(frames, |frames|)| && frames[i].Routed() && !frames[i].outcome.Replied?
    requires Served(frames, |frames|)[i].invoked
    ensures Served(frames, |frames|)[i].stop <==> frames[i].Route().establishSession
    ensures frames[i].Route().establishSession ==> |Served(frames, |frames|)| == i + 1
    ensures !frames[i].Route().establishSession && i + 1 < |frames| ==> |Served(frames, |frames|)| > i + 1
  {
    ServedAt(frames, |frames|, i);
  }

  /** The frames differ at most in what their snapshots say about other methods than the one called. */
  predicate Alike(a: Frame, b: Frame) {
    if a.Request? && b.Request?
    then a.name == b.name && a.outcome == b.outcome
         && (a.name in a.routes <==> b.name in b.routes)
         && (a.name in a.routes ==> a.routes[a.name] == b.routes[b.name])
    else a == b
  }

  /**
    However snapshots are swapped, a frame's snapshot counts only through its binding of the method
    called, and only from that frame on: frames alike so far are served alike.
   */
  lemma {:induction false} OnlyOwnBindingsCount(frames: seq<Frame>, others: seq<Frame>, n: nat)
    requires n <= |frames| && n <= |others| && forall i | 0 <= i < n :: Alike(frames[i], others[i])
    ensures Served(frames, n) == Served(others, n)
    ensures Authenticated(frames, n) == Authenticated(others, n)
  {
    hide Alike;
    hide Handled;
    hide Logs;
    if n > 0 {
      OnlyOwnBindingsCount(frames, others, n - 1);
      HandledAlike(Authenticated(frames, n - 1), frames[n - 1], others[n - 1]);
    }
  }

  lemma HandledAlike(authenticated: bool, a: Frame, b: Frame)
    requires Alike(a, b)
    ensures Handled(authenticated, a) == Handled(authenticated, b)
    ensures Logs(authenticated, a) == Logs(authenticated, b)
  {}
}
