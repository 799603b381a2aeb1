/**
  What the route manager promises of every run: connections are closed once and never under a
  published binding, snapshots move forward, no write is lost, and at rest the table is the store's.
 */
module RouteRuns {
  import opened Wrappers
  import opened RouteBuild
  import opened RouteManager

  // ----- no write is lost -----

  /** The write at revision `r` (counting from one) has still to be delivered or is about to be rebuilt for. */
  predicate Pending(s: State, r: nat) {
    || s.armed || s.waiting > 0
    || s.watch.Loading? || s.watch.Dropped? || s.watch.Rebooting? || s.watch.Exited?
    || (s.watch.Loaded? && s.watch.rev <= r)
    || (s.watch.Open? && s.watch.delivered < r)
  }

  /** The last read of the snapshot that is, or is about to be, the published one. */
  function SeenUpTo(s: State): nat {
    if s.phase.Finishing() then s.phase.next.routesRev
    else if s.published.Some? then s.published.value.routesRev
    else 0
  }

  ghost predicate NothingLost(p: Prefixes, s: State) {
    || (s.phase.Idle? && s.timerFailed) || s.phase.Started? || s.phase.HaveTypes?
    || forall r: nat | SeenUpTo(s) < r <= |s.log| && p.Relevant(s.log[r - 1]) :: Pending(s, r)
  }

  /** Pending writes stay pending under every step but the end of a rebuild that reads past them. */
  lemma StillPending(p: Prefixes, s: State, a: Action, next: State, r: nat)
    requires p.Nested() && Ordered(p, s) && Next(p, s, a, next) && Pending(s, r)
    requires 0 < r <= |s.log| && p.Relevant(s.log[r - 1])
    requires next.phase.Finishing() || next.phase.Idle?
    requires a.LoadRev? ==> s.nextWatchRev <= r
    ensures Pending(next, r)
  {
    hide ReadAt;
    hide Opened;
    hide Genuine;
    if a.Deliver? && s.watch.delivered < r <= a.upTo {
      assert p.watch <= s.log[r - 1].key;
    }
  }

  lemma LoadsNoLater(p: Prefixes, s: State, next: State, r: nat)
    requires Ordered(p, s) && Next(p, s, LoadRev, next) && SeenUpTo(s) < r
    ensures s.nextWatchRev <= r
  {
    hide ReadAt;
  }

  lemma StepKeepsNothingLost(p: Prefixes, s: State, a: Action, next: State)
    requires p.Nested() && NothingLost(p, s) && Ordered(p, s) && Next(p, s, a, next)
    ensures NothingLost(p, next)
  {
    if next.phase.Finishing() || (next.phase.Idle? && !next.timerFailed) {
      forall r: nat | SeenUpTo(next) < r <= |next.log| && p.Relevant(next.log[r - 1]) ensures Pending(next, r) {
        PendingAfter(p, s, a, next, r);
      }
    }
  }

  /** A step appends at most one write, and once it is not reading what was seen does not shrink. */
  lemma StepGrows(p: Prefixes, s: State, a: Action, next: State)
    requires Ordered(p, s) && Next(p, s, a, next)
    ensures next.log == if a.Write? then s.log + [a.change] else s.log
    ensures a.ReadRoutes? ==> SeenUpTo(next) == |next.log|
    ensures SeenUpTo(s) <= SeenUpTo(next) || a.Fail?
    ensures a.Fail? ==> next.phase.Idle? && (next.timerFailed <==> !s.phase.byRun)
  {
    RevisionOf(p, s);
    hide Opened;
    hide ReadAt;
    hide Genuine;
    if AroundBuild(a) {
      AroundKeepsOrdered(p, s, a, next);
      hide Next;
    } else {
      match a
      case Write(_) =>
      case ReadRoutes(_) =>
      case Acquire(_) =>
      case ReadTypes =>
      case Fail =>
      case StoreRev =>
      case PublishTable =>
      case SwapConns =>
    }
  }

  lemma WriteIsPending(p: Prefixes, s: State, c: Change, next: State)
    requires Ordered(p, s) && Next(p, s, Write(c), next)
    ensures Pending(next, |s.log| + 1)
  {
    hide ReadAt;
  }

  lemma PendingAfter(p: Prefixes, s: State, a: Action, next: State, r: nat)
    requires p.Nested() && NothingLost(p, s) && Ordered(p, s) && Next(p, s, a, next)
    requires next.phase.Finishing() || (next.phase.Idle? && !next.timerFailed)
    requires SeenUpTo(next) < r <= |next.log| && p.Relevant(next.log[r - 1])
    ensures Pending(next, r)
  {
    hide Next;
    hide Genuine;
    StepGrows(p, s, a, next);
    if a.Write? && r == |next.log| {
      WriteIsPending(p, s, a.change, next);
    } else if a.Fail? {
      FailureLoses(p, s, next, r);
    } else {
      assert next.log[r - 1] == s.log[r - 1];
      WasPending(p, s, a, next, r);
      if a.LoadRev? { LoadsNoLater(p, s, next, r); }
      StillPending(p, s, a, next, r);
    }
  }

  /**
    When a failed rebuild loses a write: a failure of the watch loop's own rebuild leaves every write
    pending, because the watch is opened again at the same revision; a failure of the timer's rebuild
    leaves just those pending that were.
   */
  lemma FailureLoses(p: Prefixes, s: State, next: State, r: nat)
    requires Next(p, s, Fail, next)
    ensures Pending(next, r) <==> s.phase.byRun || Pending(s, r)
  {}

  lemma WasPending(p: Prefixes, s: State, a: Action, next: State, r: nat)
    requires NothingLost(p, s) && Next(p, s, a, next) && !a.ReadRoutes? && !a.Fail? && SeenUpTo(s) < r <= |s.log| &&
             p.Relevant(s.log[r - 1])
    requires next.phase.Finishing() || (next.phase.Idle? && !next.timerFailed)
    ensures Pending(s, r)
  {}

  // ----- whole runs -----

  lemma {:induction false} RunKeepsShape(p: Prefixes, states: seq<State>, actions: seq<Action>, i: nat)
    requires Run(p, states, actions) && i < |states|
    ensures Ordered(p, states[i]) && ConnsRight(states[i])
  {
    hide Ordered;
    hide ConnsRight;
    hide Next;
    if i == 0 {
      BeginShape(p, states[0]);
    } else {
      RunKeepsShape(p, states, actions, i - 1);
      StepKeepsOrdered(p, states[i - 1], actions[i - 1], states[i]);
      StepKeepsConnsRight(p, states[i - 1], actions[i - 1], states[i]);
    }
  }

  lemma BeginShape(p: Prefixes, s: State)
    requires exists log :: s == Begin(log)
    ensures Ordered(p, s) && ConnsRight(s) && NothingLost(p, s)
  {}

  lemma {:induction false} RunKeepsNothingLost(p: Prefixes, states: seq<State>, actions: seq<Action>, i: nat)
    requires p.Nested() && Run(p, states, actions) && i < |states|
    ensures NothingLost(p, states[i])
  {
    hide Ordered;
    hide ConnsRight;
    hide NothingLost;
    hide Next;
    if i == 0 {
      BeginShape(p, states[0]);
    } else {
      RunKeepsShape(p, states, actions, i - 1);
      RunKeepsNothingLost(p, states, actions, i - 1);
      StepKeepsNothingLost(p, states[i - 1], actions[i - 1], states[i]);
    }
  }

  /**
    Connection lifecycle: every connection ever dialled is exactly one of just built, active,
    draining or closed, and until Close no binding of the published table uses a closed one.
   */
  lemma ConnectionLifecycle(p: Prefixes, states: seq<State>, actions: seq<Action>, i: nat, conn: nat)
    requires Run(p, states, actions) && i < |states|
    ensures var s := states[i];
            && (conn in s.dialled <==>
               conn in JustBuilt(s) || conn in s.active || conn in s.draining || conn in s.closed)
            && (conn in JustBuilt(s) ==> conn !in s.active + s.draining + s.closed)
            && (conn in s.active ==> conn !in s.draining + s.closed)
            && (conn in s.draining ==> conn !in s.closed)
            && (s.published.Some? && !s.shutDown && conn in TableConns(s.published.value.built.table) ==>
                  conn in s.dialled && conn !in s.closed)
  {
    RunKeepsShape(p, states, actions, i);
    hide Run;
    hide Ordered;
    hide Genuine;
  }

  predicate Forward(a: State, b: State) {
    && a.nextWatchRev <= b.nextWatchRev
    && (a.published.Some? ==>
          && b.published.Some?
          && a.published.value.typesRev <= b.published.value.typesRev
          && a.published.value.routesRev <= b.published.value.routesRev
          && (a.published == b.published || a.published.value.routesRev <= b.published.value.typesRev))
  }

  lemma StepMovesForward(p: Prefixes, s: State, a: Action, next: State)
    requires Ordered(p, s) && Next(p, s, a, next)
    ensures Forward(s, next)
  {}

  lemma ReachableStep(p: Prefixes, states: seq<State>, actions: seq<Action>, i: nat)
    requires Run(p, states, actions) && i < |actions|
    ensures Forward(states[i], states[i + 1])
    ensures states[i].published.Some? ==> states[i].published.value.typesRev <= states[i].published.value.routesRev
  {
    RunKeepsShape(p, states, actions, i);
    StepMovesForward(p, states[i], actions[i], states[i + 1]);
  }

  lemma ForwardTransitive(a: State, b: State, c: State)
    requires Forward(a, b) && Forward(b, c)
    requires b.published.Some? ==> b.published.value.typesRev <= b.published.value.routesRev
    ensures Forward(a, c)
  {}

  /**
    Snapshot monotonicity: along a run the revisions behind the published table never go back,
    neither of its type read nor of its route read, nextWatchRev never decreases, and a newer table
    read its types no earlier than an older one read its routes.
   */
  lemma {:induction false} SnapshotsMoveForward(p: Prefixes, states: seq<State>, actions: seq<Action>, i: nat, j: nat)
    requires Run(p, states, actions) && i <= j < |states|
    ensures Forward(states[i], states[j])
  {
    hide Next;
    if i < j {
      hide Forward;
      SnapshotsMoveForward(p, states, actions, i, j - 1);
      ReachableStep(p, states, actions, j - 1);
      ForwardTransitive(states[i], states[j - 1], states[j]);
    }
  }

  /** The build behind a snapshot read the write at revision `r` wherever it matters. */
  predicate Seen(p: Prefixes, x: Snapshot, c: Change, r: nat) {
    (p.types <= c.key ==> r <= x.typesRev) && (p.routes <= c.key ==> r <= x.routesRev)
  }

  /** The build whose table is published, or about to be. */
  function Latest(s: State): Option<Snapshot> {
    if s.phase.Finishing() then Some(s.phase.next) else s.published
  }

  /** Before state `i` a rebuild of the timer's failed when write `r` was not pending, and none has read since. */
  ghost predicate LostAtFailure(states: seq<State>, actions: seq<Action>, i: nat, r: nat)
    requires |states| == |actions| + 1 && i < |states|
  {
    exists k: nat :: k < i && FailedWithout(states[k], actions[k], r) && forall j | k < j < i :: !actions[j].ReadRoutes?
  }

  predicate FailedWithout(s: State, a: Action, r: nat) {
    a.Fail? && (s.phase.Started? || s.phase.HaveTypes?) && !s.phase.byRun && r <= |s.log| && !Pending(s, r)
  }

  /** A step that leaves the manager idle after a failed rebuild of the timer's is that failure or found it so. */
  lemma IdleBefore(p: Prefixes, s: State, a: Action, next: State)
    requires Next(p, s, a, next) && next.phase.Idle? && next.timerFailed
    ensures if a.Fail? then (s.phase.Started? || s.phase.HaveTypes?) && !s.phase.byRun
            else s.phase.Idle? && s.timerFailed && next.published == s.published && !a.ReadRoutes?
    ensures next.log == if a.Write? then s.log + [a.change] else s.log
  {
    hide ReadAt;
    hide Opened;
  }

  /** After a failed rebuild of the timer's, what is neither seen nor pending was lost at a failure. */
  lemma {:induction false} PendingOrLost(p: Prefixes, states: seq<State>, actions: seq<Action>, i: nat, r: nat)
    requires p.Nested() && Run(p, states, actions) && i < |states| && states[i].phase.Idle? && states[i].timerFailed
    requires SeenUpTo(states[i]) < r <= |states[i].log| && p.Relevant(states[i].log[r - 1])
    ensures Pending(states[i], r) || LostAtFailure(states, actions, i, r)
  {
    hide Next;
    hide Ordered;
    hide ConnsRight;
    if i > 0 {
      var s, a, next := states[i - 1], actions[i - 1], states[i];
      assert Next(p, s, a, next);
      IdleBefore(p, s, a, next);
      RunKeepsShape(p, states, actions, i - 1);
      if a.Fail? {
        FailureLoses(p, s, next, r);
        if !Pending(s, r) { assert FailedWithout(states[i - 1], actions[i - 1], r); }
      } else if a.Write? && r == |next.log| {
        WriteIsPending(p, s, a.change, next);
      } else {
        assert next.log[r - 1] == s.log[r - 1];
        PendingOrLost(p, states, actions, i - 1, r);
        if Pending(s, r) {
          hide Pending;
          hide Run;
          if a.LoadRev? { LoadsNoLater(p, s, next, r); }
          StillPending(p, s, a, next, r);
        }
      }
    }
  }

  /** How the manager stands to the relevant write `r`. */
  ghost predicate Accounted(p: Prefixes, states: seq<State>, actions: seq<Action>, i: nat, r: nat)
    requires |states| == |actions| + 1 && i < |states| && 0 < r <= |states[i].log|
  {
    var s, c := states[i], states[i].log[r - 1];
    || (Latest(s).Some? && Seen(p, Latest(s).value, c, r))
    || (Latest(s).Some? && p.types <= c.key && Latest(s).value.typesRev < r <= Latest(s).value.routesRev)
    || s.phase.Started? || s.phase.HaveTypes?
    || (s.nextWatchRev <= r && Pending(s, r))
    || LostAtFailure(states, actions, i, r)
  }

  /**
    No lost update: at every moment of a run every relevant write was read by the build that is, or is
    about to be, published; or it is a type write that fell between that build's two reads; or a rebuild
    under way has still to read its routes; or it is one a watch opened at nextWatchRev delivers, and it is
    still to be delivered or has a reload armed or waiting for it; or a rebuild of the timer's failed when
    it was no longer pending, and none has read since.
   */
  lemma NoLostUpdate(p: Prefixes, states: seq<State>, actions: seq<Action>, i: nat, r: nat)
    requires p.Nested() && Run(p, states, actions) && i < |states|
    requires 0 < r <= |states[i].log| && p.Relevant(states[i].log[r - 1])
    ensures Accounted(p, states, actions, i, r)
  {
    var s := states[i];
    RunKeepsShape(p, states, actions, i);
    RunKeepsNothingLost(p, states, actions, i);
    if SeenUpTo(s) < r && s.phase.Idle? && s.timerFailed {
      PendingOrLost(p, states, actions, i, r);
    }
    hide Run;
    hide LostAtFailure;
    hide Genuine;
    hide ConnsRight;
    RevisionOf(p, s);
  }

  /**
    Everything is delivered, no rebuild is under way, armed or waiting, and the last one was not a failed
    one of the timer's.
   */
  predicate Quiescent(s: State) {
    s.phase.Idle? && !s.armed && s.waiting == 0 && !s.timerFailed && s.watch == Open(|s.log|)
  }

  /** A write to the service types fell between the two reads of the published build. */
  predicate TypeWriteInGap(p: Prefixes, s: State, x: Snapshot)
    requires x.typesRev <= x.routesRev <= |s.log|
  {
    exists r :: x.typesRev <= r < x.routesRev && p.types <= s.log[r].key
  }

  /**
    Quiescent agreement: at quiescence the published routes are those of the final store, and the
    published types are too exactly when they did not change between the build's two reads; without
    a type write in that gap the published table is Build of the final store for the build's dials.
   */
  lemma QuiescentAgreement(p: Prefixes, states: seq<State>, actions: seq<Action>, i: nat)
    requires p.Nested() && Run(p, states, actions) && i < |states| && Quiescent(states[i])
    ensures states[i].published.Some? && Genuine(p, states[i].log, states[i].published.value)
    ensures var s := states[i];
            var x := s.published.value;
            && RoutesAt(s.log[..x.routesRev], p.routes) == RoutesAt(s.log, p.routes)
            && (TypesAt(s.log[..x.typesRev], p.types) == TypesAt(s.log, p.types) <==>
                TypesAt(s.log[..x.typesRev], p.types) == TypesAt(s.log[..x.routesRev], p.types))
            && (!TypeWriteInGap(p, s, x) ==>
                  var final := ReadAt(p, s.log, |s.log|, |s.log|, x.dial);
                  final.Ok? && final.value.table == x.built.table && final.value.conns == x.built.conns)
  {
    RunKeepsShape(p, states, actions, i);
    RunKeepsNothingLost(p, states, actions, i);
    var s := states[i];
    var x := s.published.value;
    forall r | x.routesRev <= r < |s.log| ensures !(p.types <= s.log[r].key) && !(p.routes <= s.log[r].key) {
      assert !Pending(s, r + 1);
    }
    RoutesUnchanged(s.log, x.routesRev, p.routes);
    TypesUnchanged(s.log, x.routesRev, p.types);
    assert s.log[..|s.log|] == s.log;
    if !TypeWriteInGap(p, s, x) {
      TypesUnchanged(s.log, x.typesRev, p.types);
    }
  }
}
