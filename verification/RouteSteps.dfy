/** Which step of the route manager may change what: tables, connections, timers and the watch. */
module RouteSteps {
  import opened Wrappers
  import opened RouteBuild
  import opened RouteManager

  /** A write that the watch sees lies between what was delivered and `upTo`. */
  ghost predicate SeesWrite(p: Prefixes, s: State, upTo: nat)
    requires s.watch.Open? && upTo <= |s.log|
  {
    exists r: nat :: s.watch.delivered <= r < upTo && p.watch <= s.log[r].key
  }

  /**
    The store grows by writes only; the table changes by a publication of the build under way, nextWatchRev
    by the store of its revision, and neither by anything else, failures and Close included.
   */
  lemma TableMoves(p: Prefixes, s: State, a: Action, next: State)
    requires Next(p, s, a, next)
    ensures next.log == if a.Write? then s.log + [a.change] else s.log
    ensures a.PublishTable? ==> s.phase.RevStored? && next.published == Some(s.phase.next)
    ensures !a.PublishTable? ==> next.published == s.published
    ensures a.StoreRev? ==> s.phase.Ready? && next.nextWatchRev == s.phase.next.built.nextWatchRev
    ensures !a.StoreRev? ==> next.nextWatchRev == s.nextWatchRev
  {
    hide ReadAt;
    hide Opened;
  }

  /**
    A connection becomes active by the swap that ends its build, and leaves to draining by the next swap or
    is closed.
   */
  lemma ConnectionsMove(p: Prefixes, s: State, a: Action, next: State, conn: nat)
    requires Next(p, s, a, next)
    ensures conn in next.dialled && conn !in s.dialled ==>
              a.ReadRoutes? && conn in Opened(p, s.log, s.phase.typesRev, a.dial)
    ensures conn in next.active && conn !in s.active ==> a.SwapConns? && conn in s.phase.next.built.conns
    ensures conn in next.draining && conn !in s.draining ==> a.SwapConns? && conn in s.active
    ensures conn in s.draining && conn !in next.draining ==> a == Drain(conn)
    ensures conn in next.closed && conn !in s.closed ==>
              || a == Drain(conn) || (a.Close? && conn in s.active)
              || (a.ReadRoutes? && conn in Opened(p, s.log, s.phase.typesRev, a.dial)
                  && conn !in next.phase.next.built.conns)
    ensures s.closed <= next.closed && s.dialled <= next.dialled
    ensures a.Close? ==> next.shutDown && next.active == {} && s.active <= next.closed
    ensures !a.Close? ==> next.shutDown == s.shutDown
  {
    hide ReadAt;
    hide Opened;
  }

  /**
    The timer is armed by a delivery that holds a watched write and by nothing else; it is disarmed by
    firing, which leaves one rebuild waiting, and a waiting rebuild is taken up by getting the lock.
   */
  lemma TimerMoves(p: Prefixes, s: State, a: Action, next: State)
    requires Next(p, s, a, next)
    ensures a.Deliver? ==> s.watch.Open? && a.upTo <= |s.log| && (next.armed <==> s.armed || SeesWrite(p, s, a.upTo))
    ensures a.Fire? ==> s.armed && !next.armed
    ensures !a.Deliver? && !a.Fire? ==> next.armed == s.armed
    ensures next.waiting == s.waiting + (if a.Fire? then 1 else if a == Acquire(false) then -1 else 0)
  {
    hide ReadAt;
    hide Opened;
  }

  /**
    The watch is opened at the revision loaded before, delivers forwards, and is loaded again only after
    the watch loop's own rebuild; the timer's rebuilds do not touch it.
   */
  lemma WatchMoves(p: Prefixes, s: State, a: Action, next: State)
    requires Next(p, s, a, next)
    ensures a.LoadRev? ==> next.watch == Loaded(s.nextWatchRev)
    ensures a.OpenWatch? ==> s.watch.Loaded? && s.watch.rev >= 1 && next.watch == Open(s.watch.rev - 1)
    ensures a.Deliver? ==> s.watch.Open? && s.watch.delivered < a.upTo && next.watch == Open(a.upTo)
    ensures next.watch.Loading? && !s.watch.Loading? ==> (a.Fail? || a.SwapConns?) && s.phase.byRun
    ensures next.watch.Exited? && !s.watch.Exited? ==> a.Fail? && s.phase.byRun && s.published.None?
    ensures (a.Fail? || a.SwapConns?) && !s.phase.byRun ==> next.watch == s.watch
    ensures s.watch.Exited? && next.watch != s.watch ==> (a.Fail? || a.SwapConns?) && s.phase.byRun
  {
    hide ReadAt;
    hide Opened;
  }
}
