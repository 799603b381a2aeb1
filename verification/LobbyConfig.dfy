/**
  Config revisions, from the table the config tool inserts into to the snapshots of a lobby process:
  a revision is inserted, then announced; the lobby loads every config once at start, subscribes, and
  from then on reloads a config whenever one of its revisions is announced. An update of the routes may
  point later loads at another database.
 */
module LobbyConfig {
  import opened Wrappers

  // ----- the revision table -----

  /** Payload by config name and revision; the pair is a unique key. */
  type Revisions = map<(string, int), string>

  /** The row of the greatest revision of a config, if it has any. */
  ghost predicate QueryGives(rows: Revisions, name: string, row: Option<(int, string)>) {
    match row
    case None => forall q: int :: (name, q) !in rows
    case Some((r, p)) => (name, r) in rows && rows[(name, r)] == p && forall q: int | (name, q) in rows :: q <= r
  }

  // ----- stores and the loader -----

  datatype Snapshot<T> = Snapshot(revision: int, data: T)

  type Snapshots<T> = map<string, Option<Snapshot<T>>>

  /** Decoding a payload into the rows of a config; it may fail. */
  type Decoder<T> = (string, string) -> Option<T>

  datatype LoadError = NoDatabase | NotRegistered(name: string) | NoRow(name: string) | BadPayload(name: string)

  /** What the database answers to one load: no connection, or the latest row at that moment. */
  datatype Answer = Unresolved | Row(row: Option<(int, string)>)

  /** Why a load fails, in the order of the checks. */
  function LoadFailure<T>(snaps: Snapshots<T>, name: string, answer: Answer, decode: Decoder<T>): Option<LoadError> {
    if answer.Unresolved? then Some(NoDatabase)
    else if name !in snaps then Some(NotRegistered(name))
    else match answer.row
         case None => Some(NoRow(name))
         case Some((r, p)) => if decode(name, p).None? then Some(BadPayload(name)) else None
  }

  /** A load that succeeds replaces the snapshot of its config; one that fails changes nothing. */
  function AfterLoad<T>(snaps: Snapshots<T>, name: string, answer: Answer, decode: Decoder<T>): Snapshots<T> {
    if LoadFailure(snaps, name, answer, decode).Some? then snaps
    else
      var (r, p) := answer.row.value;
      snaps[name := Some(Snapshot(r, decode(name, p).value))]
  }

  /** The config is registered, the database answered with a row, and its payload decodes. */
  predicate Loads<T>(snaps: Snapshots<T>, name: string, answer: Answer, decode: Decoder<T>) {
    && answer.Row? && answer.row.Some?
    && name in snaps && decode(name, answer.row.value.1).Some?
  }

  /** The snapshot of such a row. */
  function Loaded<T>(name: string, answer: Answer, decode: Decoder<T>): Option<Snapshot<T>>
    requires answer.Row? && answer.row.Some? && decode(name, answer.row.value.1).Some?
  {
    Some(Snapshot(answer.row.value.0, decode(name, answer.row.value.1).value))
  }

  /** A load succeeds exactly in that case, else fails for the first thing missing, and stores exactly that snapshot. */
  lemma LoadsExactly<T>(snaps: Snapshots<T>, name: string, answer: Answer, decode: Decoder<T>)
    ensures LoadFailure(snaps, name, answer, decode).None? <==> Loads(snaps, name, answer, decode)
    ensures AfterLoad(snaps, name, answer, decode) ==
            if Loads(snaps, name, answer, decode) then snaps[name := Loaded(name, answer, decode)] else snaps
  {}

  /** Loads of several configs, one after the other. */
  function AfterLoads<T>(snaps: Snapshots<T>,
                         names: seq<string>, answers: seq<Answer>, decode: Decoder<T>): Snapshots<T>
    requires |names| == |answers|
  {
    if names == [] then snaps
    else
      var before := AfterLoads(snaps, names[..|names| - 1], answers[..|names| - 1], decode);
      AfterLoad(before, names[|names| - 1], answers[|names| - 1], decode)
  }

  class TypedStore<T> {
    var snapshot: Option<Snapshot<T>>

    constructor ()
      ensures snapshot == None
    {
      snapshot := None;
    }

    method Get() returns (s: Option<Snapshot<T>>)
      ensures s == snapshot
    {
      s := snapshot;
    }

    method Update(revision: int, data: T)
      modifies this
      ensures snapshot == Some(Snapshot(revision, data))
    {
      snapshot := Some(Snapshot(revision, data));
    }
  }

  class ConfigLoader<T> {
    const stores: map<string, TypedStore<T>>

    /** Every registered name has a store of its own. */
    ghost predicate Valid() {
      forall a, b | a in stores && b in stores && a != b :: stores[a] != stores[b]
    }

    ghost function Snaps(): Snapshots<T>
      reads stores.Values
    {
      map name | name in stores :: stores[name].snapshot
    }

    constructor (stores: map<string, TypedStore<T>>)
      requires forall a, b | a in stores && b in stores && a != b :: stores[a] != stores[b]
      ensures Valid() && this.stores == stores
    {
      this.stores := stores;
    }

    method LoadOne(name: string, answer: Answer, decode: Decoder<T>) returns (err: Option<LoadError>)
      requires Valid()
      modifies stores.Values
      ensures err == Some(NoDatabase) <==> answer.Unresolved?
      ensures err == Some(NotRegistered(name)) <==> answer.Row? && name !in stores
      ensures err == Some(NoRow(name)) <==> answer.Row? && name in stores && answer.row.None?
      ensures err == Some(BadPayload(name)) <==>
              answer.Row? && name in stores && answer.row.Some? && decode(name, answer.row.value.1).None?
      ensures err.None? <==>
              answer.Row? && name in stores && answer.row.Some? && decode(name, answer.row.value.1).Some?
      ensures err.None? ==>
                var (r, p) := answer.row.value;
                Snaps() == old(Snaps())[name := Some(Snapshot(r, decode(name, p).value))]
      ensures err.Some? ==> Snaps() == old(Snaps())
      ensures Snaps() == AfterLoad(old(Snaps()), name, answer, decode)
    {
      if answer.Unresolved? { return Some(NoDatabase); }
      if name !in stores { return Some(NotRegistered(name)); }
      if answer.row.None? { return Some(NoRow(name)); }
      var (revision, payload) := answer.row.value;
      var data := decode(name, payload);
      if data.None? { return Some(BadPayload(name)); }
      stores[name].Update(revision, data.value);
      err := None;
    }

    /** Failed loads are skipped; the others go on. */
    method LoadAll(names: seq<string>, answers: seq<Answer>, decode: Decoder<T>)
      requires Valid() && |answers| == |names|
      modifies stores.Values
      ensures Snaps() == AfterLoads(old(Snaps()), names, answers, decode)
    {
      for i := 0 to |names|
        invariant Snaps() == AfterLoads(old(Snaps()), names[..i], answers[..i], decode)
      {
        assert names[..i + 1][..i] == names[..i] && answers[..i + 1][..i] == answers[..i];
        var _ := LoadOne(names[i], answers[i], decode);
      }
      assert names[..|names|] == names && answers[..|names|] == answers;
    }

    /** An announcement that does not decode, or that names no config, is ignored. */
    method HandleMessage(message: Option<(string, int)>, answer: Answer, decode: Decoder<T>)
      requires Valid()
      modifies stores.Values
      ensures Snaps() ==
              if message.None? || message.value.0 == "" then old(Snaps())
              else if Loads(old(Snaps()), message.value.0, answer, decode)
              then old(Snaps())[message.value.0 := Loaded(message.value.0, answer, decode)]
              else old(Snaps())
    {
      if message.None? { return; }
      var (name, revision) := message.value;
      if name == "" { return; }
      var _ := LoadOne(name, answer, decode);
    }
  }

  /** Loading each of several different configs once leaves each as its own load does. */
  lemma {:induction false} EachLoadedOnItsOwn<T>(
    snaps: Snapshots<T>, names: seq<string>, answers: seq<Answer>, decode: Decoder<T>, name: string)
    requires |names| == |answers| && forall i, j | 0 <= i < j < |names| :: names[i] != names[j]
    ensures var after := AfterLoads(snaps, names, answers, decode);
            && after.Keys == snaps.Keys
            && (name !in names && name in snaps ==> after[name] == snaps[name])
            && (forall i | 0 <= i < |names| && names[i] == name && name in snaps ::
                  after[name] ==
                    if Loads(snaps, name, answers[i], decode) then Loaded(name, answers[i], decode) else snaps[name])
  {
    if names != [] {
      EachLoadedOnItsOwn(snaps, names[..|names| - 1], answers[..|names| - 1], decode, name);
    }
  }

  // ----- the whole path as steps -----

  /** A load between its query and its update; `cause` is the announced revision, if an announcement caused it. */
  datatype Load = Load(name: string, cause: Option<int>, answer: Answer)

  datatype System<T> = System(
    rows: Revisions,
    inbox: seq<(string, int)>,
    subscribed: bool,
    snaps: Snapshots<T>,
    loading: Option<Load>)

  datatype Action =
    | Insert(name: string, revision: int, payload: string)
    | Redirect(rows: Revisions)
    | Publish(name: string, revision: int)
    | Lose(index: nat)
    | LoadAtStart(name: string, answer: Answer)
    | Subscribe
    | Take(answer: Answer)
    | Finish

  ghost predicate Answers(rows: Revisions, name: string, answer: Answer) {
    answer.Row? ==> QueryGives(rows, name, answer.row)
  }

  /**
    The tool announces only what it has inserted; the lobby subscribes after loading, and loads one config
    at a time.
   */
  ghost predicate Enabled<T>(s: System<T>, a: Action) {
    match a
    case Insert(name, revision, _) => (name, revision) !in s.rows
    case Redirect(_) => true
    case Publish(name, revision) => (name, revision) in s.rows
    case Lose(i) => i < |s.inbox|
    case LoadAtStart(name, answer) => !s.subscribed && s.loading.None? && Answers(s.rows, name, answer)
    case Subscribe => !s.subscribed && s.loading.None?
    case Take(answer) => s.subscribed && s.loading.None? && s.inbox != [] && Answers(s.rows, s.inbox[0].0, answer)
    case Finish => s.loading.Some?
  }

  /** An announcement nobody is subscribed to is gone. */
  function Next<T>(s: System<T>, a: Action, decode: Decoder<T>): System<T>
    requires Enabled(s, a)
  {
    match a
    case Insert(name, revision, payload) => s.(rows := s.rows[(name, revision) := payload])
    case Redirect(rows) => s.(rows := rows)
    case Publish(name, revision) => if s.subscribed then s.(inbox := s.inbox + [(name, revision)]) else s
    case Lose(i) => s.(inbox := s.inbox[..i] + s.inbox[i + 1..])
    case LoadAtStart(name, answer) => s.(loading := Some(Load(name, None, answer)))
    case Subscribe => s.(subscribed := true)
    case Take(answer) => s.(inbox := s.inbox[1..], loading := Some(Load(s.inbox[0].0, Some(s.inbox[0].1), answer)))
    case Finish =>
      var load := s.loading.value;
      s.(snaps := AfterLoad(s.snaps, load.name, load.answer, decode), loading := None)
  }

  /**
    What a step does to the announcements: one is queued if somebody is subscribed, one may be lost, the
    first is taken, and nothing else touches them; the subscription, once made, stays.
   */
  lemma AnnouncementsMove<T>(s: System<T>, a: Action, decode: Decoder<T>)
    requires Enabled(s, a)
    ensures var t := Next(s, a, decode);
            && (a.Publish? && s.subscribed ==> t.inbox == s.inbox + [(a.name, a.revision)])
            && (a.Publish? && !s.subscribed ==> t.inbox == s.inbox)
            && (a.Lose? ==> multiset(s.inbox) == multiset(t.inbox) + multiset{s.inbox[a.index]})
            && (a.Take? ==> s.inbox == [s.inbox[0]] + t.inbox)
            && (!a.Publish? && !a.Lose? && !a.Take? ==> t.inbox == s.inbox)
            && (t.subscribed <==> s.subscribed || a.Subscribe?)
  {
    if a.Lose? {
      assert s.inbox == s.inbox[..a.index] + [s.inbox[a.index]] + s.inbox[a.index + 1..];
    }
  }

  /** Rows are inserted one by one, or the table is another one; a load is under way from its query to its end. */
  lemma LoadsMove<T>(s: System<T>, a: Action, decode: Decoder<T>)
    requires Enabled(s, a)
    ensures var t := Next(s, a, decode);
            && (a.Insert? ==> (a.name, a.revision) !in s.rows && t.rows == s.rows[(a.name, a.revision) := a.payload])
            && (a.Redirect? ==> t.rows == a.rows)
            && (!a.Insert? && !a.Redirect? ==> t.rows == s.rows)
            && (a.LoadAtStart? ==> t.loading == Some(Load(a.name, None, a.answer)))
            && (a.Take? ==> t.loading == Some(Load(s.inbox[0].0, Some(s.inbox[0].1), a.answer)))
            && (a.Finish? ==> s.loading.Some? && t.loading.None?)
            && (!a.LoadAtStart? && !a.Take? && !a.Finish? ==> t.loading == s.loading)
            && (!a.Finish? ==> t.snaps == s.snaps)
  {}

  predicate Initial<T>(s: System<T>) {
    s.inbox == [] && !s.subscribed && s.loading.None? && forall name | name in s.snaps :: s.snaps[name].None?
  }

  ghost predicate Steps<T>(states: seq<System<T>>, actions: seq<Action>, decode: Decoder<T>) {
    && |states| == |actions| + 1
    && forall k | 0 <= k < |actions| ::
       Enabled(states[k], actions[k]) && states[k + 1] == Next(states[k], actions[k], decode)
  }

  ghost predicate Run<T>(states: seq<System<T>>, actions: seq<Action>, decode: Decoder<T>) {
    Steps(states, actions, decode) && Initial(states[0])
  }

  /** A database the loads are pointed at holds every row of the one before. */
  predicate Retains<T>(s: System<T>, a: Action) {
    a.Redirect? ==> forall k | k in s.rows :: k in a.rows && a.rows[k] == s.rows[k]
  }

  /** A run in which no row is lost from sight when the routes change. */
  ghost predicate RetainingRun<T>(states: seq<System<T>>, actions: seq<Action>, decode: Decoder<T>) {
    Run(states, actions, decode) && forall k | 0 <= k < |actions| :: Retains(states[k], actions[k])
  }

  // ----- the invariant -----

  /** The stored snapshot is a decoded row of the table. */
  ghost predicate SnapshotIsRow<T>(s: System<T>, name: string, decode: Decoder<T>)
    requires name in s.snaps && s.snaps[name].Some?
  {
    var snap := s.snaps[name].value;
    (name, snap.revision) in s.rows && decode(name, s.rows[(name, snap.revision)]) == Some(snap.data)
  }

  /** A load under way has read a row, and one at least as new as both the announcement and the stored snapshot. */
  ghost predicate LoadIsFresh<T>(s: System<T>, load: Load) {
    load.answer.Row? ==>
      match load.answer.row
      case None => load.cause.None? && (load.name in s.snaps ==> s.snaps[load.name].None?)
      case Some((r, p)) =>
        && (load.name, r) in s.rows && s.rows[(load.name, r)] == p
        && (load.cause.Some? ==> load.cause.value <= r)
        && (load.name in s.snaps && s.snaps[load.name].Some? ==> s.snaps[load.name].value.revision <= r)
  }

  ghost predicate Inv<T>(s: System<T>, decode: Decoder<T>) {
    && (forall name | name in s.snaps && s.snaps[name].Some? :: SnapshotIsRow(s, name, decode))
    && (forall i | 0 <= i < |s.inbox| :: s.inbox[i] in s.rows)
    && (s.loading.Some? ==> LoadIsFresh(s, s.loading.value))
  }

  lemma StepKeepsInv<T>(s: System<T>, a: Action, decode: Decoder<T>)
    requires Inv(s, decode) && Enabled(s, a) && Retains(s, a)
    ensures Inv(Next(s, a, decode), decode)
  {
    var t := Next(s, a, decode);
    match a
    case LoadAtStart(name, answer) =>
      if name in s.snaps && s.snaps[name].Some? { assert SnapshotIsRow(s, name, decode); }
    case Take(answer) =>
      var name := s.inbox[0].0;
      assert s.inbox[0] in s.rows && s.inbox[0] == (name, s.inbox[0].1);
      if name in s.snaps && s.snaps[name].Some? { assert SnapshotIsRow(s, name, decode); }
    case _ =>
  }

  lemma {:induction false} RunKeepsInv<T>(states: seq<System<T>>, actions: seq<Action>, decode: Decoder<T>, k: nat)
    requires RetainingRun(states, actions, decode) && k < |states|
    ensures Inv(states[k], decode)
  {
    hide Next;
    hide Enabled;
    hide Retains;
    if k > 0 {
      RunKeepsInv(states, actions, decode, k - 1);
      StepKeepsInv(states[k - 1], actions[k - 1], decode);
    }
  }

  // ----- the theorems -----

  /** The stored revision is at least `r`. */
  predicate AtLeast<T>(s: System<T>, name: string, r: int) {
    name in s.snaps && s.snaps[name].Some? && r <= s.snaps[name].value.revision
  }

  lemma StepKeepsRevision<T>(s: System<T>, a: Action, decode: Decoder<T>, name: string, r: int)
    requires Inv(s, decode) && Enabled(s, a) && Retains(s, a) && AtLeast(s, name, r)
    ensures AtLeast(Next(s, a, decode), name, r)
  {}

  /**
    The stored revision of a config never decreases, however inserts, announcements, loads and changes of
    the database that keep its rows interleave.
   */
  lemma {:induction false} RevisionsNeverDecrease<T>(states: seq<System<T>>, actions: seq<Action>, decode: Decoder<T>,
                                                    i: nat, j: nat, name: string, r: int)
    requires RetainingRun(states, actions, decode) && i <= j < |states| && AtLeast(states[i], name, r)
    ensures AtLeast(states[j], name, r)
    decreases j - i
  {
    hide Next;
    hide Enabled;
    hide AtLeast;
    hide Inv;
    hide Initial;
    hide Retains;
    if i < j {
      RunKeepsInv(states, actions, decode, i);
      StepKeepsRevision(states[i], actions[i], decode, name, r);
      RevisionsNeverDecrease(states, actions, decode, i + 1, j, name, r);
    }
  }

  /** A load that succeeds lowers the stored revision exactly when the table it reads holds none as high. */
  lemma ReloadLowersExactly<T>(rows: Revisions, snaps: Snapshots<T>, name: string, answer: Answer, decode: Decoder<T>)
    requires Answers(rows, name, answer) && Loads(snaps, name, answer, decode) && snaps[name].Some?
    ensures var after := AfterLoad(snaps, name, answer, decode);
            && after[name].Some?
            && (after[name].value.revision < snaps[name].value.revision <==>
                forall q: int | (name, q) in rows :: q < snaps[name].value.revision)
  {
    var (revision, payload) := answer.row.value;
    assert (name, revision) in rows;
  }

  /** Step `k` ends a load that an announcement of revision `r` caused, and the load succeeds. */
  predicate Handles<T>(states: seq<System<T>>, actions: seq<Action>, decode: Decoder<T>, k: nat, name: string, r: int) {
    && k < |actions| < |states|
    && actions[k].Finish?
    && states[k].loading.Some?
    && states[k].loading.value.name == name
    && states[k].loading.value.cause == Some(r)
    && Loads(states[k].snaps, name, states[k].loading.value.answer, decode)
  }

  /**
    A load that ends with a row of a registered config whose payload decodes leaves exactly that row stored,
    and one that ends otherwise leaves everything as it was; other configs are left alone either way.
   */
  lemma FinishedLoadStores<T>(states: seq<System<T>>, actions: seq<Action>, decode: Decoder<T>, k: nat)
    requires Steps(states, actions, decode) && k < |actions| && actions[k].Finish?
    ensures states[k].loading.Some?
    ensures var Load(name, _, answer) := states[k].loading.value;
            states[k + 1].snaps ==
              if answer.Row? && answer.row.Some? && name in states[k].snaps && decode(name, answer.row.value.1).Some?
              then states[k].snaps[name := Some(Snapshot(answer.row.value.0, decode(name, answer.row.value.1).value))]
              else states[k].snaps
  {
    assert Enabled(states[k], actions[k]);
    var load := states[k].loading.value;
    LoadsExactly(states[k].snaps, load.name, load.answer, decode);
  }

  /** Once an announcement of revision `r` has been handled, the stored revision is at least `r`, and stays so. */
  lemma HandledMeansAtLeast<T>(states: seq<System<T>>, actions: seq<Action>,
                               decode: Decoder<T>, k: nat, j: nat, name: string, r: int)
    requires RetainingRun(states, actions, decode) && Handles(states, actions, decode, k, name, r) && k < j < |states|
    ensures AtLeast(states[j], name, r)
  {
    RunKeepsInv(states, actions, decode, k);
    assert AtLeast(states[k + 1], name, r);
    RevisionsNeverDecrease(states, actions, decode, k + 1, j, name, r);
  }

  /** When the announced revision is still the latest in the table, the lobby holds exactly its decoded row. */
  lemma HandledLatestIsHeld<T>(states: seq<System<T>>, actions: seq<Action>,
                               decode: Decoder<T>, k: nat, j: nat, name: string, r: int, p: string)
    requires RetainingRun(states, actions, decode) && Handles(states, actions, decode, k, name, r) && k < j < |states|
    requires QueryGives(states[j].rows, name, Some((r, p)))
    ensures name in states[j].snaps && decode(name, p).Some? &&
            states[j].snaps[name] == Some(Snapshot(r, decode(name, p).value))
  {
    HandledMeansAtLeast(states, actions, decode, k, j, name, r);
    RunKeepsInv(states, actions, decode, j);
    assert SnapshotIsRow(states[j], name, decode);
  }

  /** Step `k` ends a load of the config that read revision `r`, and the load succeeds. */
  predicate Installs<T>(states: seq<System<T>>, actions: seq<Action>,
                        decode: Decoder<T>, k: nat, name: string, r: int) {
    && k < |actions| < |states|
    && actions[k].Finish?
    && states[k].loading.Some?
    && states[k].loading.value.name == name
    && Loads(states[k].snaps, name, states[k].loading.value.answer, decode)
    && states[k].loading.value.answer.row.value.0 == r
  }

  /** A stored revision was installed by some earlier load. */
  lemma {:induction false} StoredWasInstalled<T>(states: seq<System<T>>, actions: seq<Action>,
                                                 decode: Decoder<T>, i: nat, name: string)
    requires RetainingRun(states, actions, decode) && i < |states| && name in states[i].snaps &&
             states[i].snaps[name].Some?
    ensures exists k: nat :: k < i && Installs(states, actions, decode, k, name, states[i].snaps[name].value.revision)
  {
    if i > 0 {
      var k := i - 1;
      if !Installs(states, actions, decode, k, name, states[i].snaps[name].value.revision) {
        assert states[i] == Next(states[k], actions[k], decode);
        assert name in states[k].snaps && states[k].snaps[name] == states[i].snaps[name];
        StoredWasInstalled(states, actions, decode, k, name);
      }
    }
  }

  /**
    When a config is current: in a run, a lobby holds the latest revision in the table exactly when
    some load that read that revision has succeeded, whatever else was announced, lost or loaded.
   */
  lemma CurrentIff<T>(states: seq<System<T>>, actions: seq<Action>,
                      decode: Decoder<T>, i: nat, name: string, r: int, p: string)
    requires RetainingRun(states, actions, decode) && i < |states| && QueryGives(states[i].rows, name, Some((r, p)))
    ensures (name in states[i].snaps && states[i].snaps[name].Some? && states[i].snaps[name].value.revision == r)
            <==> exists k: nat :: k < i && Installs(states, actions, decode, k, name, r)
  {
    RunKeepsInv(states, actions, decode, i);
    if name in states[i].snaps && states[i].snaps[name].Some? {
      StoredWasInstalled(states, actions, decode, i, name);
      assert SnapshotIsRow(states[i], name, decode);
    }
    if k: nat :| k < i && Installs(states, actions, decode, k, name, r) {
      assert AtLeast(states[k + 1], name, r);
      RevisionsNeverDecrease(states, actions, decode, k + 1, i, name, r);
      assert SnapshotIsRow(states[i], name, decode);
    }
  }

  /** A step changes a snapshot only by finishing a load of that config that does not fail. */
  lemma OnlyGoodLoadsChange<T>(s: System<T>, a: Action, decode: Decoder<T>, name: string)
    requires Enabled(s, a) && name in s.snaps
    ensures var t := Next(s, a, decode);
            && name in t.snaps
            && (t.snaps[name] != s.snaps[name] ==>
                  && a.Finish? && s.loading.value.name == name
                  && Loads(s.snaps, name, s.loading.value.answer, decode))
  {}

  /** Nothing is under way and nothing is announced. */
  predicate Idle<T>(s: System<T>) {
    s.subscribed && s.inbox == [] && s.loading.None?
  }

  function ReadAsIs(name: string, payload: string): Option<string> {
    Some(payload)
  }

  /** Routes that point loads at a database without the latest row: the next load lowers the stored revision. */
  lemma RedirectLowersTheRevision(name: string, high: int, low: int, payload: string)
    returns (states: seq<System<string>>, actions: seq<Action>)
    requires low < high
    ensures Run(states, actions, ReadAsIs) && |states| > 3
    ensures name in states[3].snaps && states[3].snaps[name] == Some(Snapshot(high, payload))
    ensures name in states[|states| - 1].snaps && states[|states| - 1].snaps[name] == Some(Snapshot(low, payload))
  {
    var first, second := map[(name, high) := payload], map[(name, low) := payload];
    var s0 := System(map[], [], false, map[name := None], None);
    actions := [Insert(name, high, payload), LoadAtStart(name, Row(Some((high, payload)))), Finish, Redirect(second),
                LoadAtStart(name, Row(Some((low, payload)))), Finish];
    var s1 := Next(s0, actions[0], ReadAsIs);
    assert s1.rows == first;
    var s2 := Next(s1, actions[1], ReadAsIs);
    var s3 := Next(s2, actions[2], ReadAsIs);
    var s4 := Next(s3, actions[3], ReadAsIs);
    var s5 := Next(s4, actions[4], ReadAsIs);
    var s6 := Next(s5, actions[5], ReadAsIs);
    states := [s0, s1, s2, s3, s4, s5, s6];
  }

  /**
    A revision inserted and announced after the startup load and before the subscription is missed: the
    lobby comes to rest without it.
   */
  lemma WriteBeforeSubscribingIsMissed(name: string, revision: int, payload: string)
    returns (states: seq<System<string>>, actions: seq<Action>)
    ensures RetainingRun(states, actions, ReadAsIs) && Idle(states[|states| - 1])
    ensures Publish(name, revision) in actions
    ensures QueryGives(states[|states| - 1].rows, name, Some((revision, payload)))
    ensures name in states[|states| - 1].snaps && states[|states| - 1].snaps[name].None?
  {
    var s0 := System(map[], [], false, map[name := None], None);
    actions := [LoadAtStart(name, Row(None)), Finish, Insert(name, revision, payload), Publish(name, revision),
      Subscribe];
    var s1 := Next(s0, actions[0], ReadAsIs);
    var s2 := Next(s1, actions[1], ReadAsIs);
    var s3 := Next(s2, actions[2], ReadAsIs);
    var s4 := Next(s3, actions[3], ReadAsIs);
    var s5 := Next(s4, actions[4], ReadAsIs);
    states := [s0, s1, s2, s3, s4, s5];
    assert actions[3] == Publish(name, revision);
  }
}
