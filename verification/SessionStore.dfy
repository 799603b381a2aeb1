/**
  The single-terminal session script of the user service, over one flat string-keyed
  Redis database with expiries and a clock. The clock is in seconds, the unit of SETEX.
 */
module SessionStore {
  import opened Wrappers
  import opened Text

  datatype Entry = Entry(value: string, expiresAt: int)

  /** What a Redis client can observe depends on the stored entries and the clock. */
  datatype Db = Db(keys: map<string, Entry>, now: int) {
    predicate Live(key: string) {
      key in keys && now < keys[key].expiresAt
    }

    function Get(key: string): Option<string> {
      if Live(key) then Some(keys[key].value) else None
    }

    function Del(key: string): Db {
      this.(keys := keys - {key})
    }

    /** SETEX refuses a non-positive time to live. */
    function SetEx(key: string, ttl: int, value: string): Option<Db> {
      if ttl <= 0 then None else Some(this.(keys := keys[key := Entry(value, now + ttl)]))
    }
  }

  // ----- the two key families -----

  function UserKey(user: nat): string {
    "user:" + Decimal(user) + ":session"
  }

  function SessionKey(token: string): string {
    "user:session:" + token
  }

  function SessionValue(user: nat, name: string): string {
    Decimal(user) + ":" + name
  }

  ghost predicate OwnedBy(value: string, user: nat) {
    exists name :: value == SessionValue(user, name)
  }

  lemma DigitsBeforeColon(m: nat, n: nat, restM: string, restN: string)
    requires Decimal(m) + ":" + restM == Decimal(n) + ":" + restN
    ensures m == n && restM == restN
  {
    var s := Decimal(m) + ":" + restM;
    IndexOfUnique(s, ':', |Decimal(m)|);
    IndexOfUnique(s, ':', |Decimal(n)|);
    assert s[..|Decimal(m)|] == Decimal(m) && s[..|Decimal(n)|] == Decimal(n);
    DecimalInjective(m, n);
    assert s[|Decimal(m)| + 1..] == restM && s[|Decimal(n)| + 1..] == restN;
  }

  /** Both key families are injective and they never meet, and a session value has one owner. */
  lemma KeysApart(user: nat, other: nat, token: string, otherToken: string)
    ensures UserKey(user) == UserKey(other) ==> user == other
    ensures SessionKey(token) == SessionKey(otherToken) ==> token == otherToken
    ensures UserKey(user) != SessionKey(token)
  {
    if UserKey(user) == UserKey(other) {
      assert UserKey(user)[5..] == Decimal(user) + ":" + "session";
      assert UserKey(other)[5..] == Decimal(other) + ":" + "session";
      DigitsBeforeColon(user, other, "session", "session");
    }
    if SessionKey(token) == SessionKey(otherToken) {
      assert SessionKey(token)[13..] == token && SessionKey(otherToken)[13..] == otherToken;
    }
    assert UserKey(user)[5] == Decimal(user)[0] && SessionKey(token)[5] == 's';
  }

  lemma OneOwner(value: string, user: nat, other: nat)
    requires OwnedBy(value, user) && OwnedBy(value, other)
    ensures user == other
  {
    var a :| value == SessionValue(user, a);
    var b :| value == SessionValue(other, b);
    DigitsBeforeColon(user, other, a, b);
  }

  /** A session value keeps both the user id and the name, whatever the name contains. */
  lemma ValueKeepsBoth(user: nat, name: string, other: nat, otherName: string)
    requires SessionValue(user, name) == SessionValue(other, otherName)
    ensures user == other && name == otherName
  {
    DigitsBeforeColon(user, other, name, otherName);
  }

  /** How the keys and the value are written: fields joined by colons. */
  lemma WrittenAs(user: nat, token: string, name: string)
    ensures UserKey(user) == Join(["user", Decimal(user), "session"], ':')
    ensures SessionKey(token) == Join(["user", "session", token], ':')
    ensures SessionValue(user, name) == Join([Decimal(user), name], ':')
  {
    JoinThree("user", Decimal(user), "session");
    JoinThree("user", "session", token);
    assert ":" == [':'];
    assert [Decimal(user), name][1..] == [name];
  }

  lemma JoinThree(a: string, b: string, c: string)
    ensures Join([a, b, c], ':') == a + ":" + b + ":" + c
  {
    assert [a, b, c][1..] == [b, c] && [b, c][1..] == [c];
    assert Join([b, c], ':') == b + [':'] + Join([c], ':');
    assert Join([a, b, c], ':') == a + [':'] + Join([b, c], ':');
    assert a + [':'] + (b + [':'] + c) == a + ":" + b + ":" + c;
  }

  // ----- the script -----

  /** Outcome of the script: the database afterwards, and the reply unless SETEX failed. */
  datatype ScriptOutcome = ScriptOutcome(db: Db, reply: Option<string>)

  function LoginScript(db: Db, user: nat, name: string, token: string, ttl: int): ScriptOutcome {
    var prev := db.Get(UserKey(user));
    var cleared := if prev.Some? && prev.value != token then db.Del(SessionKey(prev.value)) else db;
    match cleared.SetEx(UserKey(user), ttl, token)
    case None => ScriptOutcome(cleared, None)
    case Some(bound) =>
      match bound.SetEx(SessionKey(token), ttl, SessionValue(user, name))
      case None => ScriptOutcome(bound, None)
      case Some(stored) => ScriptOutcome(stored, Some(if prev.Some? then prev.value else ""))
  }

  /** The Redis server: it runs one script at a time and expires keys by the clock. */
  class Redis {
    var keys: map<string, Entry>
    var now: int

    constructor (clock: int)
      ensures Contents() == Db(map[], clock)
    {
      keys := map[];
      now := clock;
    }

    ghost function Contents(): Db
      reads this
    {
      Db(keys, now)
    }

    method Get(key: string) returns (value: Option<string>)
      ensures value == Contents().Get(key)
    {
      value := if key in keys && now < keys[key].expiresAt then Some(keys[key].value) else None;
    }

    method SetEx(key: string, ttl: int, value: string) returns (ok: bool)
      modifies this
      ensures ok == old(Contents()).SetEx(key, ttl, value).Some?
      ensures Contents() == if ok then old(Contents()).SetEx(key, ttl, value).value else old(Contents())
    {
      ok := ttl > 0;
      if ok {
        keys := keys[key := Entry(value, now + ttl)];
      }
    }

    /** loginSessionLua, command by command; an error part way leaves what was already done. */
    method EvalLoginSession(user: nat, name: string, token: string, ttl: int) returns (reply: Option<string>)
      modifies this
      ensures ScriptOutcome(Contents(), reply) == LoginScript(old(Contents()), user, name, token, ttl)
    {
      var prev := Get(UserKey(user));
      if prev.Some? && prev.value != token {
        keys := keys - {SessionKey(prev.value)};
      }
      var ok := SetEx(UserKey(user), ttl, token);
      if !ok { return None; }
      ok := SetEx(SessionKey(token), ttl, SessionValue(user, name));
      if !ok { return None; }
      reply := Some(if prev.Some? then prev.value else "");
    }

    /** issueSessionAtomic: a failed script is an error, and only a non-empty reply means a session was displaced. */
    method IssueSessionAtomic(user: nat, name: string, token: string, ttl: int)
      returns (issued: Result<(string, bool), ()>)
      modifies this
      ensures var outcome := LoginScript(old(Contents()), user, name, token, ttl);
              && Contents() == outcome.db
              && issued == (if outcome.reply.None? then Err(()) else Ok((token, outcome.reply.value != "")))
    {
      var reply := EvalLoginSession(user, name, token, ttl);
      if reply.None? { return Err(()); }
      return Ok((token, reply.value != ""));
    }
  }

  // ----- runs: scripts and clock advances in any order -----

  datatype Event = Event(user: nat, name: string, token: string, at: int, ttl: int) {
    function Expiry(): int { at + ttl }
  }

  datatype Step = Script(user: nat, name: string, token: string, ttl: int) | Tick(seconds: nat)

  /** The database together with the logins issued so far, in order, and the flag each one returned. */
  datatype World = World(db: Db, log: seq<Event>, flags: seq<bool>)

  const START := World(Db(map[], 0), [], [])

  function Issue(w: World, user: nat, name: string, token: string, ttl: int): World {
    var outcome := LoginScript(w.db, user, name, token, ttl);
    if outcome.reply.None? then w.(db := outcome.db)
    else World(outcome.db, w.log + [Event(user, name, token, w.db.now, ttl)], w.flags + [outcome.reply.value != ""])
  }

  function Apply(w: World, step: Step): World {
    match step
    case Script(user, name, token, ttl) => Issue(w, user, name, token, ttl)
    case Tick(seconds) => w.(db := w.db.(now := w.db.now + seconds))
  }

  function Exec(steps: seq<Step>): World {
    if steps == [] then START else Apply(Exec(steps[..|steps| - 1]), steps[|steps| - 1])
  }

  function Elapsed(steps: seq<Step>): nat {
    if steps == [] then 0
    else Elapsed(steps[..|steps| - 1]) + if steps[|steps| - 1].Tick? then steps[|steps| - 1].seconds else 0
  }

  /** Scripts take no time: the clock of a run shows the seconds that were let pass. */
  lemma {:induction false} ClockShowsElapsed(steps: seq<Step>)
    ensures Exec(steps).db.now == Elapsed(steps)
  {
    if steps != [] {
      ClockShowsElapsed(steps[..|steps| - 1]);
    }
  }

  /** Tokens are 64 hexadecimal digits from crypto/rand: never empty and never repeated. */
  ghost predicate FreshToken(log: seq<Event>, token: string) {
    token != "" && forall i | 0 <= i < |log| :: log[i].token != token
  }

  ghost predicate Sound(steps: seq<Step>) {
    forall k | 0 <= k < |steps| && steps[k].Script? ::
      steps[k].ttl >= 1 && FreshToken(Exec(steps[..k]).log, steps[k].token)
  }

  // ----- what should become of a token, read off the history alone -----

  datatype Fate = LiveToken | Displaced | Expired

  /** Login `j` is the next login of the user of login `i`. */
  ghost predicate NextLogin(log: seq<Event>, i: nat, j: nat) {
    && i < j < |log| && log[i].user == log[j].user
    && forall k | i < k < j :: log[k].user != log[i].user
  }

  /** The next login of the same user happened before login `i` expired. */
  ghost predicate DisplacedBy(log: seq<Event>, i: nat, j: nat) {
    NextLogin(log, i, j) && log[j].at < log[i].Expiry()
  }

  ghost predicate WasDisplaced(log: seq<Event>, i: nat) {
    exists j: nat :: DisplacedBy(log, i, j)
  }

  ghost predicate Displaces(log: seq<Event>, j: nat) {
    exists i: nat :: DisplacedBy(log, i, j)
  }

  ghost function FateOf(log: seq<Event>, now: int, i: nat): Fate
    requires i < |log|
  {
    if WasDisplaced(log, i) then Displaced
    else if now < log[i].Expiry() then LiveToken
    else Expired
  }

  /** The latest login of a user. */
  function LastOf(log: seq<Event>, user: nat): (r: Option<nat>)
    ensures r.Some? ==>
            r.value < |log| && log[r.value].user == user && forall k | r.value < k < |log| :: log[k].user != user
    ensures r.None? ==> forall k | 0 <= k < |log| :: log[k].user != user
  {
    if log == [] then None
    else if log[|log| - 1].user == user then Some(|log| - 1)
    else LastOf(log[..|log| - 1], user)
  }

  // ----- exactly what the two key families hold after a history of logins -----

  ghost predicate Ordered(w: World) {
    && |w.flags| == |w.log|
    && (forall i | 0 <= i < |w.log| :: w.log[i].at <= w.db.now && w.log[i].token != "")
    && (forall i, j | 0 <= i < j < |w.log| :: w.log[i].token != w.log[j].token)
  }

  /** A user key is stored for exactly the users that logged in, and holds the latest token. */
  ghost predicate UsersRight(w: World) {
    forall u: nat ::
      var last := LastOf(w.log, u);
      && (UserKey(u) in w.db.keys <==> last.Some?)
      && (last.Some? ==> w.db.keys[UserKey(u)] == Entry(w.log[last.value].token, w.log[last.value].Expiry()))
  }

  /** A session key is stored for exactly the issued tokens that were never displaced. */
  ghost predicate SessionsRight(w: World) {
    && (forall i: nat | i < |w.log| ::
          && (SessionKey(w.log[i].token) in w.db.keys <==> !WasDisplaced(w.log, i))
          && (SessionKey(w.log[i].token) in w.db.keys ==>
                w.db.keys[SessionKey(w.log[i].token)] ==
                  Entry(SessionValue(w.log[i].user, w.log[i].name), w.log[i].Expiry())))
    && (forall t: string | SessionKey(t) in w.db.keys :: exists i: nat :: i < |w.log| && w.log[i].token == t)
  }

  ghost predicate FlagsRight(w: World) {
    |w.flags| == |w.log| && forall j: nat | j < |w.log| :: w.flags[j] <==> Displaces(w.log, j)
  }

  ghost predicate Faithful(w: World) {
    Ordered(w) && UsersRight(w) && SessionsRight(w) && FlagsRight(w)
  }

  // ----- one script keeps it -----

  lemma DisplacedSame(log: seq<Event>, e: Event, i: nat, j: nat)
    requires i < |log|
    ensures j < |log| ==> (DisplacedBy(log + [e], i, j) <==> DisplacedBy(log, i, j))
    ensures DisplacedBy(log + [e], i, |log|) <==> LastOf(log, e.user) == Some(i) && e.at < log[i].Expiry()
  {
    var next := log + [e];
    assert forall k | 0 <= k < |log| :: next[k] == log[k];
    assert next[|log|] == e;
    if DisplacedBy(next, i, |log|) {
      assert forall k | i < k < |log| :: log[k].user != e.user;
    }
  }

  /** Appending a login settles the fate of at most one earlier login: the user's latest. */
  lemma WasDisplacedAfter(log: seq<Event>, e: Event, i: nat)
    requires i <= |log|
    ensures i < |log| ==>
              (WasDisplaced(log + [e], i) <==>
               WasDisplaced(log, i) || (LastOf(log, e.user) == Some(i) && e.at < log[i].Expiry()))
    ensures i == |log| ==> !WasDisplaced(log + [e], i)
  {
    if i < |log| {
      if WasDisplaced(log + [e], i) {
        var j: nat :| DisplacedBy(log + [e], i, j);
        DisplacedSame(log, e, i, j);
      }
      if WasDisplaced(log, i) {
        var j: nat :| DisplacedBy(log, i, j);
        DisplacedSame(log, e, i, j);
      }
      DisplacedSame(log, e, i, |log|);
    }
  }

  lemma DisplacesAfter(log: seq<Event>, e: Event, j: nat)
    requires j <= |log|
    ensures j < |log| ==> (Displaces(log + [e], j) <==> Displaces(log, j))
    ensures j == |log| ==>
              (Displaces(log + [e], j) <==>
               LastOf(log, e.user).Some? && e.at < log[LastOf(log, e.user).value].Expiry())
  {
    if Displaces(log + [e], j) {
      var i: nat :| DisplacedBy(log + [e], i, j);
      DisplacedSame(log, e, i, j);
    }
    if j < |log| && Displaces(log, j) {
      var i: nat :| DisplacedBy(log, i, j);
      DisplacedSame(log, e, i, j);
    }
    if j == |log| && LastOf(log, e.user).Some? {
      DisplacedSame(log, e, LastOf(log, e.user).value, j);
    }
  }

  /** The script with a time to live that SETEX accepts. */
  lemma ScriptCompletes(db: Db, user: nat, name: string, token: string, ttl: int)
    requires ttl >= 1
    ensures var prev := db.Get(UserKey(user));
            var kept := if prev.Some? && prev.value != token then db.keys - {SessionKey(prev.value)} else db.keys;
            LoginScript(db, user, name, token, ttl) ==
            ScriptOutcome(
              db.(keys := kept[UserKey(user) := Entry(token, db.now + ttl)]
                              [SessionKey(token) := Entry(SessionValue(user, name), db.now + ttl)]),
              Some(if prev.Some? then prev.value else ""))
  {
    hide UserKey;
    hide SessionKey;
    hide SessionValue;
  }

  /** What a faithful database answers for a user key: the latest token while it lives. */
  lemma UserKeyAnswers(w: World, user: nat)
    requires Faithful(w)
    ensures var last := LastOf(w.log, user);
            w.db.Get(UserKey(user)) ==
            if last.Some? && w.db.now < w.log[last.value].Expiry() then Some(w.log[last.value].token) else None
  {
    hide LastOf;
    hide UserKey;
    assert UserKey(user) in w.db.keys <==> LastOf(w.log, user).Some?;
  }

  /** What the script does to a faithful database, in terms of the history. */
  lemma ScriptEffect(w: World, user: nat, name: string, token: string, ttl: int)
    requires Faithful(w) && ttl >= 1 && FreshToken(w.log, token)
    ensures var next := Issue(w, user, name, token, ttl);
            var last := LastOf(w.log, user);
            var displaced := last.Some? && w.db.now < w.log[last.value].Expiry();
            var e := Event(user, name, token, w.db.now, ttl);
            && next.log == w.log + [e]
            && next.flags == w.flags + [displaced]
            && next.db.now == w.db.now
            && next.db.keys ==
                 (if displaced then w.db.keys - {SessionKey(w.log[last.value].token)} else w.db.keys)
                 [UserKey(user) := Entry(token, e.Expiry())]
                 [SessionKey(token) := Entry(SessionValue(user, name), e.Expiry())]
    ensures LoginScript(w.db, user, name, token, ttl).reply ==
            Some(match w.db.Get(UserKey(user)) case None => "" case Some(t) => t)
  {
    hide LoginScript;
    hide LastOf;
    hide UserKey;
    hide SessionKey;
    hide SessionValue;
    UserKeyAnswers(w, user);
    ScriptCompletes(w.db, user, name, token, ttl);
    hide UsersRight;
    hide SessionsRight;
    hide FlagsRight;
  }

  lemma IssueKeepsUsers(w: World, user: nat, name: string, token: string, ttl: int)
    requires Faithful(w) && ttl >= 1 && FreshToken(w.log, token)
    ensures UsersRight(Issue(w, user, name, token, ttl))
  {
    ScriptEffect(w, user, name, token, ttl);
    var next := Issue(w, user, name, token, ttl);
    assert next.log[..|w.log|] == w.log;
    forall u: nat
      ensures var last := LastOf(next.log, u);
              && (UserKey(u) in next.db.keys <==> last.Some?)
              && (last.Some? ==>
                 next.db.keys[UserKey(u)] == Entry(next.log[last.value].token, next.log[last.value].Expiry()))
    {
      KeysApart(u, user, token, token);
      var last := LastOf(w.log, user);
      if last.Some? { KeysApart(u, user, w.log[last.value].token, token); }
      assert UserKey(u) in w.db.keys <==> LastOf(w.log, u).Some?;
    }
  }

  lemma IssueKeepsSessions(w: World, user: nat, name: string, token: string, ttl: int)
    requires Faithful(w) && ttl >= 1 && FreshToken(w.log, token)
    ensures SessionsRight(Issue(w, user, name, token, ttl))
  {
    ScriptEffect(w, user, name, token, ttl);
    var next := Issue(w, user, name, token, ttl);
    var last := LastOf(w.log, user);
    forall i: nat | i < |next.log|
      ensures SessionKey(next.log[i].token) in next.db.keys <==> !WasDisplaced(next.log, i)
      ensures SessionKey(next.log[i].token) in next.db.keys ==>
                next.db.keys[SessionKey(next.log[i].token)] ==
                Entry(SessionValue(next.log[i].user, next.log[i].name), next.log[i].Expiry())
    {
      var t := next.log[i].token;
      KeysApart(user, user, t, token);
      if last.Some? { KeysApart(user, user, t, w.log[last.value].token); }
      WasDisplacedAfter(w.log, Event(user, name, token, w.db.now, ttl), i);
      if i < |w.log| {
        assert next.log[i] == w.log[i];
        assert SessionKey(w.log[i].token) in w.db.keys <==> !WasDisplaced(w.log, i);
      }
    }
    forall t: string | SessionKey(t) in next.db.keys
      ensures exists i: nat :: i < |next.log| && next.log[i].token == t
    {
      KeysApart(user, user, t, token);
      if t == token {
        assert next.log[|w.log|].token == t;
      } else {
        assert SessionKey(t) in w.db.keys;
        var i: nat :| i < |w.log| && w.log[i].token == t;
        assert next.log[i].token == t;
      }
    }
  }

  lemma IssueKeeps(w: World, user: nat, name: string, token: string, ttl: int)
    requires Faithful(w) && ttl >= 1 && FreshToken(w.log, token)
    ensures Faithful(Issue(w, user, name, token, ttl))
  {
    IssueKeepsUsers(w, user, name, token, ttl);
    IssueKeepsSessions(w, user, name, token, ttl);
    IssueKeepsFlags(w, user, name, token, ttl);
  }

  lemma IssueKeepsFlags(w: World, user: nat, name: string, token: string, ttl: int)
    requires Faithful(w) && ttl >= 1 && FreshToken(w.log, token)
    ensures Ordered(Issue(w, user, name, token, ttl)) && FlagsRight(Issue(w, user, name, token, ttl))
  {
    ScriptEffect(w, user, name, token, ttl);
    var next := Issue(w, user, name, token, ttl);
    forall j: nat | j < |next.log| ensures next.flags[j] <==> Displaces(next.log, j) {
      DisplacesAfter(w.log, Event(user, name, token, w.db.now, ttl), j);
    }
  }

  lemma TickKeeps(w: World, seconds: nat)
    requires Faithful(w)
    ensures Faithful(Apply(w, Tick(seconds)))
  {}

  lemma StartIsFaithful()
    ensures Faithful(START)
  {}

  lemma {:induction false} RunsAreFaithful(steps: seq<Step>)
    requires Sound(steps)
    ensures Faithful(Exec(steps))
  {
    if steps == [] {
      StartIsFaithful();
    } else {
      var before := steps[..|steps| - 1];
      assert forall k | 0 <= k < |before| :: before[..k] == steps[..k];
      assert Sound(before);
      RunsAreFaithful(before);
      var step := steps[|steps| - 1];
      if step.Script? {
        IssueKeeps(Exec(before), step.user, step.name, step.token, step.ttl);
      } else {
        TickKeeps(Exec(before), step.seconds);
      }
    }
  }

  // ----- the promises -----

  /**
    Session bijection: after any interleaving of logins and clock advances, the user key of `user`
    is live with token `token` exactly when the session key of `token` is live and owned by `user`,
    and then both expire together.
   */
  lemma SessionBijection(steps: seq<Step>, user: nat, token: string)
    requires Sound(steps)
    ensures var db := Exec(steps).db;
            && (db.Get(UserKey(user)) == Some(token) <==>
                  db.Live(SessionKey(token)) && OwnedBy(db.keys[SessionKey(token)].value, user))
            && (db.Get(UserKey(user)) == Some(token) ==>
                  db.keys[UserKey(user)].expiresAt == db.keys[SessionKey(token)].expiresAt)
  {
    RunsAreFaithful(steps);
    BijectionOf(Exec(steps), user, token);
  }

  lemma BijectionOf(w: World, user: nat, token: string)
    requires Faithful(w)
    ensures w.db.Get(UserKey(user)) == Some(token) <==>
            w.db.Live(SessionKey(token)) && OwnedBy(w.db.keys[SessionKey(token)].value, user)
    ensures w.db.Get(UserKey(user)) == Some(token) ==>
            w.db.keys[UserKey(user)].expiresAt == w.db.keys[SessionKey(token)].expiresAt
  {
    var db, log := w.db, w.log;
    var last := LastOf(log, user);
    assert UserKey(user) in db.keys <==> last.Some?;
    if db.Get(UserKey(user)) == Some(token) {
      assert !WasDisplaced(log, last.value);
      assert log[last.value].token == token;
      assert OwnedBy(db.keys[SessionKey(token)].value, user);
    }
    if db.Live(SessionKey(token)) && OwnedBy(db.keys[SessionKey(token)].value, user) {
      var i: nat :| i < |log| && log[i].token == token;
      assert OwnedBy(SessionValue(log[i].user, log[i].name), log[i].user);
      OneOwner(db.keys[SessionKey(token)].value, user, log[i].user);
      UndisplacedLiveIsLast(w, i);
    }
  }

  /** A login that was never displaced and has not expired is its user's latest. */
  lemma UndisplacedLiveIsLast(w: World, i: nat)
    requires Ordered(w) && i < |w.log| && !WasDisplaced(w.log, i) && w.db.now < w.log[i].Expiry()
    ensures LastOf(w.log, w.log[i].user) == Some(i)
  {
    var last := LastOf(w.log, w.log[i].user).value;
    if last != i {
      var j := FirstAfter(w.log, i, last);
      assert DisplacedBy(w.log, i, j);
      assert false;
    }
  }

  lemma FirstAfter(log: seq<Event>, i: nat, last: nat) returns (j: nat)
    requires i < last < |log| && log[i].user == log[last].user
    ensures NextLogin(log, i, j)
  {
    j := i + 1;
    while log[j].user != log[i].user
      invariant i < j <= last
      invariant forall k | i < k < j :: log[k].user != log[i].user
      decreases last - j
    {
      j := j + 1;
    }
  }

  /** Each user has at most one live token. */
  lemma OneLiveToken(steps: seq<Step>, user: nat, a: string, b: string)
    requires Sound(steps)
    requires var db := Exec(steps).db;
             && db.Live(SessionKey(a)) && OwnedBy(db.keys[SessionKey(a)].value, user)
             && db.Live(SessionKey(b)) && OwnedBy(db.keys[SessionKey(b)].value, user)
    ensures a == b
  {
    SessionBijection(steps, user, a);
    SessionBijection(steps, user, b);
  }

  /**
    Token conservation: whatever the database says about an issued token agrees with its fate in
    the history, which is exactly one of live, displaced while live by the same user's next login,
    or expired; and a login reported a displaced session exactly when it displaced one.
   */
  lemma TokenConservation(steps: seq<Step>, i: nat)
    requires Sound(steps) && i < |Exec(steps).log|
    ensures var w := Exec(steps);
            && |w.flags| == |w.log|
            && (w.db.Live(SessionKey(w.log[i].token)) <==> FateOf(w.log, w.db.now, i) == LiveToken)
            && (w.db.Get(UserKey(w.log[i].user)) == Some(w.log[i].token) <==> FateOf(w.log, w.db.now, i) == LiveToken)
            && (FateOf(w.log, w.db.now, i) == Expired ==> w.log[i].Expiry() <= w.db.now)
            && (w.flags[i] <==> Displaces(w.log, i))
  {
    RunsAreFaithful(steps);
    var w := Exec(steps);
    var e := w.log[i];
    assert SessionKey(e.token) in w.db.keys <==> !WasDisplaced(w.log, i);
    BijectionOf(w, e.user, e.token);
    if w.db.Live(SessionKey(e.token)) {
      assert OwnedBy(SessionValue(e.user, e.name), e.user);
    }
  }

  /** A step leaves the history alone or adds one login to it. */
  lemma ApplyGrowsLog(w: World, step: Step, i: nat)
    requires i < |w.log| && WasDisplaced(w.log, i)
    ensures var next := Apply(w, step);
            i < |next.log| && next.log[i] == w.log[i] && WasDisplaced(next.log, i)
  {
    hide LoginScript;
    hide WasDisplaced;
    if step.Script? {
      WasDisplacedAfter(w.log, Event(step.user, step.name, step.token, w.db.now, step.ttl), i);
    }
  }

  lemma {:induction false} DisplacedStays(steps: seq<Step>, more: seq<Step>, i: nat)
    requires i < |Exec(steps).log| && WasDisplaced(Exec(steps).log, i)
    ensures var log := Exec(steps + more).log;
            i < |log| && log[i] == Exec(steps).log[i] && WasDisplaced(log, i)
  {
    hide Apply;
    hide WasDisplaced;
    var all := steps + more;
    if more == [] {
      assert all == steps;
    } else {
      var fewer := more[..|more| - 1];
      assert all[..|all| - 1] == steps + fewer;
      DisplacedStays(steps, fewer, i);
      ApplyGrowsLog(Exec(steps + fewer), all[|all| - 1], i);
    }
  }

  /** A displaced token never comes back: its session key stays absent in every later run. */
  lemma DisplacedForGood(steps: seq<Step>, more: seq<Step>, i: nat)
    requires Sound(steps + more)
    requires i < |Exec(steps).log| && WasDisplaced(Exec(steps).log, i)
    ensures i < |Exec(steps + more).log| && Exec(steps + more).log[i] == Exec(steps).log[i]
    ensures SessionKey(Exec(steps).log[i].token) !in Exec(steps + more).db.keys
    ensures WasDisplaced(Exec(steps + more).log, i)
  {
    hide Exec;
    hide WasDisplaced;
    RunsAreFaithful(steps + more);
    DisplacedStays(steps, more, i);
  }

  /** The promise of SessionBijection, of one database. */
  ghost predicate Bijective(db: Db) {
    forall user: nat, token: string ::
      db.Get(UserKey(user)) == Some(token) <==>
      db.Live(SessionKey(token)) && OwnedBy(db.keys[SessionKey(token)].value, user)
  }

  lemma FaithfulIsBijective(w: World)
    requires Faithful(w)
    ensures Bijective(w.db)
  {
    hide Faithful;
    forall user: nat, token: string
      ensures w.db.Get(UserKey(user)) == Some(token) <==>
              w.db.Live(SessionKey(token)) && OwnedBy(w.db.keys[SessionKey(token)].value, user)
    {
      BijectionOf(w, user, token);
    }
  }

  /** Without a time to live the script still deletes a live session, and then stops. */
  lemma ScriptStops(db: Db, user: nat, name: string, token: string, ttl: int)
    requires ttl < 1 && db.Get(UserKey(user)) != Some(token)
    ensures LoginScript(db, user, name, token, ttl).reply.None?
    ensures LoginScript(db, user, name, token, ttl).db ==
            match db.Get(UserKey(user)) case None => db case Some(t) => db.Del(SessionKey(t))
  {
    hide UserKey;
    hide SessionKey;
  }

  /**
    The bijection survives a script exactly when the time to live is at least one second or the
    user has no live session: otherwise the old session key is deleted before SETEX fails.
   */
  lemma ShortLivedSessions(w: World, user: nat, name: string, token: string, ttl: int)
    requires Faithful(w) && FreshToken(w.log, token)
    ensures Bijective(Issue(w, user, name, token, ttl).db) <==> ttl >= 1 || !w.db.Live(UserKey(user))
  {
    var next := Issue(w, user, name, token, ttl);
    if ttl >= 1 {
      IssueKeeps(w, user, name, token, ttl);
      FaithfulIsBijective(next);
    } else {
      hide LoginScript;
      UserKeyAnswers(w, user);
      FaithfulIsBijective(w);
      hide LastOf;
      hide Faithful;
      ScriptStops(w.db, user, name, token, ttl);
      if w.db.Live(UserKey(user)) {
        OldKeyOutlivesSession(w.db, user);
      }
    }
  }

  /** A user key left without its session key breaks the bijection. */
  lemma OldKeyOutlivesSession(db: Db, user: nat)
    requires db.Live(UserKey(user))
    ensures !Bijective(db.Del(SessionKey(db.keys[UserKey(user)].value)))
  {
    var t := db.keys[UserKey(user)].value;
    KeysApart(user, user, t, t);
    hide UserKey;
    hide SessionKey;
    assert db.Del(SessionKey(t)).Get(UserKey(user)) == Some(t);
  }
}
