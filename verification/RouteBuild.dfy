/**
  Building the gateway's route table from the service-type and route records read from etcd.
  A record's value is its decoded form, or None when it is not valid JSON. Dialling is an oracle:
  `dial` holds the keys of the type records whose dial succeeded, with the connection opened for each.
 */
module RouteBuild {
  import opened Wrappers

  datatype Mode = StatelessLb | OtherMode

  /** A missing discovery or ingress section reads as an empty target or a false flag. */
  datatype TypeSpec = TypeSpec(schemaVersion: int, typeKey: string, mode: Mode, target: string, useGatewayIngress: bool)

  datatype RouteSpec = RouteSpec(
    schemaVersion: int, routeId: string, wsMethod: string, ingressRoute: string, serviceType: string,
    isPublic: bool, establishesSession: bool)

  datatype Kv<T> = Kv(key: string, value: Option<T>)

  /** The answer to one prefix read: the records, and the store revision it was read at. */
  datatype Range<T> = Range(kvs: seq<Kv<T>>, revision: int)

  datatype Binding = Binding(conn: nat, ingressRoute: string, isPublic: bool, establishSession: bool)

  datatype BuildError = TypesUnread | EmptyServiceTypes | RoutesUnread | EmptyGatewayRoutes | NoValidServiceTypes

  datatype Built = Built(table: map<string, Binding>, conns: set<nat>, nextWatchRev: int)

  // ----- key suffixes -----

  function DropLeading(s: string): string {
    if s != "" && s[0] == '/' then DropLeading(s[1..]) else s
  }

  function DropTrailing(s: string): string {
    if s != "" && s[|s| - 1] == '/' then DropTrailing(s[..|s| - 1]) else s
  }

  function KeySuffix(key: string, prefix: string): string {
    if prefix <= key then DropTrailing(DropLeading(key[|prefix|..])) else ""
  }

  method TrimmedSuffix(key: string, prefix: string) returns (s: string)
    ensures s == KeySuffix(key, prefix)
  {
    if |key| < |prefix| || key[..|prefix|] != prefix { return ""; }
    s := key[|prefix|..];
    while |s| > 0 && s[0] == '/'
      invariant DropLeading(s) == DropLeading(key[|prefix|..])
    {
      s := s[1..];
    }
    while |s| > 0 && s[|s| - 1] == '/'
      invariant DropTrailing(s) == KeySuffix(key, prefix)
    {
      s := s[..|s| - 1];
    }
  }

  predicate Slashes(s: string) {
    forall i | 0 <= i < |s| :: s[i] == '/'
  }

  /** A non-empty name is a key's suffix exactly when the key is the prefix and that name with slashes around it. */
  lemma SuffixMeaning(key: string, prefix: string, name: string)
    requires name != ""
    ensures KeySuffix(key, prefix) == name <==>
            name[0] != '/' && name[|name| - 1] != '/'
            && exists a, b :: Slashes(a) && Slashes(b) && key == prefix + a + name + b
  {
    hide DropLeading;
    hide DropTrailing;
    if KeySuffix(key, prefix) == name {
      var rest := key[|prefix|..];
      var a := LeadingSplit(rest);
      var b := TrailingSplit(DropLeading(rest));
      assert key == prefix + a + name + b;
    }
    if name[0] != '/' && name[|name| - 1] != '/' {
      forall a, b | Slashes(a) && Slashes(b) && key == prefix + a + name + b ensures KeySuffix(key, prefix) == name {
        SuffixBetweenSlashes(prefix, a, name, b);
      }
    }
  }

  lemma SuffixBetweenSlashes(prefix: string, a: string, name: string, b: string)
    requires name != "" && name[0] != '/' && name[|name| - 1] != '/' && Slashes(a) && Slashes(b)
    ensures KeySuffix(prefix + a + name + b, prefix) == name
  {
    hide DropLeading;
    hide DropTrailing;
    hide Slashes;
    LeadingGone(a, name + b);
    TrailingGone(name, b);
    var key := prefix + a + name + b;
    assert key[|prefix|..] == a + (name + b);
    assert prefix <= key;
  }

  lemma {:induction false} LeadingSplit(s: string) returns (a: string)
    ensures Slashes(a) && s == a + DropLeading(s)
    ensures DropLeading(s) != "" ==> DropLeading(s)[0] != '/'
  {
    a := "";
    if s != "" && s[0] == '/' {
      var rest := LeadingSplit(s[1..]);
      a := "/" + rest;
    }
  }

  lemma {:induction false} TrailingSplit(s: string) returns (b: string)
    ensures Slashes(b) && s == DropTrailing(s) + b
    ensures DropTrailing(s) != "" ==> DropTrailing(s)[|DropTrailing(s)| - 1] != '/'
  {
    b := "";
    if s != "" && s[|s| - 1] == '/' {
      var rest := TrailingSplit(s[..|s| - 1]);
      b := rest + "/";
    }
  }

  lemma {:induction false} LeadingGone(a: string, s: string)
    requires Slashes(a) && s != "" && s[0] != '/'
    ensures DropLeading(a + s) == s
  {
    if a == "" {
      assert a + s == s;
    } else {
      assert (a + s)[1..] == a[1..] + s;
      LeadingGone(a[1..], s);
    }
  }

  lemma {:induction false} TrailingGone(s: string, b: string)
    requires Slashes(b) && s != "" && s[|s| - 1] != '/'
    ensures DropTrailing(s + b) == s
  {
    if b == "" {
      assert s + b == s;
    } else {
      assert (s + b)[..|s + b| - 1] == s + b[..|b| - 1];
      TrailingGone(s, b[..|b| - 1]);
    }
  }

  // ----- which records count -----

  predicate ValidType(spec: TypeSpec, suffix: string) {
    && spec.schemaVersion == 1
    && spec.typeKey != "" && spec.typeKey == suffix
    && spec.mode == StatelessLb && spec.target != "" && spec.useGatewayIngress
  }

  predicate ValidRoute(spec: RouteSpec, suffix: string) {
    && spec.schemaVersion == 1
    && spec.routeId != "" && spec.routeId == suffix
    && spec.wsMethod != "" && spec.ingressRoute != "" && spec.serviceType != ""
  }

  predicate Dialled(kv: Kv<TypeSpec>, prefix: string, dial: map<string, nat>) {
    && KeySuffix(kv.key, prefix) != "" && kv.value.Some?
    && ValidType(kv.value.value, KeySuffix(kv.key, prefix)) && kv.key in dial
  }

  predicate Usable(kv: Kv<RouteSpec>, prefix: string, types: set<string>) {
    && KeySuffix(kv.key, prefix) != "" && kv.value.Some?
    && ValidRoute(kv.value.value, KeySuffix(kv.key, prefix)) && kv.value.value.serviceType in types
  }

  /** Byte-wise order of Go strings, which for UTF-8 text is the order of the code points. */
  predicate Greater(a: string, b: string) {
    if a == "" then false
    else if b == "" then true
    else if a[0] != b[0] then a[0] > b[0]
    else Greater(a[1..], b[1..])
  }

  lemma {:induction false} GreaterTotal(a: string, b: string)
    ensures a == b || Greater(a, b) || Greater(b, a)
    ensures !(Greater(a, b) && Greater(b, a)) && !Greater(a, a)
  {
    if a != "" {
      if b != "" {
        GreaterTotal(a[1..], b[1..]);
        assert a == [a[0]] + a[1..] && b == [b[0]] + b[1..];
      } else {
        GreaterTotal(a[1..], "");
      }
    }
  }

  lemma {:induction false} GreaterTransitive(a: string, b: string, c: string)
    requires Greater(a, b) && !Greater(c, b)
    ensures Greater(a, c)
  {
    GreaterTotal(b, c);
    if b != "" && c != "" && a[0] == b[0] == c[0] {
      GreaterTransitive(a[1..], b[1..], c[1..]);
    }
  }

  // ----- the two scans, record by record -----

  function TypeConns(kvs: seq<Kv<TypeSpec>>, prefix: string, dial: map<string, nat>): map<string, nat> {
    if kvs == [] then map[] else
      var before := TypeConns(kvs[..|kvs| - 1], prefix, dial);
      var kv := kvs[|kvs| - 1];
      if Dialled(kv, prefix, dial) then before[kv.value.value.typeKey := dial[kv.key]] else before
  }

  function Winners(kvs: seq<Kv<RouteSpec>>, prefix: string, types: set<string>): map<string, RouteSpec> {
    if kvs == [] then map[] else
      var before := Winners(kvs[..|kvs| - 1], prefix, types);
      var kv := kvs[|kvs| - 1];
      if Usable(kv, prefix, types) then Challenge(before, kv.value.value) else before
  }

  /** A route takes its method's place if the place is free or its route id is greater. */
  function Challenge(winners: map<string, RouteSpec>, spec: RouteSpec): map<string, RouteSpec> {
    if spec.wsMethod !in winners || Greater(spec.routeId, winners[spec.wsMethod].routeId)
    then winners[spec.wsMethod := spec] else winners
  }

  lemma ChallengeRaises(winners: map<string, RouteSpec>, spec: RouteSpec, m: string)
    ensures var next := Challenge(winners, spec);
            && (m in winners ==> m in next && (next[m] == winners[m] || Greater(next[m].routeId, winners[m].routeId)))
            && (spec.wsMethod == m ==> m in next && !Greater(spec.routeId, next[m].routeId))
  {
    GreaterTotal(spec.routeId, spec.routeId);
  }

  lemma StaysBelow(a: string, was: string, top: string)
    requires !Greater(a, was) && (top == was || Greater(top, was))
    ensures !Greater(a, top)
  {
    if top != was && Greater(a, top) {
      GreaterTotal(top, was);
      GreaterTransitive(a, top, was);
    }
  }

  function BindingOf(spec: RouteSpec, conns: map<string, nat>): Binding
    requires spec.serviceType in conns
  {
    Binding(conns[spec.serviceType], spec.ingressRoute, spec.isPublic, spec.establishesSession)
  }

  ghost predicate WonBy(m: string, spec: RouteSpec, kvs: seq<Kv<RouteSpec>>, prefix: string, types: set<string>) {
    exists j :: 0 <= j < |kvs| && Usable(kvs[j], prefix, types) && kvs[j].value.value == spec && spec.wsMethod == m
  }

  /** One more record adds at most its own claim. */
  lemma WonByStep(m: string, spec: RouteSpec, kvs: seq<Kv<RouteSpec>>, prefix: string, types: set<string>)
    requires kvs != []
    ensures var kv := kvs[|kvs| - 1];
            WonBy(m, spec, kvs, prefix, types) <==>
            WonBy(m, spec, kvs[..|kvs| - 1], prefix, types)
            || (Usable(kv, prefix, types) && kv.value.value == spec && spec.wsMethod == m)
  {
    var before := kvs[..|kvs| - 1];
    if WonBy(m, spec, kvs, prefix, types) {
      var j :| 0 <= j < |kvs| && Usable(kvs[j], prefix, types) && kvs[j].value.value == spec && spec.wsMethod == m;
      assert j < |before| ==> before[j] == kvs[j];
    }
    if WonBy(m, spec, before, prefix, types) {
      var j :| 0 <= j < |before| && Usable(before[j], prefix, types) && before[j].value.value == spec &&
        spec.wsMethod == m;
      assert kvs[j] == before[j];
    }
  }

  /** A method has a winner exactly when some usable route claims it, and the winner is one of those. */
  lemma {:induction false} WinnerExists(kvs: seq<Kv<RouteSpec>>, prefix: string, types: set<string>, m: string)
    ensures m in Winners(kvs, prefix, types) ==> WonBy(m, Winners(kvs, prefix, types)[m], kvs, prefix, types)
    ensures forall spec | WonBy(m, spec, kvs, prefix, types) :: m in Winners(kvs, prefix, types)
  {
    if kvs != [] {
      WinnerExists(kvs[..|kvs| - 1], prefix, types, m);
      forall spec {
        WonByStep(m, spec, kvs, prefix, types);
      }
    }
  }

  /** No usable route of the method has a greater route id than the winner. */
  lemma {:induction false} WinnerIsGreatest(kvs: seq<Kv<RouteSpec>>, prefix: string,
                                            types: set<string>, m: string, spec: RouteSpec)
    requires WonBy(m, spec, kvs, prefix, types)
    ensures m in Winners(kvs, prefix, types) && !Greater(spec.routeId, Winners(kvs, prefix, types)[m].routeId)
  {
    var before, kv := kvs[..|kvs| - 1], kvs[|kvs| - 1];
    WonByStep(m, spec, kvs, prefix, types);
    if Usable(kv, prefix, types) {
      ChallengeRaises(Winners(before, prefix, types), kv.value.value, m);
    }
    if WonBy(m, spec, before, prefix, types) {
      WinnerIsGreatest(before, prefix, types, m, spec);
      StaysBelow(spec.routeId, Winners(before, prefix, types)[m].routeId, Winners(kvs, prefix, types)[m].routeId);
    }
  }

  /** The connection kept for a type is that of the last record that dialled it. */
  ghost predicate DialledLast(tk: string, conn: nat, kvs: seq<Kv<TypeSpec>>, prefix: string, dial: map<string, nat>) {
    exists i ::
      && 0 <= i < |kvs| && Dialled(kvs[i], prefix, dial) && kvs[i].value.value.typeKey == tk && conn == dial[kvs[i].key]
                && forall k | i < k < |kvs| && Dialled(kvs[k], prefix, dial) :: kvs[k].value.value.typeKey != tk
  }

  /** The last record that dialled type `tk`. */
  function LastDialled(kvs: seq<Kv<TypeSpec>>, prefix: string, dial: map<string, nat>, tk: string): (r: Option<nat>)
    ensures r.Some? ==> r.value < |kvs| && Dialled(kvs[r.value], prefix, dial) && kvs[r.value].value.value.typeKey == tk
                        && forall k | r.value < k < |kvs| && Dialled(kvs[k], prefix, dial) ::
                           kvs[k].value.value.typeKey != tk
    ensures r.None? ==> forall k | 0 <= k < |kvs| && Dialled(kvs[k], prefix, dial) :: kvs[k].value.value.typeKey != tk
  {
    if kvs == [] then None
    else if Dialled(kvs[|kvs| - 1], prefix, dial) && kvs[|kvs| - 1].value.value.typeKey == tk then Some(|kvs| - 1)
    else
      var r := LastDialled(kvs[..|kvs| - 1], prefix, dial, tk);
      assert forall k | 0 <= k < |kvs| - 1 :: kvs[k] == kvs[..|kvs| - 1][k];
      r
  }

  lemma {:induction false} TypeConnsLast(kvs: seq<Kv<TypeSpec>>, prefix: string, dial: map<string, nat>, tk: string)
    ensures var last := LastDialled(kvs, prefix, dial, tk);
            && (tk in TypeConns(kvs, prefix, dial) <==> last.Some?)
            && (last.Some? ==> TypeConns(kvs, prefix, dial)[tk] == dial[kvs[last.value].key])
  {
    if kvs != [] {
      TypeConnsLast(kvs[..|kvs| - 1], prefix, dial, tk);
    }
  }

  lemma TypeConnsMeaning(kvs: seq<Kv<TypeSpec>>, prefix: string, dial: map<string, nat>, tk: string)
    ensures var conns := TypeConns(kvs, prefix, dial);
            && (tk in conns <==> exists kv :: kv in kvs && Dialled(kv, prefix, dial) && kv.value.value.typeKey == tk)
            && (tk in conns ==> DialledLast(tk, conns[tk], kvs, prefix, dial))
  {
    TypeConnsLast(kvs, prefix, dial, tk);
    var last := LastDialled(kvs, prefix, dial, tk);
    if last.Some? {
      assert kvs[last.value] in kvs;
    }
  }

  /** What Build returns for the two reads and the dials that succeeded. */
  function BuildFrom(
    types: Range<TypeSpec>, routes: Range<RouteSpec>, typesPrefix: string, routesPrefix: string, dial: map<string, nat>)
    : Result<Built, BuildError>
  {
    if types.kvs == [] then Err(EmptyServiceTypes)
    else if routes.kvs == [] then Err(EmptyGatewayRoutes)
    else
      var conns := TypeConns(types.kvs, typesPrefix, dial);
      if conns == map[] then Err(NoValidServiceTypes)
      else
        var winners := Winners(routes.kvs, routesPrefix, conns.Keys);
        Ok(Built(map m | m in winners && winners[m].serviceType in conns :: BindingOf(winners[m], conns),
                 conns.Values,
                 (if routes.revision > types.revision then routes.revision else types.revision) + 1))
  }

  /** The routes are not read when the types could not be read or there are none. */
  function BuildOutcome(
    types: Option<Range<TypeSpec>>,
    routes: Option<Range<RouteSpec>>, typesPrefix: string, routesPrefix: string, dial: map<string, nat>)
    : Result<Built, BuildError>
  {
    if types.None? then Err(TypesUnread)
    else if types.value.kvs == [] then Err(EmptyServiceTypes)
    else if routes.None? then Err(RoutesUnread)
    else BuildFrom(types.value, routes.value, typesPrefix, routesPrefix, dial)
  }

  /**
    Build: the loops over both reads, either of which may fail, also saying which connections it opened and
    which it closed again.
   */
  method Build(
    typesRead: Option<Range<TypeSpec>>,
    routesRead: Option<Range<RouteSpec>>, typesPrefix: string, routesPrefix: string, dial: map<string, nat>)
    returns (built: Result<Built, BuildError>, dialled: set<nat>, closed: set<nat>)
    requires forall a, b | a in dial && b in dial && a != b :: dial[a] != dial[b]
    requires typesRead.Some? ==>
             forall i, j | 0 <= i < j < |typesRead.value.kvs| ::
             typesRead.value.kvs[i].key != typesRead.value.kvs[j].key
    ensures built == BuildOutcome(typesRead, routesRead, typesPrefix, routesPrefix, dial)
    ensures built.Ok? ==> dialled == DialledConns(typesRead.value.kvs, typesPrefix, dial)
    ensures built.Ok? ==> dialled == closed + built.value.conns && closed !! built.value.conns
    ensures built.Err? ==> dialled == closed == {}
  {
    dialled, closed := {}, {};
    if typesRead.None? { return Err(TypesUnread), dialled, closed; }
    var types := typesRead.value;
    if |types.kvs| == 0 { return Err(EmptyServiceTypes), dialled, closed; }
    if routesRead.None? { return Err(RoutesUnread), dialled, closed; }
    var routes := routesRead.value;
    if |routes.kvs| == 0 { return Err(EmptyGatewayRoutes), dialled, closed; }
    var rev := types.revision;
    if routes.revision > rev {
      rev := routes.revision;
    }
    var typeConns: map<string, nat>;
    typeConns, dialled, closed := DialTypes(types.kvs, typesPrefix, dial);
    if typeConns == map[] {
      return Err(NoValidServiceTypes), dialled, closed;
    }
    var winners := PickWinners(routes.kvs, routesPrefix, typeConns.Keys);
    forall m | m in winners ensures winners[m].serviceType in typeConns && winners[m].wsMethod == m {
      WinnerExists(routes.kvs, routesPrefix, typeConns.Keys, m);
    }
    var bindings: map<string, Binding> := map[];
    var todo := winners.Keys;
    while todo != {}
      invariant todo <= winners.Keys
      invariant bindings == map m | m in winners && m !in todo :: BindingOf(winners[m], typeConns)
    {
      var m :| m in todo;
      todo := todo - {m};
      var spec := winners[m];
      bindings := bindings[spec.wsMethod := BindingOf(spec, typeConns)];
    }
    assert bindings == map m | m in winners && winners[m].serviceType in typeConns :: BindingOf(winners[m], typeConns);
    built := Ok(Built(bindings, typeConns.Values, rev + 1));
  }

  /** Every opened connection is that of one of the first `i` records. */
  ghost predicate OpenedBefore(dialled: set<nat>, kvs: seq<Kv<TypeSpec>>, i: nat, dial: map<string, nat>)
    requires i <= |kvs|
  {
    forall c | c in dialled :: exists k :: 0 <= k < i && kvs[k].key in dial && c == dial[kvs[k].key]
  }

  lemma OpenedStep(dialled: set<nat>, kvs: seq<Kv<TypeSpec>>, i: nat, dial: map<string, nat>)
    requires i < |kvs| && OpenedBefore(dialled, kvs, i, dial)
    ensures OpenedBefore(dialled, kvs, i + 1, dial)
    ensures kvs[i].key in dial ==> OpenedBefore(dialled + {dial[kvs[i].key]}, kvs, i + 1, dial)
  {}

  ghost predicate Apart(m: map<string, nat>) {
    forall a, b | a in m && b in m && a != b :: m[a] != m[b]
  }

  lemma TypeConnsStep(kvs: seq<Kv<TypeSpec>>, i: nat, prefix: string, dial: map<string, nat>)
    requires i < |kvs|
    ensures TypeConns(kvs[..i + 1], prefix, dial) ==
            if Dialled(kvs[i], prefix, dial) then
              TypeConns(kvs[..i], prefix, dial)[kvs[i].value.value.typeKey := dial[kvs[i].key]]
            else TypeConns(kvs[..i], prefix, dial)
  {
    hide Dialled;
    assert kvs[..i + 1][..i] == kvs[..i];
  }

  /** The connections of all records that dial, also of those that are replaced later on. */
  function DialledConns(kvs: seq<Kv<TypeSpec>>, prefix: string, dial: map<string, nat>): set<nat> {
    set kv | kv in kvs && Dialled(kv, prefix, dial) :: dial[kv.key]
  }

  lemma DialledConnsStep(kvs: seq<Kv<TypeSpec>>, i: nat, prefix: string, dial: map<string, nat>)
    requires i < |kvs|
    ensures DialledConns(kvs[..i + 1], prefix, dial) ==
            DialledConns(kvs[..i], prefix, dial) + if Dialled(kvs[i], prefix, dial) then {dial[kvs[i].key]} else {}
  {
    hide Dialled;
    assert kvs[..i + 1] == kvs[..i] + [kvs[i]];
  }

  method DialTypes(kvs: seq<Kv<TypeSpec>>, prefix: string, dial: map<string, nat>)
    returns (typeConns: map<string, nat>, dialled: set<nat>, closed: set<nat>)
    requires forall a, b | a in dial && b in dial && a != b :: dial[a] != dial[b]
    requires forall i, j | 0 <= i < j < |kvs| :: kvs[i].key != kvs[j].key
    ensures typeConns == TypeConns(kvs, prefix, dial)
    ensures dialled == DialledConns(kvs, prefix, dial)
    ensures dialled == closed + typeConns.Values && closed !! typeConns.Values
    ensures typeConns == map[] ==> dialled == closed == {}
  {
    hide KeySuffix;
    hide ValidType;
    hide OpenedBefore;
    hide Apart;
    hide DialledConns;
    typeConns, dialled, closed := map[], {}, {};
    NothingDialledYet(kvs, prefix, dial);
    for i := 0 to |kvs|
      invariant typeConns == TypeConns(kvs[..i], prefix, dial)
      invariant dialled == DialledConns(kvs[..i], prefix, dial)
      invariant dialled == closed + typeConns.Values && closed !! typeConns.Values
      invariant Apart(typeConns) && OpenedBefore(dialled, kvs, i, dial)
      invariant typeConns == map[] ==> dialled == {}
    {
      TypeConnsStep(kvs, i, prefix, dial);
      DialledConnsStep(kvs, i, prefix, dial);
      OpenedStep(dialled, kvs, i, dial);
      var sfx := TrimmedSuffix(kvs[i].key, prefix);
      if sfx == "" || kvs[i].value.None? || !ValidType(kvs[i].value.value, sfx) || kvs[i].key !in dial {
        continue;
      }
      var tk, conn := kvs[i].value.value.typeKey, dial[kvs[i].key];
      NotDialledYet(kvs, i, dial, dialled);
      DialStep(typeConns, dialled, closed, tk, conn);
      dialled := dialled + {conn};
      if tk in typeConns {
        closed := closed + {typeConns[tk]};
      }
      typeConns := typeConns[tk := conn];
    }
    assert kvs[..|kvs|] == kvs;
  }

  lemma NothingDialledYet(kvs: seq<Kv<TypeSpec>>, prefix: string, dial: map<string, nat>)
    ensures Apart(map[]) && OpenedBefore({}, kvs, 0, dial) && DialledConns(kvs[..0], prefix, dial) == {}
  {}

  /** One more connection is open, and the one it replaces is closed. */
  lemma DialStep(conns: map<string, nat>, dialled: set<nat>, closed: set<nat>, tk: string, conn: nat)
    requires dialled == closed + conns.Values && closed !! conns.Values && conn !in dialled && Apart(conns)
    ensures var next := conns[tk := conn];
            var closedNow := if tk in conns then closed + {conns[tk]} else closed;
            dialled + {conn} == closedNow + next.Values && closedNow !! next.Values && Apart(next)
  {
    ReplacedValues(conns, tk, conn);
    assert forall a | a in conns :: conns[a] in conns.Values;
  }

  /** Each record has its own key, and each key its own connection. */
  lemma NotDialledYet(kvs: seq<Kv<TypeSpec>>, i: nat, dial: map<string, nat>, dialled: set<nat>)
    requires forall a, b | a in dial && b in dial && a != b :: dial[a] != dial[b]
    requires forall j, k | 0 <= j < k < |kvs| :: kvs[j].key != kvs[k].key
    requires i < |kvs| && kvs[i].key in dial && OpenedBefore(dialled, kvs, i, dial)
    ensures dial[kvs[i].key] !in dialled
  {}

  /** Replacing one value of an injective map by a new one swaps just these two values. */
  lemma ReplacedValues(m: map<string, nat>, k: string, v: nat)
    requires Apart(m)
    ensures m[k := v].Values == (if k in m then m.Values - {m[k]} else m.Values) + {v}
  {
    var next := m[k := v];
    forall x ensures x in next.Values <==> x in (if k in m then m.Values - {m[k]} else m.Values) + {v} {
      if x in m.Values && (k in m ==> x != m[k]) {
        var a :| a in m && m[a] == x;
        assert next[a] == x;
      }
      assert next[k] == v;
    }
  }

  method PickWinners(kvs: seq<Kv<RouteSpec>>, prefix: string, types: set<string>)
    returns (winners: map<string, RouteSpec>)
    ensures winners == Winners(kvs, prefix, types)
  {
    winners := map[];
    for i := 0 to |kvs|
      invariant winners == Winners(kvs[..i], prefix, types)
    {
      assert kvs[..i + 1][..i] == kvs[..i];
      var sfx := TrimmedSuffix(kvs[i].key, prefix);
      if sfx == "" || kvs[i].value.None? || !ValidRoute(kvs[i].value.value, sfx) ||
        kvs[i].value.value.serviceType !in types {
        continue;
      }
      var spec := kvs[i].value.value;
      if spec.wsMethod !in winners || Greater(spec.routeId, winners[spec.wsMethod].routeId) {
        winners := winners[spec.wsMethod := spec];
      }
    }
    assert kvs[..|kvs|] == kvs;
  }

  // ----- the declarative form -----

  /** `spec` comes from a valid route record and names a type some valid record dialled. */
  ghost predicate Eligible(
    spec: RouteSpec, types: seq<Kv<TypeSpec>>, routes: seq<Kv<RouteSpec>>, typesPrefix: string, routesPrefix: string,
    dial: map<string, nat>)
  {
    && (exists kv :: kv in routes && kv.value == Some(spec)
                     && KeySuffix(kv.key, routesPrefix) != "" && ValidRoute(spec, KeySuffix(kv.key, routesPrefix)))
    && (exists kv :: kv in types && Dialled(kv, typesPrefix, dial) && kv.value.value.typeKey == spec.serviceType)
  }

  lemma EligibleMeans(
    spec: RouteSpec, types: seq<Kv<TypeSpec>>, routes: seq<Kv<RouteSpec>>, typesPrefix: string, routesPrefix: string,
    dial: map<string, nat>)
    ensures Eligible(spec, types, routes, typesPrefix, routesPrefix, dial) <==>
            WonBy(spec.wsMethod, spec, routes, routesPrefix, TypeConns(types, typesPrefix, dial).Keys)
  {
    var keys := TypeConns(types, typesPrefix, dial).Keys;
    TypeConnsMeaning(types, typesPrefix, dial, spec.serviceType);
    if Eligible(spec, types, routes, typesPrefix, routesPrefix, dial) {
      var kv :| kv in routes && kv.value == Some(spec)
        && KeySuffix(kv.key, routesPrefix) != "" && ValidRoute(spec, KeySuffix(kv.key, routesPrefix));
      var j :| 0 <= j < |routes| && routes[j] == kv;
      assert Usable(routes[j], routesPrefix, keys);
    }
  }

  /**
    Build refines its declarative form: a method is bound exactly when some valid route for it names
    a dialled type, and it is bound as such a route whose route id none of the others exceeds, to the
    connection of that route's type.
   */
  lemma BuildBindsExactly(
    types: Range<TypeSpec>,
    routes: Range<RouteSpec>, typesPrefix: string, routesPrefix: string, dial: map<string, nat>, m: string)
    requires BuildFrom(types, routes, typesPrefix, routesPrefix, dial).Ok?
    ensures var table := BuildFrom(types, routes, typesPrefix, routesPrefix, dial).value.table;
            && (m in table <==>
               exists spec: RouteSpec ::
               spec.wsMethod == m && Eligible(spec, types.kvs, routes.kvs, typesPrefix, routesPrefix, dial))
            && (m in table ==> BoundToGreatest(m, table[m], types.kvs, routes.kvs, typesPrefix, routesPrefix, dial))
  {
    var conns := TypeConns(types.kvs, typesPrefix, dial);
    var winners := Winners(routes.kvs, routesPrefix, conns.Keys);
    WinnerExists(routes.kvs, routesPrefix, conns.Keys, m);
    forall spec: RouteSpec {
      EligibleMeans(spec, types.kvs, routes.kvs, typesPrefix, routesPrefix, dial);
    }
    if m in winners {
      var top := winners[m];
      TypeConnsMeaning(types.kvs, typesPrefix, dial, top.serviceType);
      forall spec: RouteSpec | spec.wsMethod == m
                               && Eligible(spec, types.kvs, routes.kvs, typesPrefix, routesPrefix, dial)
        ensures !Greater(spec.routeId, top.routeId)
      {
        WinnerIsGreatest(routes.kvs, routesPrefix, conns.Keys, m, spec);
      }
      assert Eligible(top, types.kvs, routes.kvs, typesPrefix, routesPrefix, dial);
    }
  }

  ghost predicate BoundToGreatest(
    m: string, binding: Binding,
    types: seq<Kv<TypeSpec>>, routes: seq<Kv<RouteSpec>>, typesPrefix: string, routesPrefix: string,
    dial: map<string, nat>)
  {
    exists top: RouteSpec ::
      && top.wsMethod == m && Eligible(top, types, routes, typesPrefix, routesPrefix, dial)
      && binding.ingressRoute == top.ingressRoute && binding.isPublic == top.isPublic
      && binding.establishSession == top.establishesSession
      && DialledLast(top.serviceType, binding.conn, types, typesPrefix, dial)
      && forall spec: RouteSpec | spec.wsMethod == m &&
         Eligible(spec, types, routes, typesPrefix, routesPrefix, dial) ::
           !Greater(spec.routeId, top.routeId)
  }
}
