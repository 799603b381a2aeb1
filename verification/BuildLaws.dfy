/**
  What a build comes to, said of the two reads alone: which records count, when a build fails and for
  what, which connections it keeps, and the revision it is good for.
 */
module BuildLaws {
  import opened Wrappers
  import opened RouteBuild

  // ----- which records count -----

  /** The key is the prefix and the name, with any number of slashes before and after the name. */
  ghost predicate Names(key: string, prefix: string, name: string) {
    && name != "" && name[0] != '/' && name[|name| - 1] != '/'
    && exists a: string, b: string :: (forall c | c in a + b :: c == '/') && key == prefix + a + name + b
  }

  lemma SuffixNames(key: string, prefix: string, name: string)
    requires name != ""
    ensures KeySuffix(key, prefix) == name <==> Names(key, prefix, name)
  {
    SuffixMeaning(key, prefix, name);
    hide KeySuffix;
    if KeySuffix(key, prefix) == name {
      var a, b :| Slashes(a) && Slashes(b) && key == prefix + a + name + b;
      assert forall c | c in a + b :: c in a || c in b;
    }
    if Names(key, prefix, name) {
      var a: string, b: string :| (forall c | c in a + b :: c == '/') && key == prefix + a + name + b;
      assert forall i | 0 <= i < |a| :: a[i] in a + b;
      assert forall i | 0 <= i < |b| :: b[i] in a + b;
      assert Slashes(a) && Slashes(b);
    }
  }

  /**
    A type record is dialled when it is a version 1 stateless service with a target and gateway ingress
    under its own key.
   */
  lemma TypeCounts(kv: Kv<TypeSpec>, prefix: string, dial: map<string, nat>)
    ensures Dialled(kv, prefix, dial) <==>
            && kv.value.Some? && kv.key in dial
            && var spec := kv.value.value;
               && Names(kv.key, prefix, spec.typeKey)
               && spec.schemaVersion == 1 && spec.mode.StatelessLb? && spec.target != "" && spec.useGatewayIngress
  {
    if kv.value.Some? && kv.value.value.typeKey != "" {
      SuffixNames(kv.key, prefix, kv.value.value.typeKey);
    }
    hide KeySuffix;
  }

  /**
    A route record is usable when it is a version 1 route under its own key with method, ingress route and a
    dialled type.
   */
  lemma RouteCounts(kv: Kv<RouteSpec>, prefix: string, types: set<string>)
    ensures Usable(kv, prefix, types) <==>
            && kv.value.Some?
            && var spec := kv.value.value;
               && Names(kv.key, prefix, spec.routeId)
               && spec.schemaVersion == 1 && spec.wsMethod != "" && spec.ingressRoute != ""
               && spec.serviceType != "" && spec.serviceType in types
  {
    if kv.value.Some? && kv.value.value.routeId != "" {
      SuffixNames(kv.key, prefix, kv.value.value.routeId);
    }
    hide KeySuffix;
  }

  /**
    Text `a` is greater than `b` when `b` is a proper prefix of it or they first differ at a greater
    character of `a`.
   */
  ghost predicate Exceeds(a: string, b: string) {
    exists n: nat :: n <= |b| && n < |a| && a[..n] == b[..n] && (n == |b| || a[n] > b[n])
  }

  lemma {:induction false} GreaterIsLexicographic(a: string, b: string)
    ensures Greater(a, b) <==> Exceeds(a, b)
  {
    if a == "" {
    } else if b == "" {
      assert a[..0] == b[..0];
    } else if a[0] != b[0] {
      assert a[..0] == b[..0];
      FirstDecides(a, b);
    } else {
      GreaterIsLexicographic(a[1..], b[1..]);
      RestDecides(a, b);
    }
  }

  lemma FirstDecides(a: string, b: string)
    requires a != "" && b != "" && a[0] != b[0]
    ensures Exceeds(a, b) <==> a[0] > b[0]
  {
    assert a[..0] == b[..0];
    forall n: nat { SameFirst(a, b, n); }
  }

  lemma SameFirst(a: string, b: string, n: nat)
    ensures 0 < n <= |b| && n < |a| && a[..n] == b[..n] ==> a[0] == b[0]
  {
    if 0 < n <= |b| && n < |a| && a[..n] == b[..n] {
      assert a[0] == a[..n][0] && b[0] == b[..n][0];
    }
  }

  lemma RestDecides(a: string, b: string)
    requires a != "" && b != "" && a[0] == b[0]
    ensures Exceeds(a, b) <==> Exceeds(a[1..], b[1..])
  {
    if Exceeds(a, b) {
      var n: nat :| n <= |b| && n < |a| && a[..n] == b[..n] && (n == |b| || a[n] > b[n]);
      assert n > 0;
      assert a[1..][..n - 1] == a[..n][1..] && b[1..][..n - 1] == b[..n][1..];
    }
    if Exceeds(a[1..], b[1..]) {
      var n: nat :| n <= |b[1..]| && n < |a[1..]| && a[1..][..n] == b[1..][..n]
                    && (n == |b[1..]| || a[1..][n] > b[1..][n]);
      assert a[..n + 1] == [a[0]] + a[1..][..n] && b[..n + 1] == [b[0]] + b[1..][..n];
    }
  }

  // ----- failure and success -----

  ghost predicate SomeDials(kvs: seq<Kv<TypeSpec>>, prefix: string, dial: map<string, nat>) {
    exists kv :: kv in kvs && Dialled(kv, prefix, dial)
  }

  lemma ConnsExist(kvs: seq<Kv<TypeSpec>>, prefix: string, dial: map<string, nat>)
    ensures TypeConns(kvs, prefix, dial) != map[] <==> SomeDials(kvs, prefix, dial)
  {
    var conns := TypeConns(kvs, prefix, dial);
    hide TypeConns;
    hide Dialled;
    if conns != map[] {
      var tk :| tk in conns;
      TypeConnsMeaning(kvs, prefix, dial, tk);
    }
    if SomeDials(kvs, prefix, dial) {
      var kv :| kv in kvs && Dialled(kv, prefix, dial);
      DialledHasKey(kv, prefix, dial);
      TypeConnsMeaning(kvs, prefix, dial, kv.value.value.typeKey);
    }
  }

  lemma DialledHasKey(kv: Kv<TypeSpec>, prefix: string, dial: map<string, nat>)
    requires Dialled(kv, prefix, dial)
    ensures kv.value.Some?
  {}

  /** Each error comes exactly in its case, the first read's before the second's, and otherwise the build succeeds. */
  lemma BuildFailsExactly(
    types: Option<Range<TypeSpec>>, routes: Option<Range<RouteSpec>>, typesPrefix: string, routesPrefix: string,
    dial: map<string, nat>)
    ensures var built := BuildOutcome(types, routes, typesPrefix, routesPrefix, dial);
            && (built == Err(TypesUnread) <==> types.None?)
            && (built == Err(EmptyServiceTypes) <==> types.Some? && types.value.kvs == [])
            && (built == Err(RoutesUnread) <==> types.Some? && types.value.kvs != [] && routes.None?)
            && (built == Err(EmptyGatewayRoutes) <==>
                  types.Some? && types.value.kvs != [] && routes.Some? && routes.value.kvs == [])
            && (built == Err(NoValidServiceTypes) <==>
                  && types.Some? && types.value.kvs != [] && routes.Some? && routes.value.kvs != []
                  && !SomeDials(types.value.kvs, typesPrefix, dial))
            && (built.Ok? <==>
                  && types.Some? && types.value.kvs != [] && routes.Some? && routes.value.kvs != []
                  && SomeDials(types.value.kvs, typesPrefix, dial))
  {
    if types.Some? { ConnsExist(types.value.kvs, typesPrefix, dial); }
    hide TypeConns;
    hide Winners;
    hide SomeDials;
  }

  /**
    A build keeps the last connection dialled for each type, and is good for what follows the later of its
    two reads.
   */
  lemma BuildKeeps(
    types: Range<TypeSpec>, routes: Range<RouteSpec>, typesPrefix: string, routesPrefix: string, dial: map<string, nat>)
    requires BuildFrom(types, routes, typesPrefix, routesPrefix, dial).Ok?
    ensures var b := BuildFrom(types, routes, typesPrefix, routesPrefix, dial).value;
            && b.nextWatchRev > types.revision && b.nextWatchRev > routes.revision
            && (b.nextWatchRev == types.revision + 1 || b.nextWatchRev == routes.revision + 1)
            && forall conn :: conn in b.conns <==>
                              exists tk :: DialledLast(tk, conn, types.kvs, typesPrefix, dial)
  {
    hide Winners;
    var conns := TypeConns(types.kvs, typesPrefix, dial);
    forall conn ensures conn in conns.Values <==> exists tk :: DialledLast(tk, conn, types.kvs, typesPrefix, dial) {
      if conn in conns.Values {
        var tk :| tk in conns && conns[tk] == conn;
        TypeConnsMeaning(types.kvs, typesPrefix, dial, tk);
      }
      if tk :| DialledLast(tk, conn, types.kvs, typesPrefix, dial) {
        LastIsKept(tk, conn, types.kvs, typesPrefix, dial);
      }
    }
  }

  lemma LastIsKept(tk: string, conn: nat, kvs: seq<Kv<TypeSpec>>, prefix: string, dial: map<string, nat>)
    requires DialledLast(tk, conn, kvs, prefix, dial)
    ensures tk in TypeConns(kvs, prefix, dial) && TypeConns(kvs, prefix, dial)[tk] == conn
  {
    TypeConnsLast(kvs, prefix, dial, tk);
    hide TypeConns;
    hide Dialled;
  }
}
