/** What the order of the keys in the two etcd reads decides: ties between routes, and connections of types. */
module KeyOrder {
  import opened Wrappers
  import opened RouteBuild

  // ----- distinct suffixes -----

  /** No two records share a trimmed suffix. */
  ghost predicate DistinctSuffixes<T>(kvs: seq<Kv<T>>, prefix: string) {
    forall a, b | a in kvs && b in kvs && KeySuffix(a.key, prefix) == KeySuffix(b.key, prefix) != "" :: a == b
  }

  ghost predicate SameRecords<T>(a: seq<Kv<T>>, b: seq<Kv<T>>) {
    (forall kv | kv in a :: kv in b) && (forall kv | kv in b :: kv in a)
  }

  lemma SameTypeConns(kvs: seq<Kv<TypeSpec>>, other: seq<Kv<TypeSpec>>, prefix: string, dial: map<string, nat>)
    requires SameRecords(kvs, other) && DistinctSuffixes(kvs, prefix)
    ensures TypeConns(kvs, prefix, dial) == TypeConns(other, prefix, dial)
  {
    var a, b := TypeConns(kvs, prefix, dial), TypeConns(other, prefix, dial);
    forall tk ensures (tk in a <==> tk in b) && (tk in a ==> a[tk] == b[tk]) {
      TypeConnsMeaning(kvs, prefix, dial, tk);
      TypeConnsMeaning(other, prefix, dial, tk);
      if tk in a {
        var i :| 0 <= i < |kvs| && Dialled(kvs[i], prefix, dial) && kvs[i].value.value.typeKey == tk &&
          a[tk] == dial[kvs[i].key];
        var j :| 0 <= j < |other| && Dialled(other[j], prefix, dial) && other[j].value.value.typeKey == tk &&
          b[tk] == dial[other[j].key];
        assert kvs[i] in kvs && other[j] in kvs;
      }
    }
  }

  lemma SameWinners(kvs: seq<Kv<RouteSpec>>, other: seq<Kv<RouteSpec>>, prefix: string, types: set<string>)
    requires SameRecords(kvs, other) && DistinctSuffixes(kvs, prefix)
    ensures Winners(kvs, prefix, types) == Winners(other, prefix, types)
  {
    var a, b := Winners(kvs, prefix, types), Winners(other, prefix, types);
    forall m ensures (m in a <==> m in b) && (m in a ==> a[m] == b[m]) {
      WinnerExists(kvs, prefix, types, m);
      WinnerExists(other, prefix, types, m);
      if m in a { SameWonBy(m, a[m], kvs, other, prefix, types); }
      if m in b { SameWonBy(m, b[m], other, kvs, prefix, types); }
      if m in a {
        WinnerIsGreatest(kvs, prefix, types, m, b[m]);
        WinnerIsGreatest(other, prefix, types, m, a[m]);
        GreaterTotal(a[m].routeId, b[m].routeId);
        var i :| 0 <= i < |kvs| && Usable(kvs[i], prefix, types) && kvs[i].value.value == a[m];
        var j :| 0 <= j < |kvs| && Usable(kvs[j], prefix, types) && kvs[j].value.value == b[m];
        assert kvs[i] in kvs && kvs[j] in kvs;
      }
    }
  }

  lemma SameWonBy(m: string, spec: RouteSpec,
                  kvs: seq<Kv<RouteSpec>>, other: seq<Kv<RouteSpec>>, prefix: string, types: set<string>)
    requires SameRecords(kvs, other) && WonBy(m, spec, kvs, prefix, types)
    ensures WonBy(m, spec, other, prefix, types)
  {
    var i :| 0 <= i < |kvs| && Usable(kvs[i], prefix, types) && kvs[i].value.value == spec && spec.wsMethod == m;
    assert kvs[i] in other;
    var j :| 0 <= j < |other| && other[j] == kvs[i];
  }

  /**
    With distinct trimmed suffixes the built table, its connections and its revision do not depend on the
    order of the keys.
   */
  lemma BuildIgnoresKeyOrder(
    types: Range<TypeSpec>, routes: Range<RouteSpec>, types2: Range<TypeSpec>, routes2: Range<RouteSpec>,
    typesPrefix: string, routesPrefix: string, dial: map<string, nat>)
    requires types.revision == types2.revision && routes.revision == routes2.revision
    requires SameRecords(types.kvs, types2.kvs) && SameRecords(routes.kvs, routes2.kvs)
    requires DistinctSuffixes(types.kvs, typesPrefix) && DistinctSuffixes(routes.kvs, routesPrefix)
    ensures BuildFrom(types, routes, typesPrefix, routesPrefix, dial) ==
            BuildFrom(types2, routes2, typesPrefix, routesPrefix, dial)
  {
    assert types.kvs == [] <==> types2.kvs == [] by {
      assert types.kvs != [] ==> types.kvs[0] in types2.kvs;
      assert types2.kvs != [] ==> types2.kvs[0] in types.kvs;
    }
    assert routes.kvs == [] <==> routes2.kvs == [] by {
      assert routes.kvs != [] ==> routes.kvs[0] in routes2.kvs;
      assert routes2.kvs != [] ==> routes2.kvs[0] in routes.kvs;
    }
    SameTypeConns(types.kvs, types2.kvs, typesPrefix, dial);
    SameWinners(routes.kvs, routes2.kvs, routesPrefix, TypeConns(types.kvs, typesPrefix, dial).Keys);
  }

  // ----- when key order matters to the winners -----

  /** A usable record whose route id no usable record of its method exceeds. */
  ghost predicate Tops(kv: Kv<RouteSpec>, kvs: seq<Kv<RouteSpec>>, prefix: string, types: set<string>) {
    && kv in kvs && Usable(kv, prefix, types)
    && forall other | other in kvs && Usable(other, prefix, types)
                      && other.value.value.wsMethod == kv.value.value.wsMethod ::
         !Greater(other.value.value.routeId, kv.value.value.routeId)
  }

  /** The top records of a method all say the same. */
  ghost predicate TopsAgree(kvs: seq<Kv<RouteSpec>>, prefix: string, types: set<string>) {
    forall a, b | Tops(a, kvs, prefix, types) && Tops(b, kvs, prefix, types)
                  && a.value.value.wsMethod == b.value.value.wsMethod ::
      a.value == b.value
  }

  ghost predicate KeyOrderFree(kvs: seq<Kv<RouteSpec>>, prefix: string, types: set<string>) {
    forall other | multiset(other) == multiset(kvs) :: Winners(other, prefix, types) == Winners(kvs, prefix, types)
  }

  lemma SameMembers<T>(a: seq<Kv<T>>, b: seq<Kv<T>>)
    requires multiset(a) == multiset(b)
    ensures SameRecords(a, b)
  {
    assert forall kv :: kv in a <==> kv in multiset(a);
    assert forall kv :: kv in b <==> kv in multiset(b);
  }

  /** The winner of a method is one of its top records. */
  lemma WinnerTops(kvs: seq<Kv<RouteSpec>>, prefix: string, types: set<string>, m: string) returns (kv: Kv<RouteSpec>)
    requires m in Winners(kvs, prefix, types)
    ensures Tops(kv, kvs, prefix, types) && kv.value.value == Winners(kvs, prefix, types)[m] &&
            kv.value.value.wsMethod == m
  {
    WinnerExists(kvs, prefix, types, m);
    var spec := Winners(kvs, prefix, types)[m];
    var j :| 0 <= j < |kvs| && Usable(kvs[j], prefix, types) && kvs[j].value.value == spec && spec.wsMethod == m;
    hide Winners;
    kv := kvs[j];
    forall other | other in kvs && Usable(other, prefix, types) && other.value.value.wsMethod == m
      ensures !Greater(other.value.value.routeId, spec.routeId)
    {
      var k :| 0 <= k < |kvs| && kvs[k] == other;
      assert WonBy(m, other.value.value, kvs, prefix, types);
      WinnerIsGreatest(kvs, prefix, types, m, other.value.value);
    }
  }

  /** Listed first, a top record wins. */
  lemma {:induction false} FirstTopWins(kvs: seq<Kv<RouteSpec>>, prefix: string, types: set<string>)
    requires kvs != [] && Tops(kvs[0], kvs, prefix, types)
    ensures var m := kvs[0].value.value.wsMethod;
            m in Winners(kvs, prefix, types) && Winners(kvs, prefix, types)[m] == kvs[0].value.value
  {
    if |kvs| > 1 {
      var before := kvs[..|kvs| - 1];
      assert forall kv | kv in before :: kv in kvs;
      FirstTopWins(before, prefix, types);
      assert kvs[|kvs| - 1] in kvs;
    } else {
      assert kvs[..0] == [];
    }
  }

  lemma TopMovedToFront(kvs: seq<Kv<RouteSpec>>, prefix: string, types: set<string>, kv: Kv<RouteSpec>)
    requires Tops(kv, kvs, prefix, types) && KeyOrderFree(kvs, prefix, types)
    ensures var m := kv.value.value.wsMethod;
            m in Winners(kvs, prefix, types) && Winners(kvs, prefix, types)[m] == kv.value.value
  {
    hide Winners;
    hide Usable;
    var j :| 0 <= j < |kvs| && kvs[j] == kv;
    var front := [kv] + kvs[..j] + kvs[j + 1..];
    assert kvs == kvs[..j] + [kv] + kvs[j + 1..];
    assert multiset(front) == multiset(kvs);
    SameMembers(front, kvs);
    FirstTopWins(front, prefix, types);
  }

  /**
    The winners depend on the order of the keys exactly when two top records of one method, which then
    have one route id, say different things: the first listed one wins.
   */
  lemma KeyOrderDecidesTies(kvs: seq<Kv<RouteSpec>>, prefix: string, types: set<string>)
    ensures KeyOrderFree(kvs, prefix, types) <==> TopsAgree(kvs, prefix, types)
  {
    hide Winners;
    if KeyOrderFree(kvs, prefix, types) {
      forall a, b | Tops(a, kvs, prefix, types) && Tops(b, kvs, prefix, types)
                    && a.value.value.wsMethod == b.value.value.wsMethod
        ensures a.value == b.value
      {
        TopMovedToFront(kvs, prefix, types, a);
        TopMovedToFront(kvs, prefix, types, b);
      }
    }
    if TopsAgree(kvs, prefix, types) {
      forall other | multiset(other) == multiset(kvs)
        ensures Winners(other, prefix, types) == Winners(kvs, prefix, types)
      {
        SameMembers(other, kvs);
        hide KeyOrderFree;
        forall m {
          TopsWinAlike(other, kvs, prefix, types, m);
        }
      }
    }
  }

  lemma TopsWinAlike(a: seq<Kv<RouteSpec>>, b: seq<Kv<RouteSpec>>, prefix: string, types: set<string>, m: string)
    requires SameRecords(a, b) && TopsAgree(b, prefix, types)
    ensures m in Winners(a, prefix, types) <==> m in Winners(b, prefix, types)
    ensures m in Winners(a, prefix, types) ==> Winners(a, prefix, types)[m] == Winners(b, prefix, types)[m]
  {
    WinnerExists(a, prefix, types, m);
    WinnerExists(b, prefix, types, m);
    hide Winners;
    if m in Winners(a, prefix, types) { SameWonBy(m, Winners(a, prefix, types)[m], a, b, prefix, types); }
    if m in Winners(b, prefix, types) { SameWonBy(m, Winners(b, prefix, types)[m], b, a, prefix, types); }
    if m in Winners(a, prefix, types) {
      var x := WinnerTops(a, prefix, types, m);
      var y := WinnerTops(b, prefix, types, m);
      assert Tops(x, b, prefix, types);
    }
  }

  // ----- when key order matters to the connections -----

  /** Dialled records of one type key have one connection. */
  ghost predicate DialsAgree(kvs: seq<Kv<TypeSpec>>, prefix: string, dial: map<string, nat>) {
    forall a, b | a in kvs && b in kvs && Dialled(a, prefix, dial) && Dialled(b, prefix, dial)
                  && a.value.value.typeKey == b.value.value.typeKey :: dial[a.key] == dial[b.key]
  }

  ghost predicate TypeOrderFree(kvs: seq<Kv<TypeSpec>>, prefix: string, dial: map<string, nat>) {
    forall other | multiset(other) == multiset(kvs) :: TypeConns(other, prefix, dial) == TypeConns(kvs, prefix, dial)
  }

  lemma WithoutOne<T>(kvs: seq<Kv<T>>, kv: Kv<T>) returns (others: seq<Kv<T>>)
    requires kv in kvs
    ensures multiset(others + [kv]) == multiset(kvs)
  {
    var j :| 0 <= j < |kvs| && kvs[j] == kv;
    others := kvs[..j] + kvs[j + 1..];
    assert kvs == kvs[..j] + [kv] + kvs[j + 1..];
  }

  lemma LastIsKept(others: seq<Kv<TypeSpec>>, prefix: string, dial: map<string, nat>, kv: Kv<TypeSpec>)
    requires Dialled(kv, prefix, dial)
    ensures var conns := TypeConns(others + [kv], prefix, dial);
            kv.value.value.typeKey in conns && conns[kv.value.value.typeKey] == dial[kv.key]
  {
    hide KeySuffix;
    assert (others + [kv])[..|others|] == others;
  }

  /** Listed last, a dialled record keeps its connection. */
  lemma DialledMovedToBack(kvs: seq<Kv<TypeSpec>>, prefix: string, dial: map<string, nat>, kv: Kv<TypeSpec>)
    requires kv in kvs && Dialled(kv, prefix, dial) && TypeOrderFree(kvs, prefix, dial)
    ensures var tk := kv.value.value.typeKey;
            tk in TypeConns(kvs, prefix, dial) && TypeConns(kvs, prefix, dial)[tk] == dial[kv.key]
  {
    hide TypeConns;
    hide Dialled;
    var others := WithoutOne(kvs, kv);
    LastIsKept(others, prefix, dial, kv);
  }

  /** Two lists of the same records keep the same connection for each type if their dials agree. */
  lemma AgreedConns(kvs: seq<Kv<TypeSpec>>,
                    other: seq<Kv<TypeSpec>>, prefix: string, dial: map<string, nat>, tk: string)
    requires SameRecords(other, kvs) && DialsAgree(kvs, prefix, dial)
    ensures var a, b := TypeConns(kvs, prefix, dial), TypeConns(other, prefix, dial);
            (tk in a <==> tk in b) && (tk in a ==> a[tk] == b[tk])
  {
    TypeConnsMeaning(kvs, prefix, dial, tk);
    TypeConnsMeaning(other, prefix, dial, tk);
    TypeConnsLast(kvs, prefix, dial, tk);
    TypeConnsLast(other, prefix, dial, tk);
    hide TypeConns;
    var x, y := LastDialled(kvs, prefix, dial, tk), LastDialled(other, prefix, dial, tk);
    if x.Some? && y.Some? {
      assert kvs[x.value] in kvs && other[y.value] in other;
    }
  }

  /**
    The connections kept for the types depend on the order of the keys exactly when two dialled records of
    one type key, whose keys then differ only in slashes, have different connections: the last one wins.
   */
  lemma KeyOrderDecidesConnections(kvs: seq<Kv<TypeSpec>>, prefix: string, dial: map<string, nat>)
    ensures TypeOrderFree(kvs, prefix, dial) <==> DialsAgree(kvs, prefix, dial)
  {
    hide TypeConns;
    if TypeOrderFree(kvs, prefix, dial) {
      forall a, b | a in kvs && b in kvs && Dialled(a, prefix, dial) && Dialled(b, prefix, dial)
                    && a.value.value.typeKey == b.value.value.typeKey
        ensures dial[a.key] == dial[b.key]
      {
        DialledMovedToBack(kvs, prefix, dial, a);
        DialledMovedToBack(kvs, prefix, dial, b);
      }
    }
    if DialsAgree(kvs, prefix, dial) {
      forall other | multiset(other) == multiset(kvs)
        ensures TypeConns(other, prefix, dial) == TypeConns(kvs, prefix, dial)
      {
        SameMembers(other, kvs);
        forall tk {
          AgreedConns(kvs, other, prefix, dial, tk);
        }
      }
    }
  }
}
