/**
  Longest-prefix routing of a key to a pool name, and the router that holds a table of rules for
  each kind of store.
 */
module Routing {
  import opened Wrappers

  datatype Rule = Rule(prefix: string, pool: string)

  type Table = seq<Rule>

  // ----- the reference: try the prefixes of the key, longest first -----

  /** The first rule with exactly this prefix. */
  function Lookup(rules: Table, prefix: string): Option<Rule> {
    if rules == [] then None
    else if rules[0].prefix == prefix then Some(rules[0])
    else Lookup(rules[1..], prefix)
  }

  function LongestFirst(rules: Table, key: string, n: nat): Option<Rule>
    requires n <= |key|
  {
    match Lookup(rules, key[..n])
    case Some(rule) => Some(rule)
    case None => if n == 0 then None else LongestFirst(rules, key, n - 1)
  }

  function Resolve(rules: Table, key: string): Option<Rule> {
    LongestFirst(rules, key, |key|)
  }

  /** Rule `i` matches the key, no matching rule is longer, and no earlier one has the same prefix. */
  predicate Wins(rules: Table, key: string, i: nat) {
    && i < |rules|
    && rules[i].prefix <= key
    && (forall j | 0 <= j < |rules| && rules[j].prefix <= key :: |rules[j].prefix| <= |rules[i].prefix|)
    && (forall j | 0 <= j < i :: rules[j].prefix != rules[i].prefix)
  }

  predicate Matches(rules: Table, key: string) {
    exists i :: 0 <= i < |rules| && rules[i].prefix <= key
  }

  lemma {:induction false} LookupMeaning(rules: Table, prefix: string) returns (i: nat)
    ensures Lookup(rules, prefix).None? <==> forall j | 0 <= j < |rules| :: rules[j].prefix != prefix
    ensures Lookup(rules, prefix).Some? ==>
              i < |rules| && Lookup(rules, prefix) == Some(rules[i]) && rules[i].prefix == prefix
              && forall j | 0 <= j < i :: rules[j].prefix != prefix
  {
    i := 0;
    if rules != [] && rules[0].prefix != prefix {
      var k := LookupMeaning(rules[1..], prefix);
      assert forall j | 0 < j < |rules| :: rules[j] == rules[1..][j - 1];
      i := k + 1;
    }
  }

  lemma {:induction false} LongestFirstMeaning(rules: Table, key: string, n: nat) returns (i: nat)
    requires n <= |key|
    ensures var r := LongestFirst(rules, key, n);
            && (r.None? ==> forall j | 0 <= j < |rules| && rules[j].prefix <= key :: |rules[j].prefix| > n)
            && (r.Some? ==>
                  && i < |rules| && r == Some(rules[i]) && rules[i].prefix <= key && |rules[i].prefix| <= n
                  && (forall j | 0 <= j < |rules| && rules[j].prefix <= key && |rules[j].prefix| <= n ::
                     |rules[j].prefix| <= |rules[i].prefix|)
                  && (forall j | 0 <= j < i :: rules[j].prefix != rules[i].prefix))
  {
    i := LookupMeaning(rules, key[..n]);
    hide Lookup;
    if Lookup(rules, key[..n]).None? {
      forall j | 0 <= j < |rules| && rules[j].prefix <= key ensures |rules[j].prefix| != n {
        assert rules[j].prefix == key[..|rules[j].prefix|];
      }
      if n > 0 {
        i := LongestFirstMeaning(rules, key, n - 1);
      }
    }
  }

  /** Longest first finds the winner: the longest match, the first listed of equal ones. */
  lemma ResolveIsWinner(rules: Table, key: string)
    ensures Resolve(rules, key).None? <==> !Matches(rules, key)
    ensures forall i: nat :: Wins(rules, key, i) ==> Resolve(rules, key) == Some(rules[i])
    ensures Resolve(rules, key).Some? ==> exists i: nat :: Wins(rules, key, i)
  {
    var i := LongestFirstMeaning(rules, key, |key|);
    hide LongestFirst;
    if Resolve(rules, key).Some? {
      assert Wins(rules, key, i);
      forall k: nat | Wins(rules, key, k) ensures Resolve(rules, key) == Some(rules[k]) {
        SamePrefix(rules[k].prefix, rules[i].prefix, key);
      }
    }
  }

  lemma SamePrefix(a: string, b: string, key: string)
    requires a <= key && b <= key && |a| == |b|
    ensures a == b
  {
    assert a == key[..|a|] && b == key[..|b|];
  }

  lemma MatchesDiffer(a: string, b: string, key: string)
    requires a != b
    ensures a <= key && b <= key ==> |a| != |b|
  {
    if a <= key && b <= key && |a| == |b| {
      SamePrefix(a, b, key);
    }
  }

  // ----- the scan -----

  /** A matching rule takes over exactly when it is longer than the winner so far. */
  predicate TakesOver(rules: Table, key: string, rule: Rule) {
    rule.prefix <= key && (Resolve(rules, key).None? || |rule.prefix| > |Resolve(rules, key).value.prefix|)
  }

  lemma ResolveAppend(rules: Table, key: string, rule: Rule)
    ensures Resolve(rules + [rule], key) == if TakesOver(rules, key, rule) then Some(rule) else Resolve(rules, key)
  {
    var all := rules + [rule];
    ResolveIsWinner(rules, key);
    ResolveIsWinner(all, key);
    hide Resolve;
    if Resolve(rules, key).Some? {
      var i: nat :| Wins(rules, key, i);
      if TakesOver(rules, key, rule) {
        assert Wins(all, key, |rules|);
      } else {
        assert all[i] == rules[i] && Wins(all, key, i);
      }
    } else if rule.prefix <= key {
      assert Wins(all, key, |rules|);
    } else {
      assert !Matches(all, key);
    }
  }

  method ResolvePoolName(rules: Table, key: string) returns (best: Option<Rule>)
    ensures best == Resolve(rules, key)
  {
    hide Resolve;
    best := None;
    var bestLen := -1;
    EmptyTable(key);
    for i := 0 to |rules|
      invariant best == Resolve(rules[..i], key)
      invariant bestLen == if best.Some? then |best.value.prefix| else -1
    {
      var rule := rules[i];
      ResolveAppend(rules[..i], key, rule);
      assert rules[..i] + [rule] == rules[..i + 1];
      if rule.prefix == "" {
        if bestLen < 0 {
          best := Some(rule);
          bestLen := 0;
        }
        continue;
      }
      if rule.prefix <= key && |rule.prefix| > bestLen {
        best := Some(rule);
        bestLen := |rule.prefix|;
      }
    }
    assert rules[..|rules|] == rules;
  }

  lemma EmptyTable(key: string)
    ensures Resolve([], key).None?
  {
    ResolveIsWinner([], key);
  }

  // ----- validation -----

  datatype RouteError = DuplicatePrefix(prefix: string, first: nat, second: nat, firstPool: string, secondPool: string)

  predicate DistinctPrefixes(rules: Table) {
    forall i, j | 0 <= i < j < |rules| :: rules[i].prefix != rules[j].prefix
  }

  /** Accepts exactly the tables without a repeated prefix; the error names the first repetition and what it repeats. */
  method ValidateRoutes(rules: Table) returns (r: Option<RouteError>)
    ensures r.None? <==> DistinctPrefixes(rules)
    ensures r.Some? ==>
              var e := r.value;
              && e.first < e.second < |rules| && DistinctPrefixes(rules[..e.second])
              && rules[e.first] == Rule(e.prefix, e.firstPool) && rules[e.second] == Rule(e.prefix, e.secondPool)
  {
    var seen: map<string, nat> := map[];
    for i := 0 to |rules|
      invariant DistinctPrefixes(rules[..i])
      invariant forall p | p in seen :: seen[p] < i && rules[seen[p]].prefix == p
      invariant forall k | 0 <= k < i :: rules[k].prefix in seen
    {
      var rule := rules[i];
      if rule.prefix in seen {
        var first := seen[rule.prefix];
        return Some(DuplicatePrefix(rule.prefix, first, i, rules[first].pool, rule.pool));
      }
      seen := seen[rule.prefix := i];
    }
    assert rules[..|rules|] == rules;
    r := None;
  }

  // ----- when the order of the rules does not matter -----

  /** Rules with the same prefix are the same rule. */
  predicate PrefixDecides(rules: Table) {
    forall i, j | 0 <= i < |rules| && 0 <= j < |rules| && rules[i].prefix == rules[j].prefix :: rules[i] == rules[j]
  }

  predicate Permuted(a: Table, b: Table) {
    multiset(a) == multiset(b)
  }

  ghost predicate OrderFree(rules: Table) {
    forall others: Table, key: string | Permuted(others, rules) :: Resolve(others, key) == Resolve(rules, key)
  }

  lemma PermutedMembers(a: Table, b: Table)
    requires Permuted(a, b)
    ensures forall rule :: rule in a <==> rule in b
  {
    assert forall rule :: rule in a <==> rule in multiset(a);
    assert forall rule :: rule in b <==> rule in multiset(b);
  }

  lemma LookupByMembership(rules: Table, prefix: string, rule: Rule)
    requires PrefixDecides(rules)
    ensures Lookup(rules, prefix) == Some(rule) <==> rule in rules && rule.prefix == prefix
  {
    var i := LookupMeaning(rules, prefix);
  }

  lemma PrefixDecidesPermuted(a: Table, b: Table)
    requires Permuted(a, b) && PrefixDecides(b)
    ensures PrefixDecides(a)
  {
    PermutedMembers(a, b);
    forall i, j | 0 <= i < |a| && 0 <= j < |a| && a[i].prefix == a[j].prefix ensures a[i] == a[j] {
      assert a[i] in b && a[j] in b;
    }
  }

  lemma LookupPermuted(a: Table, b: Table, prefix: string)
    requires Permuted(a, b) && PrefixDecides(a) && PrefixDecides(b)
    ensures Lookup(a, prefix) == Lookup(b, prefix)
  {
    PermutedMembers(a, b);
    hide Permuted;
    match Lookup(a, prefix)
    case Some(rule) =>
      LookupByMembership(a, prefix, rule);
      LookupByMembership(b, prefix, rule);
    case None =>
      if Lookup(b, prefix).Some? {
        LookupByMembership(b, prefix, Lookup(b, prefix).value);
        LookupByMembership(a, prefix, Lookup(b, prefix).value);
      }
  }

  lemma {:induction false} LongestFirstPermuted(a: Table, b: Table, key: string, n: nat)
    requires Permuted(a, b) && PrefixDecides(a) && PrefixDecides(b) && n <= |key|
    ensures LongestFirst(a, key, n) == LongestFirst(b, key, n)
  {
    LookupPermuted(a, b, key[..n]);
    hide Lookup;
    hide Permuted;
    hide PrefixDecides;
    if n > 0 {
      LongestFirstPermuted(a, b, key, n - 1);
    }
  }

  lemma FrontWins(rules: Table, j: nat)
    requires j < |rules|
    ensures var front := [rules[j]] + rules[..j] + rules[j + 1..];
            Permuted(front, rules) && Resolve(front, rules[j].prefix) == Some(rules[j])
  {
    var front := [rules[j]] + rules[..j] + rules[j + 1..];
    assert rules == rules[..j] + [rules[j]] + rules[j + 1..];
    assert multiset(front) == multiset([rules[j]]) + multiset(rules[..j]) + multiset(rules[j + 1..]);
    assert Wins(front, rules[j].prefix, 0);
    ResolveIsWinner(front, rules[j].prefix);
  }

  /** The order of a table matters exactly when two different rules share a prefix. */
  lemma OrderFreeIff(rules: Table)
    ensures OrderFree(rules) <==> PrefixDecides(rules)
  {
    hide Resolve;
    if PrefixDecides(rules) {
      forall others: Table, key: string | Permuted(others, rules) ensures Resolve(others, key) == Resolve(rules, key) {
        PrefixDecidesPermuted(others, rules);
        LongestFirstPermuted(others, rules, key, |key|);
        ResolveUnfolds(others, rules, key);
      }
    } else {
      var i, j :| 0 <= i < |rules| && 0 <= j < |rules| && rules[i].prefix == rules[j].prefix && rules[i] != rules[j];
      FrontWins(rules, i);
      FrontWins(rules, j);
    }
  }

  lemma ResolveUnfolds(a: Table, b: Table, key: string)
    ensures Resolve(a, key) == LongestFirst(a, key, |key|) && Resolve(b, key) == LongestFirst(b, key, |key|)
  {}

  /** A validated table can be listed in any order. */
  lemma ValidatedIsOrderFree(rules: Table)
    requires DistinctPrefixes(rules)
    ensures OrderFree(rules)
  {
    assert PrefixDecides(rules);
    OrderFreeIff(rules);
  }

  // ----- adding a rule -----

  function Inserted(rules: Table, at: nat, rule: Rule): Table
    requires at <= |rules|
  {
    rules[..at] + [rule] + rules[at..]
  }

  /**
    Inserting a rule anywhere, the table staying valid, changes the answer exactly for the keys that
    extend its prefix and match no longer listed one; for those the new rule is the answer.
   */
  lemma InsertionIsLocal(rules: Table, at: nat, rule: Rule, key: string)
    requires at <= |rules| && DistinctPrefixes(Inserted(rules, at, rule))
    ensures var after := Inserted(rules, at, rule);
            && (Resolve(after, key) != Resolve(rules, key) <==>
                rule.prefix <= key &&
                  forall j | 0 <= j < |rules| && rules[j].prefix <= key :: |rules[j].prefix| <= |rule.prefix|)
            && (Resolve(after, key) != Resolve(rules, key) ==> Resolve(after, key) == Some(rule))
  {
    var after := Inserted(rules, at, rule);
    assert rules == rules[..at] + rules[at..];
    assert Permuted(rules + [rule], after);
    ValidatedIsOrderFree(after);
    ResolveAppend(rules, key, rule);
    ResolveIsWinner(rules, key);
    hide Resolve;
    hide OrderFree;
    assert Resolve(rules + [rule], key) == Resolve(after, key) by { OrderFreeAt(after, rules + [rule], key); }
    InsertedIsNew(rules, at, rule);
    if Resolve(rules, key).Some? {
      var i: nat :| Wins(rules, key, i);
      MatchesDiffer(rule.prefix, rules[i].prefix, key);
    }
  }

  lemma OrderFreeAt(rules: Table, others: Table, key: string)
    requires OrderFree(rules) && Permuted(others, rules)
    ensures Resolve(others, key) == Resolve(rules, key)
  {
    hide Resolve;
    hide Permuted;
  }

  lemma InsertedIsNew(rules: Table, at: nat, rule: Rule)
    requires at <= |rules| && DistinctPrefixes(Inserted(rules, at, rule))
    ensures forall j | 0 <= j < |rules| :: rules[j].prefix != rule.prefix
  {
    var after := Inserted(rules, at, rule);
    assert after[at] == rule;
    forall j | 0 <= j < |rules| ensures rules[j].prefix != rule.prefix {
      assert j < at ==> after[j] == rules[j];
      assert j >= at ==> after[j + 1] == rules[j];
    }
  }

  // ----- pools -----

  predicate AllPooled(rules: Table, pools: set<string>) {
    forall i | 0 <= i < |rules| :: rules[i].pool in pools
  }

  /** No earlier rule has the prefix of rule `i`. */
  predicate Leads(rules: Table, i: nat) {
    i < |rules| && forall j | 0 <= j < i :: rules[j].prefix != rules[i].prefix
  }

  ghost predicate ResolvesInside(rules: Table, pools: set<string>) {
    forall key: string :: Resolve(rules, key).Some? ==> Resolve(rules, key).value.pool in pools
  }

  /** Every answer names an existing pool exactly when every rule that leads its prefix does. */
  lemma ResolvesInsideIff(rules: Table, pools: set<string>)
    ensures ResolvesInside(rules, pools) <==> forall i: nat | Leads(rules, i) :: rules[i].pool in pools
  {
    hide Resolve;
    if ResolvesInside(rules, pools) {
      forall i: nat | Leads(rules, i) ensures rules[i].pool in pools {
        ResolveIsWinner(rules, rules[i].prefix);
        LeaderWins(rules, i);
      }
    }
    if forall i: nat | Leads(rules, i) :: rules[i].pool in pools {
      forall key: string | Resolve(rules, key).Some? ensures Resolve(rules, key).value.pool in pools {
        ResolveIsWinner(rules, key);
        var i: nat :| Wins(rules, key, i);
        assert Leads(rules, i);
      }
    }
  }

  lemma LeaderWins(rules: Table, i: nat)
    requires Leads(rules, i)
    ensures Wins(rules, rules[i].prefix, i)
  {}

  // ----- the router -----

  datatype RouterError =
    | UnknownPool(index: nat, pool: string)
    | InvalidRoutes(error: RouteError)
    | NoRoute(key: string)

  /** The first rule whose pool is missing. */
  predicate FirstMissing(rules: Table, pools: set<string>, e: RouterError) {
    e.UnknownPool? && e.index < |rules| && rules[e.index].pool == e.pool && e.pool !in pools &&
      AllPooled(rules[..e.index], pools)
  }

  predicate Repeats(rules: Table, e: RouterError) {
    && e.InvalidRoutes?
    && e.error.first < e.error.second < |rules|
    && rules[e.error.first].prefix == rules[e.error.second].prefix == e.error.prefix
    && DistinctPrefixes(rules[..e.error.second])
  }

  method CheckPools<D>(rules: Table, pools: map<string, D>) returns (r: Option<RouterError>)
    ensures r.None? <==> AllPooled(rules, pools.Keys)
    ensures r.Some? ==> FirstMissing(rules, pools.Keys, r.value)
  {
    for i := 0 to |rules|
      invariant AllPooled(rules[..i], pools.Keys)
    {
      if rules[i].pool !in pools { return Some(UnknownPool(i, rules[i].pool)); }
      assert rules[..i + 1] == rules[..i] + [rules[i]];
    }
    assert rules[..|rules|] == rules;
    r := None;
  }

  /** A router over database handles `D` and cache handles `C`. */
  class Router<D, C> {
    const mysqlPools: map<string, D>
    const redisPools: map<string, C>
    var mysqlRoutes: Table
    var redisRoutes: Table

    /** What New checks and UpdateRoutes does not. */
    predicate Checked()
      reads this
    {
      && AllPooled(mysqlRoutes, mysqlPools.Keys) && AllPooled(redisRoutes, redisPools.Keys)
      && DistinctPrefixes(mysqlRoutes) && DistinctPrefixes(redisRoutes)
    }

    constructor (mysqlPools: map<string, D>, redisPools: map<string, C>, mysqlRoutes: Table, redisRoutes: Table)
      ensures this.mysqlPools == mysqlPools && this.redisPools == redisPools
      ensures this.mysqlRoutes == mysqlRoutes && this.redisRoutes == redisRoutes
    {
      this.mysqlPools, this.redisPools := mysqlPools, redisPools;
      this.mysqlRoutes, this.redisRoutes := mysqlRoutes, redisRoutes;
    }

    /** The new tables are stored as they are. */
    method UpdateRoutes(mysqlRoutes: Table, redisRoutes: Table)
      modifies this
      ensures this.mysqlRoutes == mysqlRoutes && this.redisRoutes == redisRoutes
    {
      this.mysqlRoutes := mysqlRoutes;
      this.redisRoutes := redisRoutes;
    }

    /** An unknown pool name gives no handle and no error. */
    method ResolveDB(key: string) returns (r: Result<(Option<D>, string), RouterError>)
      ensures match Resolve(mysqlRoutes, key)
              case None => r == Err(NoRoute(key))
              case Some(rule) =>
                r == Ok((if rule.pool in mysqlPools then Some(mysqlPools[rule.pool]) else None, rule.pool))
      ensures Checked() && r.Ok? ==> r.value.0.Some?
    {
      var rule := ResolvePoolName(mysqlRoutes, key);
      ResolvesInsideIff(mysqlRoutes, mysqlPools.Keys);
      hide Resolve;
      if rule.None? { return Err(NoRoute(key)); }
      var name := rule.value.pool;
      r := Ok((if name in mysqlPools then Some(mysqlPools[name]) else None, name));
    }

    method ResolveRedis(key: string) returns (r: Result<(Option<C>, string), RouterError>)
      ensures match Resolve(redisRoutes, key)
              case None => r == Err(NoRoute(key))
              case Some(rule) =>
                r == Ok((if rule.pool in redisPools then Some(redisPools[rule.pool]) else None, rule.pool))
      ensures Checked() && r.Ok? ==> r.value.0.Some?
    {
      var rule := ResolvePoolName(redisRoutes, key);
      ResolvesInsideIff(redisRoutes, redisPools.Keys);
      hide Resolve;
      if rule.None? { return Err(NoRoute(key)); }
      var name := rule.value.pool;
      r := Ok((if name in redisPools then Some(redisPools[name]) else None, name));
    }
  }

  /** Pools of both tables are checked before prefixes of either; a router is made exactly when all four checks pass. */
  method NewRouter<D, C>(mysqlPools: map<string, D>, redisPools: map<string, C>, mysqlRoutes: Table, redisRoutes: Table)
    returns (router: Router?<D, C>, err: Option<RouterError>)
    ensures router != null ==>
              && err.None? && fresh(router) && router.Checked()
              && router.mysqlPools == mysqlPools && router.redisPools == redisPools
              && router.mysqlRoutes == mysqlRoutes && router.redisRoutes == redisRoutes
    ensures router == null ==>
              && err.Some?
              && var e := err.value;
                 || FirstMissing(mysqlRoutes, mysqlPools.Keys, e)
                 || (AllPooled(mysqlRoutes, mysqlPools.Keys) && FirstMissing(redisRoutes, redisPools.Keys, e))
                 || (AllPooled(mysqlRoutes, mysqlPools.Keys) && AllPooled(redisRoutes, redisPools.Keys)
                     && (Repeats(mysqlRoutes, e) || (DistinctPrefixes(mysqlRoutes) && Repeats(redisRoutes, e))))
  {
    err := CheckPools(mysqlRoutes, mysqlPools);
    if err.Some? { return null, err; }
    err := CheckPools(redisRoutes, redisPools);
    if err.Some? { return null, err; }
    var invalid := ValidateRoutes(mysqlRoutes);
    if invalid.Some? { return null, Some(InvalidRoutes(invalid.value)); }
    invalid := ValidateRoutes(redisRoutes);
    if invalid.Some? { return null, Some(InvalidRoutes(invalid.value)); }
    router := new Router(mysqlPools, redisPools, mysqlRoutes, redisRoutes);
  }
}
