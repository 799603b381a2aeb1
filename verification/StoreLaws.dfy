/**
  What a prefix read of the store finds after a history of writes: the last put of each key that was not
  deleted since.
 */
module StoreLaws {
  import opened Wrappers
  import opened RouteBuild
  import opened RouteManager

  predicate AllAbove<T>(view: seq<Kv<T>>, low: string) {
    forall i | 0 <= i < |view| :: Greater(view[i].key, low)
  }

  /** The records come in ascending order of their keys, no key twice. */
  predicate Ascending<T>(view: seq<Kv<T>>) {
    view == [] || (AllAbove(view[1..], view[0].key) && Ascending(view[1..]))
  }

  lemma AboveLower<T>(view: seq<Kv<T>>, low: string)
    requires view != [] && AllAbove(view[1..], view[0].key) && Greater(view[0].key, low)
    ensures AllAbove(view, low)
  {
    forall i | 0 <= i < |view| ensures Greater(view[i].key, low) {
      if i > 0 {
        assert view[i] == view[1..][i - 1];
        GreaterTotal(view[0].key, low);
        GreaterTransitive(view[i].key, view[0].key, low);
      }
    }
  }

  lemma NotAmong<T>(view: seq<Kv<T>>, low: string, kv: Kv<T>)
    requires AllAbove(view, low)
    ensures kv in view ==> kv.key != low
  {
    GreaterTotal(low, low);
    hide Greater;
  }

  lemma {:induction false} PutAbove<T>(view: seq<Kv<T>>, key: string, value: Option<T>, low: string)
    requires AllAbove(view, low) && Greater(key, low)
    ensures AllAbove(PutKv(view, key, value), low)
  {
    hide Greater;
    if view != [] {
      PutAbove(view[1..], key, value, low);
    }
  }

  lemma {:induction false} DropAbove<T>(view: seq<Kv<T>>, key: string, low: string)
    requires AllAbove(view, low)
    ensures AllAbove(DropKv(view, key), low)
  {
    hide Greater;
    if view != [] {
      DropAbove(view[1..], key, low);
    }
  }

  lemma Prepended<T>(first: Kv<T>, rest: seq<Kv<T>>)
    requires Ascending(rest) && AllAbove(rest, first.key)
    ensures Ascending([first] + rest)
  {
    assert ([first] + rest)[1..] == rest;
  }

  lemma {:induction false} PutAscends<T>(view: seq<Kv<T>>, key: string, value: Option<T>)
    requires Ascending(view)
    ensures Ascending(PutKv(view, key, value))
  {
    hide Greater;
    hide AllAbove;
    if view == [] {
      NothingAbove<T>(key);
      Prepended(Kv(key, value), []);
      assert [Kv(key, value)] + [] == [Kv(key, value)];
    } else {
      var first, rest := view[0], view[1..];
      GreaterTotal(first.key, key);
      if first.key == key {
        Prepended(Kv(key, value), rest);
      } else if Greater(first.key, key) {
        AboveLower(view, key);
        Prepended(Kv(key, value), view);
      } else {
        PutAscends(rest, key, value);
        PutAbove(rest, key, value, first.key);
        Prepended(first, PutKv(rest, key, value));
      }
    }
  }

  lemma NothingAbove<T>(low: string)
    ensures AllAbove<T>([], low)
  {}

  lemma {:induction false} DropAscends<T>(view: seq<Kv<T>>, key: string)
    requires Ascending(view)
    ensures Ascending(DropKv(view, key))
  {
    hide AllAbove;
    if view != [] && view[0].key != key {
      DropAscends(view[1..], key);
      DropAbove(view[1..], key, view[0].key);
      Prepended(view[0], DropKv(view[1..], key));
    }
  }

  /** A put replaces what its key had, and nothing else. */
  lemma {:induction false} PutHas<T>(view: seq<Kv<T>>, key: string, value: Option<T>, kv: Kv<T>)
    requires Ascending(view)
    ensures kv in PutKv(view, key, value) <==> kv == Kv(key, value) || (kv in view && kv.key != key)
  {
    hide Greater;
    hide AllAbove;
    if view != [] {
      var first, rest := view[0], view[1..];
      assert view == [first] + rest;
      GreaterTotal(first.key, key);
      if first.key == key {
        NotAmong(rest, key, kv);
      } else if Greater(first.key, key) {
        AboveLower(view, key);
        NotAmong(view, key, kv);
      } else {
        PutHas(rest, key, value, kv);
      }
    }
  }

  /** A delete takes away what its key had, and nothing else. */
  lemma {:induction false} DropHas<T>(view: seq<Kv<T>>, key: string, kv: Kv<T>)
    requires Ascending(view)
    ensures kv in DropKv(view, key) <==> kv in view && kv.key != key
  {
    hide AllAbove;
    if view != [] {
      var first, rest := view[0], view[1..];
      assert view == [first] + rest;
      if first.key == key {
        NotAmong(rest, key, kv);
      } else {
        DropHas(rest, key, kv);
      }
    }
  }

  // ----- the two reads -----

  /** The last write of `key` is number `r`, a put. */
  predicate LastPut(log: seq<Change>, key: string, r: nat) {
    r < |log| && log[r].Put? && log[r].key == key && forall q | r < q < |log| :: log[q].key != key
  }

  lemma LastPutStep(before: seq<Change>, c: Change, key: string, r: nat)
    ensures LastPut(before + [c], key, r) <==>
            if c.key == key then r == |before| && c.Put? else LastPut(before, key, r)
  {
    var log := before + [c];
    assert log[|before|] == c && forall q | 0 <= q < |before| :: log[q] == before[q];
  }

  ghost predicate TypePut(log: seq<Change>, prefix: string, kv: Kv<TypeSpec>) {
    prefix <= kv.key && exists r: nat :: LastPut(log, kv.key, r) && log[r].asType == kv.value
  }

  ghost predicate RoutePut(log: seq<Change>, prefix: string, kv: Kv<RouteSpec>) {
    prefix <= kv.key && exists r: nat :: LastPut(log, kv.key, r) && log[r].asRoute == kv.value
  }

  /** A read of the types finds, in key order, exactly the last puts of the keys under the prefix. */
  lemma {:induction false} TypesFound(log: seq<Change>, prefix: string)
    ensures Ascending(TypesAt(log, prefix))
    ensures forall kv :: kv in TypesAt(log, prefix) <==> TypePut(log, prefix, kv)
  {
    if log == [] {
      assert forall kv: Kv<TypeSpec> :: !TypePut(log, prefix, kv);
    } else {
      var before, c := log[..|log| - 1], log[|log| - 1];
      assert before + [c] == log;
      TypesFound(before, prefix);
      var view := TypesAt(before, prefix);
      if c.Put? { PutAscends(view, c.key, c.asType); } else { DropAscends(view, c.key); }
      forall kv ensures kv in TypesAt(log, prefix) <==> TypePut(log, prefix, kv) {
        TypePutStep(before, c, prefix, kv);
        assert kv in view <==> TypePut(before, prefix, kv);
        hide TypePut;
        if c.Put? { PutHas(view, c.key, c.asType, kv); } else { DropHas(view, c.key, kv); }
      }
    }
  }

  lemma TypePutStep(before: seq<Change>, c: Change, prefix: string, kv: Kv<TypeSpec>)
    ensures TypePut(before + [c], prefix, kv) <==>
            if c.key == kv.key then prefix <= kv.key && c.Put? && c.asType == kv.value else TypePut(before, prefix, kv)
  {
    var log := before + [c];
    forall r: nat { LastPutStep(before, c, kv.key, r); }
    assert log[|before|] == c && forall q | 0 <= q < |before| :: log[q] == before[q];
    hide LastPut;
    if c.key == kv.key {
      assert c.Put? ==> LastPut(log, kv.key, |before|);
    } else {
      if r: nat :| LastPut(before, kv.key, r) && r < |before| && before[r].asType == kv.value {
        assert LastPut(log, kv.key, r);
      }
    }
  }

  /** And so does a read of the routes. */
  lemma {:induction false} RoutesFound(log: seq<Change>, prefix: string)
    ensures Ascending(RoutesAt(log, prefix))
    ensures forall kv :: kv in RoutesAt(log, prefix) <==> RoutePut(log, prefix, kv)
  {
    if log == [] {
      assert forall kv: Kv<RouteSpec> :: !RoutePut(log, prefix, kv);
    } else {
      var before, c := log[..|log| - 1], log[|log| - 1];
      assert before + [c] == log;
      RoutesFound(before, prefix);
      var view := RoutesAt(before, prefix);
      if c.Put? { PutAscends(view, c.key, c.asRoute); } else { DropAscends(view, c.key); }
      forall kv ensures kv in RoutesAt(log, prefix) <==> RoutePut(log, prefix, kv) {
        RoutePutStep(before, c, prefix, kv);
        assert kv in view <==> RoutePut(before, prefix, kv);
        hide RoutePut;
        if c.Put? { PutHas(view, c.key, c.asRoute, kv); } else { DropHas(view, c.key, kv); }
      }
    }
  }

  lemma RoutePutStep(before: seq<Change>, c: Change, prefix: string, kv: Kv<RouteSpec>)
    ensures RoutePut(before + [c], prefix, kv) <==>
            if c.key == kv.key then prefix <= kv.key && c.Put? &&
              c.asRoute == kv.value else RoutePut(before, prefix, kv)
  {
    var log := before + [c];
    forall r: nat { LastPutStep(before, c, kv.key, r); }
    assert log[|before|] == c && forall q | 0 <= q < |before| :: log[q] == before[q];
    hide LastPut;
    if c.key == kv.key {
      assert c.Put? ==> LastPut(log, kv.key, |before|);
    } else {
      if r: nat :| LastPut(before, kv.key, r) && r < |before| && before[r].asRoute == kv.value {
        assert LastPut(log, kv.key, r);
      }
    }
  }
}
