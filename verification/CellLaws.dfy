/** What a config cell means: where entries split, which int-keyed maps parse, and what prints and parses back. */
module CellLaws {
  import opened Wrappers
  import opened Text
  import opened CellParser

  // ----- where an entry splits -----

  /**
    An entry splits at its first `=` outside quotes if there is one, else at its first `=`, and not at all
    without `=`.
   */
  lemma SplitsAtFirstBareEquals(s: string)
    ensures SplitKeyValue(s).Some? <==> '=' in s
    ensures forall i: nat | BareEquals(s, i) && (forall k: nat | k < i :: !BareEquals(s, k)) ::
              SplitKeyValue(s) == Some((s[..i], s[i + 1..]))
    ensures forall i: nat | i < |s| && s[i] == '=' && (forall k | 0 <= k < i :: s[k] != '=')
                             && (forall k: nat :: !BareEquals(s, k)) ::
              SplitKeyValue(s) == Some((s[..i], s[i + 1..]))
  {
    SplitPointInside(s);
    FirstBareEqualsMeaning(s, 0);
  }

  lemma FieldsExist(entry: string)
    ensures Fields(entry).Some? <==> '=' in entry
  {
    SplitsAtFirstBareEquals(TrimSpace(entry));
    TrimSpaceChars(entry);
  }

  // ----- int-keyed maps -----

  /** The entry has an `=`. */
  predicate Splits(entry: string) {
    '=' in entry
  }

  ghost predicate AllKeysGood(entries: seq<string>, width: Width) {
    && (forall i | 0 <= i < |entries| && Splits(entries[i]) :: KeyOf(entries[i], width).Some?)
    && (forall i, j | 0 <= i < j < |entries| && Splits(entries[i]) && Splits(entries[j]) ::
          KeyOf(entries[i], width) != KeyOf(entries[j], width))
  }

  /** The entry maps `n` to `v`. */
  predicate Says(entry: string, width: Width, n: int, v: string) {
    Splits(entry) && KeyOf(entry, width) == Some(n) && Fields(entry).Some? && Fields(entry).value.1 == v
  }

  ghost predicate SomeEntrySays(entries: seq<string>, width: Width, n: int, v: string) {
    exists i :: 0 <= i < |entries| && Says(entries[i], width, n, v)
  }

  predicate Maps(m: map<int, string>, n: int, v: string) {
    n in m && m[n] == v
  }

  lemma OneMoreEntry(before: seq<string>, last: string, width: Width)
    ensures AllKeysGood(before + [last], width) <==>
            AllKeysGood(before, width)
            && (Splits(last) ==>
                  && KeyOf(last, width).Some?
                  && forall i | 0 <= i < |before| && Splits(before[i]) :: KeyOf(before[i], width) != KeyOf(last, width))
  {
    hide KeyOf;
    hide Splits;
    var all := before + [last];
    assert all[|before|] == last && forall i | 0 <= i < |before| :: all[i] == before[i];
  }

  lemma SplitsHasFields(entry: string)
    ensures Splits(entry) <==> Fields(entry).Some?
    ensures KeyOf(entry, W32).Some? || KeyOf(entry, W64).Some? ==> Splits(entry)
  {
    FieldsExist(entry);
    hide Fields;
  }

  lemma {:induction false} NumberKeyedSucceeds(entries: seq<string>, width: Width)
    ensures NumberKeyed(entries, width).Ok? <==> AllKeysGood(entries, width)
  {
    hide Fields;
    hide Splits;
    if entries != [] {
      var before, last := entries[..|entries| - 1], entries[|entries| - 1];
      assert before + [last] == entries;
      NumberKeyedSucceeds(before, width);
      OneMoreEntry(before, last, width);
      SplitsHasFields(last);
      if NumberKeyed(before, width).Ok? {
        KeyClash(before, last, width);
      }
    }
  }

  /** The last key is already in the map exactly when some earlier entry with `=` has it. */
  lemma KeyClash(before: seq<string>, last: string, width: Width)
    requires NumberKeyed(before, width).Ok?
    ensures KeyOf(last, width).Some? ==>
              (KeyOf(last, width).value in NumberKeyed(before, width).value <==>
               exists i :: 0 <= i < |before| && Splits(before[i]) && KeyOf(before[i], width) == KeyOf(last, width))
  {
    hide KeyOf;
    hide Splits;
    hide NumberKeyed;
    hide Fields;
    if KeyOf(last, width).Some? {
      var n := KeyOf(last, width).value;
      KeysSoFar(before, width, n);
      if Some(n) in Keys(before, width) {
        var i :| 0 <= i < |before| && Keys(before, width)[i] == Some(n);
        KeysAt(before, width, i);
        SplitsHasFields(before[i]);
      }
      forall i | 0 <= i < |before| && KeyOf(before[i], width) == Some(n) ensures Some(n) in Keys(before, width) {
        KeysAt(before, width, i);
      }
    }
  }

  /** The map with one more entry, which is one that does not spoil it. */
  lemma NumberKeyedStep(before: seq<string>, last: string, width: Width)
    requires NumberKeyed(before + [last], width).Ok?
    ensures NumberKeyed(before, width).Ok?
    ensures var m, all := NumberKeyed(before, width).value, NumberKeyed(before + [last], width).value;
            match KeyOf(last, width)
            case None => Fields(last).None? && all == m
            case Some(n) => Fields(last).Some? && n !in m && all == m[n := Fields(last).value.1]
  {
    hide Fields;
    hide ParseInt;
    assert (before + [last])[..|before|] == before;
  }

  lemma SaysMeans(entry: string, width: Width, n: int, v: string)
    ensures Says(entry, width, n, v) <==>
            KeyOf(entry, width) == Some(n) && Fields(entry).Some? && Fields(entry).value.1 == v
  {
    SplitsHasFields(entry);
    hide Splits;
    hide Fields;
  }

  lemma {:induction false} NumberKeyedHolds(entries: seq<string>, width: Width, n: int, v: string)
    requires NumberKeyed(entries, width).Ok?
    ensures Maps(NumberKeyed(entries, width).value, n, v) <==> SomeEntrySays(entries, width, n, v)
  {
    hide Fields;
    hide Says;
    hide KeyOf;
    if entries == [] {
      assert NumberKeyed([], width) == Ok(map[]);
    } else {
      var before, last := entries[..|entries| - 1], entries[|entries| - 1];
      assert before + [last] == entries;
      NumberKeyedStep(before, last, width);
      hide NumberKeyed;
      NumberKeyedHolds(before, width, n, v);
      OneMoreSays(before, last, width, n, v);
      SaysMeans(last, width, n, v);
      hide SomeEntrySays;
    }
  }

  lemma OneMoreSays(before: seq<string>, last: string, width: Width, n: int, v: string)
    ensures SomeEntrySays(before + [last], width, n, v) <==>
            Says(last, width, n, v) || SomeEntrySays(before, width, n, v)
  {
    hide Says;
    var all := before + [last];
    assert all[|before|] == last && forall i | 0 <= i < |before| :: all[i] == before[i];
  }

  /**
    Int-keyed maps: a cell that is not blank parses exactly when every entry with an `=` has an
    in-range decimal key and those keys are pairwise distinct, and the map then holds exactly what
    those entries say.
   */
  lemma IntKeyedMapsExact(raw: string, typ: string, width: Width)
    requires MapType(typ) && MapSides(typ) == (if width.W32? then "int32" else "int64", "string") && !Blank(raw)
    ensures var entries := Split(raw, '|');
            && (CellOf(raw, typ).Ok? <==> AllKeysGood(entries, width))
            && (CellOf(raw, typ).Ok? ==> CellOf(raw, typ).value.NumberToWords? && CellOf(raw, typ).value.width == width)
            && (CellOf(raw, typ).Ok? ==>
                  forall n: int, v: string ::
                    Maps(CellOf(raw, typ).value.byNumber, n, v) <==> SomeEntrySays(entries, width, n, v))
  {
    hide Says;
    hide Blank;
    var entries := Split(raw, '|');
    NumberKeyedSucceeds(entries, width);
    hide NumberKeyed;
    hide AllKeysGood;
    hide Split;
    if NumberKeyed(entries, width).Ok? {
      var m := NumberKeyed(entries, width).value;
      forall n: int, v: string
        ensures Maps(m, n, v) <==> SomeEntrySays(entries, width, n, v)
      {
        NumberKeyedHolds(entries, width, n, v);
      }
    }
  }

  /** A type string that the dispatch treats as a map type. */
  predicate MapType(typ: string) {
    '=' in typ
  }

  lemma MapDispatch(raw: string, typ: string)
    requires MapType(typ)
    ensures CellOf(raw, typ) == CellOfMap(raw, typ)
  {
    hide CellOfMap;
    hide CellOfNumbers;
    hide CellOfNumber;
    hide CellOfWordList;
  }

  /** The error is that of the first entry that spoils the map: a bad key if its key is bad, else a repeated one. */
  lemma FirstSpoilerDecides(entries: seq<string>, i: nat, width: Width)
    requires i < |entries| && AllKeysGood(entries[..i], width) && !AllKeysGood(entries[..i + 1], width)
    ensures Fields(entries[i]).Some?
    ensures var key := Fields(entries[i]).value.0;
            NumberKeyed(entries, width) ==
              Err(if ParseInt(key, width).None? then InvalidValue(key) else DuplicateKey(key))
  {
    hide Fields;
    hide AllKeysGood;
    NumberKeyedSucceeds(entries[..i], width);
    NumberKeyedSucceeds(entries[..i + 1], width);
    assert entries[..i + 1][..i] == entries[..i];
    FirstBadEntry(entries, i + 1, width);
  }

  // ----- string-keyed maps -----

  /** Entry `i` is the last one with key `k`, and it maps `k` to `v`. */
  ghost predicate LastSays(entries: seq<string>, i: nat, k: string, v: string) {
    && i < |entries| && Fields(entries[i]) == Some((k, v))
    && forall j | i < j < |entries| :: !HasKey(entries[j], k)
  }

  predicate HasKey(entry: string, k: string) {
    Fields(entry).Some? && Fields(entry).value.0 == k
  }

  lemma LastSaysStep(before: seq<string>, last: string, i: nat, k: string, v: string)
    ensures LastSays(before + [last], i, k, v) <==>
            (i == |before| && Fields(last) == Some((k, v))) || (LastSays(before, i, k, v) && !HasKey(last, k))
  {
    hide Fields;
    hide HasKey;
    var all := before + [last];
    assert all[|before|] == last && forall j | 0 <= j < |before| :: all[j] == before[j];
    HasKeyMeans(last, k);
  }

  lemma HasKeyMeans(entry: string, k: string)
    ensures HasKey(entry, k) <==> exists v :: Fields(entry) == Some((k, v))
  {
    hide Fields;
    if HasKey(entry, k) {
      assert Fields(entry) == Some((k, Fields(entry).value.1));
    }
  }

  /** In a string-to-string map the last entry of a key wins, and nothing else is in the map. */
  lemma {:induction false} LastEntryWins(entries: seq<string>, k: string, v: string)
    ensures k in WordKeyedWords(entries) && WordKeyedWords(entries)[k] == v <==>
            exists i: nat :: LastSays(entries, i, k, v)
  {
    hide Fields;
    hide LastSays;
    if entries == [] {
      NothingSaid(entries, k, v);
    } else {
      var before, last := entries[..|entries| - 1], entries[|entries| - 1];
      assert before + [last] == entries;
      LastEntryWins(before, k, v);
      forall i: nat { LastSaysStep(before, last, i, k, v); }
      if Fields(last) == Some((k, v)) {
        assert LastSays(entries, |before|, k, v);
      } else if !HasKey(last, k) {
        if i: nat :| LastSays(before, i, k, v) { assert LastSays(entries, i, k, v); }
        if i: nat :| LastSays(entries, i, k, v) { assert LastSays(before, i, k, v); }
      }
    }
  }

  lemma NothingSaid(entries: seq<string>, k: string, v: string)
    requires entries == []
    ensures forall i: nat :: !LastSays(entries, i, k, v)
  {}

  /** The number an entry gives, for an entry with an `=`. */
  function NumberOf(entry: string, width: Width): Option<int> {
    match Entry(entry)
    case None => None
    case Some((k, v)) => ParseInt(TrimSpace(v), width)
  }

  /** A string-to-int map parses exactly when the value of every entry with an `=` is an in-range number. */
  lemma {:induction false} WordKeyedNumbersSucceeds(entries: seq<string>, width: Width)
    ensures WordKeyedNumbers(entries, width).Ok? <==>
            forall i | 0 <= i < |entries| && Splits(entries[i]) :: NumberOf(entries[i], width).Some?
  {
    hide Splits;
    hide Entry;
    hide Field;
    hide TrimSpace;
    hide ParseInt;
    if entries != [] {
      var before, last := entries[..|entries| - 1], entries[|entries| - 1];
      WordKeyedNumbersSucceeds(before, width);
      assert forall i | 0 <= i < |before| :: before[i] == entries[i];
      EntryExists(last);
    }
  }

  lemma EntryExists(entry: string)
    ensures Splits(entry) <==> Entry(entry).Some?
    ensures (Fields(entry).Some? <==> Entry(entry).Some?)
    ensures Entry(entry).Some? ==> Fields(entry).value.0 == Field(Entry(entry).value.0)
  {
    FieldsExist(entry);
    hide Field;
  }

  /** Entry `i` is the last one with key `k`, and its number is `n`. */
  ghost predicate LastCounts(entries: seq<string>, width: Width, i: nat, k: string, n: int) {
    && i < |entries| && HasKey(entries[i], k) && NumberOf(entries[i], width) == Some(n)
    && forall j | i < j < |entries| :: !HasKey(entries[j], k)
  }

  lemma LastCountsStep(before: seq<string>, last: string, width: Width, i: nat, k: string, n: int)
    ensures LastCounts(before + [last], width, i, k, n) <==>
            (i == |before| && HasKey(last, k) && NumberOf(last, width) == Some(n))
            || (LastCounts(before, width, i, k, n) && !HasKey(last, k))
  {
    hide HasKey;
    hide NumberOf;
    var all := before + [last];
    assert all[|before|] == last && forall j | 0 <= j < |before| :: all[j] == before[j];
  }

  /** In a string-to-int map that parses the last entry of a key wins, and nothing else is in the map. */
  lemma {:induction false} LastNumberWins(entries: seq<string>, width: Width, k: string, n: int)
    requires WordKeyedNumbers(entries, width).Ok?
    ensures var m := WordKeyedNumbers(entries, width).value;
            k in m && m[k] == n <==> exists i: nat :: LastCounts(entries, width, i, k, n)
  {
    hide Entry;
    hide Fields;
    hide Field;
    hide ParseInt;
    hide TrimSpace;
    hide LastCounts;
    if entries == [] {
      NothingCounted(entries, width, k, n);
    } else {
      var before, last := entries[..|entries| - 1], entries[|entries| - 1];
      assert before + [last] == entries;
      LastNumberWins(before, width, k, n);
      EntryExists(last);
      forall i: nat { LastCountsStep(before, last, width, i, k, n); }
      if HasKey(last, k) && NumberOf(last, width) == Some(n) {
        assert LastCounts(entries, width, |before|, k, n);
      } else if !HasKey(last, k) {
        if i: nat :| LastCounts(before, width, i, k, n) { assert LastCounts(entries, width, i, k, n); }
        if i: nat :| LastCounts(entries, width, i, k, n) { assert LastCounts(before, width, i, k, n); }
      }
    }
  }

  lemma NothingCounted(entries: seq<string>, width: Width, k: string, n: int)
    requires entries == []
    ensures forall i: nat :: !LastCounts(entries, width, i, k, n)
  {}
}
