/**
  Printing a map as a cell and parsing it back. A map is printed from a listing of its pairs in any
  order: strings in single quotes, numbers in decimal, `=` between key and value, `|` between entries.
 */
module MapRoundTrip {
  import opened Wrappers
  import opened Text
  import opened CellParser
  import opened CellLaws
  import opened CellRoundTrip

  // ----- one entry -----

  lemma SeparableEntry(head: string, tail: string)
    requires Separable(head, tail) && head != "" && tail != "" && !IsSpace(head[0]) && !IsSpace(tail[|tail| - 1])
    ensures Entry(head + "=" + tail) == Some((head, tail))
  {
    var s := head + "=" + tail;
    TrimSpaceKeeps(s);
    SplitExactly(head, tail);
    hide Separable;
    hide SplitPoint;
    hide TrimSpace;
    assert s[..|head|] == head && s[|head| + 1..] == tail;
  }

  function WordEntry(k: string, v: string): string {
    Quoted(k) + "=" + Quoted(v)
  }

  function NumberKeyEntry(n: int, v: string): string {
    DecimalInt(n) + "=" + Quoted(v)
  }

  function NumberValueEntry(k: string, n: int): string {
    Quoted(k) + "=" + DecimalInt(n)
  }

  predicate Quoteless(s: string) {
    forall c | c in s :: !IsQuote(c)
  }

  lemma QuotedEnds(s: string)
    ensures !IsSpace(Quoted(s)[0]) && !IsSpace(Quoted(s)[|Quoted(s)| - 1])
  {
    assert !IsSpace('\'');
  }

  lemma DecimalEnds(n: int)
    ensures !IsSpace(DecimalInt(n)[0]) && !IsSpace(DecimalInt(n)[|DecimalInt(n)| - 1])
  {}

  lemma WordEntryParses(k: string, v: string)
    requires Separable(Quoted(k), Quoted(v))
    ensures Fields(WordEntry(k, v)) == Some((k, v))
  {
    hide Separable;
    QuotedEnds(k);
    QuotedEnds(v);
    QuotedField(k);
    QuotedField(v);
    SeparableEntry(Quoted(k), Quoted(v));
    hide Quoted;
    hide Entry;
    hide Field;
  }

  lemma NumberKeyEntryParses(n: int, v: string, width: Width)
    requires width.Holds(n)
    ensures Fields(NumberKeyEntry(n, v)) == Some((DecimalInt(n), v))
    ensures ParseInt(DecimalInt(n), width) == Some(n)
  {
    NumberSeparates(n, Quoted(v));
    hide Separable;
    DecimalEnds(n);
    DecimalHasNoSpace(n);
    QuotedEnds(v);
    QuotedField(v);
    SeparableEntry(DecimalInt(n), Quoted(v));
    ParsePrinted(n, width);
    hide Quoted;
    hide Entry;
    hide Field;
    hide DecimalInt;
  }

  lemma NumberValueEntryParses(k: string, n: int, width: Width)
    requires width.Holds(n) && Separable(Quoted(k), DecimalInt(n))
    ensures Entry(NumberValueEntry(k, n)) == Some((Quoted(k), DecimalInt(n)))
    ensures Field(Quoted(k)) == k && ParseInt(TrimSpace(DecimalInt(n)), width) == Some(n)
  {
    hide Separable;
    DecimalEnds(n);
    DecimalHasNoSpace(n);
    QuotedEnds(k);
    QuotedField(k);
    SeparableEntry(Quoted(k), DecimalInt(n));
    ParsePrinted(n, width);
    hide Quoted;
    hide Entry;
    hide Field;
    hide DecimalInt;
  }

  // ----- an entry that does not separate is read back with another key -----

  lemma TrimRightPrefix(s: string)
    ensures TrimRight(s) <= s
    ensures forall j | 0 <= j < |s| && !IsSpace(s[j]) :: j < |TrimRight(s)|
  {
    var b := TrimRightDrops(s);
    forall j | |TrimRight(s)| <= j < |s| ensures IsSpace(s[j]) {
      assert s[j] == b[j - |TrimRight(s)|];
    }
  }

  /** A string that is its own shift by a leading quote ends in a quote. */
  lemma {:induction false} ShiftedEndsInQuote(k: string)
    requires k != "" && k == "'" + k[..|k| - 1]
    ensures k[|k| - 1] == '\''
  {
    if |k| > 1 {
      var shorter := k[..|k| - 1];
      assert shorter == "'" + shorter[..|shorter| - 1] by {
        assert shorter == k[1..];
        assert k[..|k| - 1] == ("'" + k[..|k| - 1])[..|k| - 1];
      }
      ShiftedEndsInQuote(shorter);
      assert k[|k| - 1] == shorter[|k| - 2];
    }
  }

  /** The length of the key field of a text that starts with a quote. */
  lemma QuoteFirstField(h: string)
    requires h != "" && h[0] == '\''
    ensures var m := |TrimRight(h)|;
            && 0 < m <= |h|
            && TrimRight(h) == h[..m]
            && (Field(h) == h[..m] || (m >= 2 && Field(h) == h[1..m - 1]))
  {
    assert !IsSpace('\'');
    assert TrimLeft(h) == h;
    TrimRightPrefix(h);
    var m := |TrimRight(h)|;
    if m >= 2 {
      assert h[..m][1..m - 1] == h[1..m - 1];
    }
  }

  /** Cut too early. */
  lemma ShortCut(k: string, rest: string, i: nat)
    requires 0 < i <= |k| + 1 && (Quoted(k) + rest)[i] == '='
    ensures Field((Quoted(k) + rest)[..i]) != k
  {
    var s := Quoted(k) + rest;
    assert s[i] == Quoted(k)[i] && i <= |k| && s[i] == k[i - 1];
    var h := s[..i];
    assert h == "'" + k[..i - 1];
    QuoteFirstField(h);
    hide Field;
    if Field(h) == k {
      assert i == |k|;
      assert h[..i] == h;
      ShiftedEndsInQuote(k);
    }
  }

  /** Cut too late. */
  lemma LongCut(k: string, rest: string, i: nat)
    requires rest != "" && rest[0] == '=' && |k| + 2 < i < |Quoted(k) + rest|
    ensures Field((Quoted(k) + rest)[..i]) != k
  {
    var h := (Quoted(k) + rest)[..i];
    assert h[|k| + 2] == '=' && !IsSpace('=');
    TrimRightPrefix(h);
    QuoteFirstField(h);
    hide Field;
  }

  /** A printed pair reads back as itself exactly when it is separable. */
  lemma WordEntryExactly(k: string, v: string)
    ensures Fields(WordEntry(k, v)) == Some((k, v)) <==> Separable(Quoted(k), Quoted(v))
  {
    var s := WordEntry(k, v);
    SplitExactly(Quoted(k), Quoted(v));
    hide Separable;
    if Separable(Quoted(k), Quoted(v)) {
      WordEntryParses(k, v);
    } else {
      var rest := "=" + Quoted(v);
      assert s == Quoted(k) + rest;
      QuotedEnds(v);
      assert !IsSpace(s[0]) && s[|s| - 1] == Quoted(v)[|Quoted(v)| - 1];
      TrimSpaceKeeps(s);
      SplitPointInside(s);
      var i := SplitPoint(s);
      hide SplitPoint;
      hide Field;
      assert s[0] == '\'';
      if i < |s| {
        if i < |k| + 2 {
          ShortCut(k, rest, i);
        } else {
          LongCut(k, rest, i);
        }
        assert Fields(s).value.0 == Field(s[..i]);
      }
    }
  }

  // ----- listings -----

  function MapOf<K, V>(pairs: seq<(K, V)>): map<K, V> {
    if pairs == [] then map[] else MapOf(pairs[..|pairs| - 1])[pairs[|pairs| - 1].0 := pairs[|pairs| - 1].1]
  }

  predicate DistinctKeys<K(==), V>(pairs: seq<(K, V)>) {
    forall i, j | 0 <= i < j < |pairs| :: pairs[i].0 != pairs[j].0
  }

  /** The pairs of `m`, each once, in some order. */
  predicate Lists<K(==), V(==)>(pairs: seq<(K, V)>, m: map<K, V>) {
    DistinctKeys(pairs) && MapOf(pairs) == m
  }

  lemma {:induction false} MapOfKeys<K, V>(pairs: seq<(K, V)>, k: K)
    ensures k in MapOf(pairs) <==> exists i :: 0 <= i < |pairs| && pairs[i].0 == k
  {
    if pairs != [] {
      var before := pairs[..|pairs| - 1];
      MapOfKeys(before, k);
      if k in MapOf(before) {
        var i :| 0 <= i < |before| && before[i].0 == k;
        assert pairs[i].0 == k;
      }
      if i :| 0 <= i < |pairs| && pairs[i].0 == k && i < |before| {
        assert before[i].0 == k;
      }
    }
  }

  lemma {:induction false} MapOfAt<K, V>(pairs: seq<(K, V)>, i: nat)
    requires i < |pairs| && DistinctKeys(pairs)
    ensures pairs[i].0 in MapOf(pairs) && MapOf(pairs)[pairs[i].0] == pairs[i].1
  {
    if i < |pairs| - 1 {
      MapOfAt(pairs[..|pairs| - 1], i);
    }
  }

  /** Every map has a listing. */
  lemma {:induction false} Listing<K, V>(m: map<K, V>) returns (pairs: seq<(K, V)>)
    ensures Lists(pairs, m)
    decreases |m|
  {
    if m == map[] {
      pairs := [];
    } else {
      var k :| k in m;
      var smaller := m - {k};
      assert m.Keys == smaller.Keys + {k};
      var before := Listing(smaller);
      pairs := before + [(k, m[k])];
      forall i | 0 <= i < |before| ensures before[i].0 != k {
        MapOfAt(before, i);
      }
      assert pairs[..|pairs| - 1] == before;
      assert MapOf(pairs) == smaller[k := m[k]] == m;
    }
  }

  // ----- the three printed forms -----

  function WordEntries(pairs: seq<(string, string)>): (es: seq<string>)
    ensures |es| == |pairs|
    ensures forall i | 0 <= i < |pairs| :: es[i] == WordEntry(pairs[i].0, pairs[i].1)
  {
    seq(|pairs|, i requires 0 <= i < |pairs| => WordEntry(pairs[i].0, pairs[i].1))
  }

  function NumberKeyEntries(pairs: seq<(int, string)>): (es: seq<string>)
    ensures |es| == |pairs|
    ensures forall i | 0 <= i < |pairs| :: es[i] == NumberKeyEntry(pairs[i].0, pairs[i].1)
  {
    seq(|pairs|, i requires 0 <= i < |pairs| => NumberKeyEntry(pairs[i].0, pairs[i].1))
  }

  function NumberValueEntries(pairs: seq<(string, int)>): (es: seq<string>)
    ensures |es| == |pairs|
    ensures forall i | 0 <= i < |pairs| :: es[i] == NumberValueEntry(pairs[i].0, pairs[i].1)
  {
    seq(|pairs|, i requires 0 <= i < |pairs| => NumberValueEntry(pairs[i].0, pairs[i].1))
  }

  lemma {:induction false} WordEntriesParse(pairs: seq<(string, string)>)
    requires forall i | 0 <= i < |pairs| :: Separable(Quoted(pairs[i].0), Quoted(pairs[i].1))
    ensures WordKeyedWords(WordEntries(pairs)) == MapOf(pairs)
  {
    hide Fields;
    hide Separable;
    hide Quoted;
    hide WordEntry;
    if pairs != [] {
      var last := pairs[|pairs| - 1];
      WordEntriesParse(pairs[..|pairs| - 1]);
      assert WordEntries(pairs)[..|pairs| - 1] == WordEntries(pairs[..|pairs| - 1]);
      WordEntryParses(last.0, last.1);
    }
  }

  lemma {:induction false} NumberKeyEntriesParse(pairs: seq<(int, string)>, width: Width)
    requires DistinctKeys(pairs) && forall i | 0 <= i < |pairs| :: width.Holds(pairs[i].0)
    ensures NumberKeyed(NumberKeyEntries(pairs), width) == Ok(MapOf(pairs))
  {
    hide Fields;
    hide NumberKeyEntry;
    hide DecimalInt;
    hide ParseInt;
    if pairs != [] {
      var before, last := pairs[..|pairs| - 1], pairs[|pairs| - 1];
      NumberKeyEntriesParse(before, width);
      assert NumberKeyEntries(pairs)[..|pairs| - 1] == NumberKeyEntries(before);
      NumberKeyEntryParses(last.0, last.1, width);
      MapOfKeys(before, last.0);
    }
  }

  lemma {:induction false} NumberValueEntriesParse(pairs: seq<(string, int)>, width: Width)
    requires forall i | 0 <= i < |pairs| ::
             width.Holds(pairs[i].1) && Separable(Quoted(pairs[i].0), DecimalInt(pairs[i].1))
    ensures WordKeyedNumbers(NumberValueEntries(pairs), width) == Ok(MapOf(pairs))
  {
    hide Entry;
    hide Field;
    hide Separable;
    hide Quoted;
    hide NumberValueEntry;
    hide DecimalInt;
    hide ParseInt;
    hide TrimSpace;
    if pairs != [] {
      var last := pairs[|pairs| - 1];
      NumberValueEntriesParse(pairs[..|pairs| - 1], width);
      assert NumberValueEntries(pairs)[..|pairs| - 1] == NumberValueEntries(pairs[..|pairs| - 1]);
      NumberValueEntryParses(last.0, last.1, width);
    }
  }

  // ----- no bar survives parsing -----

  lemma FieldsAreBarless(entry: string)
    requires Barless(entry)
    ensures Entry(entry).Some? ==> Barless(Entry(entry).value.0) && Barless(Entry(entry).value.1)
    ensures Fields(entry).Some? ==> Barless(Fields(entry).value.0) && Barless(Fields(entry).value.1)
  {
    var s := TrimSpace(entry);
    TrimSpaceChars(entry);
    hide TrimSpace;
    hide Field;
    SplitPointInside(s);
    hide SplitPoint;
    if Entry(entry).Some? {
      FieldIsBarless(Entry(entry).value.0);
      FieldIsBarless(Entry(entry).value.1);
    }
  }

  ghost predicate AllBarless(entries: seq<string>) {
    forall i | 0 <= i < |entries| :: Barless(entries[i])
  }

  lemma {:induction false} WordsStayBarless(entries: seq<string>, k: string)
    requires AllBarless(entries) && k in WordKeyedWords(entries)
    ensures Barless(k) && Barless(WordKeyedWords(entries)[k])
  {
    hide Fields;
    hide Barless;
    FieldsAreBarless(entries[|entries| - 1]);
    if Fields(entries[|entries| - 1]).None? || Fields(entries[|entries| - 1]).value.0 != k {
      WordsStayBarless(entries[..|entries| - 1], k);
    }
  }

  lemma {:induction false} NumberedWordsStayBarless(entries: seq<string>, width: Width, n: int)
    requires AllBarless(entries) && NumberKeyed(entries, width).Ok? && n in NumberKeyed(entries, width).value
    ensures Barless(NumberKeyed(entries, width).value[n])
  {
    hide Fields;
    hide Barless;
    hide ParseInt;
    FieldsAreBarless(entries[|entries| - 1]);
    var before := NumberKeyed(entries[..|entries| - 1], width);
    if n in before.value {
      NumberedWordsStayBarless(entries[..|entries| - 1], width, n);
    }
  }

  lemma {:induction false} NumberKeysStayBarless(entries: seq<string>, width: Width, k: string)
    requires AllBarless(entries) && WordKeyedNumbers(entries, width).Ok? && k in WordKeyedNumbers(entries, width).value
    ensures Barless(k)
  {
    hide Entry;
    hide Barless;
    hide ParseInt;
    hide Field;
    var last := entries[|entries| - 1];
    FieldsAreBarless(last);
    if Entry(last).Some? {
      FieldIsBarless(Entry(last).value.0);
    }
    if k in WordKeyedNumbers(entries[..|entries| - 1], width).value {
      NumberKeysStayBarless(entries[..|entries| - 1], width, k);
    }
  }

  // ----- dispatch on the map type -----

  function MapTypeText(keyType: string, valueType: string): string {
    keyType + "=" + valueType
  }

  function IntText(width: Width): string {
    if width.W32? then "int32" else "int64"
  }

  /** A side of a map type: a name without spaces or `=`. */
  predicate TypeName(t: string) {
    t != "" && forall c | c in t :: !IsSpace(c) && c != '='
  }

  lemma SidesOfText(keyType: string, valueType: string)
    requires TypeName(keyType) && TypeName(valueType)
    ensures MapType(MapTypeText(keyType, valueType))
    ensures MapSides(MapTypeText(keyType, valueType)) == (keyType, valueType)
  {
    var typ := MapTypeText(keyType, valueType);
    assert typ[|keyType|] == '=';
    SplitJoinedClean([keyType, valueType], '=');
    assert Join([keyType, valueType], '=') == typ;
    hide Split;
    assert keyType[0] in keyType && keyType[|keyType| - 1] in keyType;
    assert valueType[0] in valueType && valueType[|valueType| - 1] in valueType;
    TrimSpaceKeeps(keyType);
    TrimSpaceKeeps(valueType);
  }

  lemma TypeNames(width: Width)
    ensures TypeName("string") && TypeName(IntText(width))
  {}

  /** What a map cell is, by the sides of its type. */
  lemma MapFormBySides(raw: string, typ: string, width: Width)
    requires MapType(typ)
    ensures MapSides(typ) == ("string", "string") ==>
              CellOfMap(raw, typ) ==
                Ok(if Blank(raw) then AnyMap(map[]) else WordsToWords(WordKeyedWords(Split(raw, '|'))))
    ensures MapSides(typ) == (IntText(width), "string") ==>
              CellOfMap(raw, typ) == if Blank(raw) then Ok(AnyMap(map[])) else NumberKeyedCell(Split(raw, '|'), width)
    ensures MapSides(typ) == ("string", IntText(width)) ==>
              CellOfMap(raw, typ) ==
                if Blank(raw) then Ok(AnyMap(map[])) else WordKeyedNumbersCell(Split(raw, '|'), width)
  {
    hide MapSides;
    hide Blank;
    hide Split;
    hide WordKeyedWords;
    hide NumberKeyedCell;
    hide WordKeyedNumbersCell;
  }

  lemma WordMapForm(raw: string)
    ensures CellOf(raw, MapTypeText("string", "string"))
         == Ok(if Blank(raw) then AnyMap(map[]) else WordsToWords(WordKeyedWords(Split(raw, '|'))))
  {
    hide MapSides;
    hide CellOf;
    hide CellOfMap;
    hide Blank;
    hide Split;
    TypeNames(W32);
    SidesOfText("string", "string");
    MapDispatch(raw, MapTypeText("string", "string"));
    MapFormBySides(raw, MapTypeText("string", "string"), W32);
  }

  lemma NumberKeyedForm(raw: string, width: Width)
    ensures CellOf(raw, MapTypeText(IntText(width), "string"))
         == if Blank(raw) then Ok(AnyMap(map[])) else NumberKeyedCell(Split(raw, '|'), width)
  {
    hide MapSides;
    hide CellOf;
    hide CellOfMap;
    hide Blank;
    hide Split;
    TypeNames(width);
    hide IntText;
    SidesOfText(IntText(width), "string");
    MapDispatch(raw, MapTypeText(IntText(width), "string"));
    MapFormBySides(raw, MapTypeText(IntText(width), "string"), width);
  }

  lemma NumberValuedForm(raw: string, width: Width)
    ensures CellOf(raw, MapTypeText("string", IntText(width)))
         == if Blank(raw) then Ok(AnyMap(map[])) else WordKeyedNumbersCell(Split(raw, '|'), width)
  {
    hide MapSides;
    hide CellOf;
    hide CellOfMap;
    hide Blank;
    hide Split;
    TypeNames(width);
    hide IntText;
    SidesOfText("string", IntText(width));
    MapDispatch(raw, MapTypeText("string", IntText(width)));
    MapFormBySides(raw, MapTypeText("string", IntText(width)), width);
  }

  // ----- printed entries split cleanly exactly when nothing holds a bar -----

  lemma WordEntryPrintsClean(k: string, v: string)
    ensures PrintsClean(WordEntry(k, v)) <==> Barless(k) && Barless(v)
  {
    assert !IsSpace('\'');
    assert forall c :: c in WordEntry(k, v) <==> c in Quoted(k) || c == '=' || c in Quoted(v);
    assert forall c :: c in Quoted(k) <==> c == '\'' || c in k;
    assert forall c :: c in Quoted(v) <==> c == '\'' || c in v;
  }

  lemma NumberKeyEntryPrintsClean(n: int, v: string)
    ensures PrintsClean(NumberKeyEntry(n, v)) <==> Barless(v)
  {
    DecimalHasNoSpace(n);
    DecimalEnds(n);
    hide DecimalInt;
    assert forall c :: c in NumberKeyEntry(n, v) <==> c in DecimalInt(n) || c == '=' || c in Quoted(v);
    assert forall c :: c in Quoted(v) <==> c == '\'' || c in v;
  }

  lemma NumberValueEntryPrintsClean(k: string, n: int)
    ensures PrintsClean(NumberValueEntry(k, n)) <==> Barless(k)
  {
    DecimalHasNoSpace(n);
    hide DecimalInt;
    assert !IsSpace('\'');
    assert forall c :: c in NumberValueEntry(k, n) <==> c in Quoted(k) || c == '=' || c in DecimalInt(n);
    assert forall c :: c in Quoted(k) <==> c == '\'' || c in k;
  }

  lemma SplitIsBarless(raw: string)
    ensures AllBarless(Split(raw, '|'))
  {
    hide Split;
    hide Barless;
    forall i | 0 <= i < |Split(raw, '|')| ensures Barless(Split(raw, '|')[i]) { PartsAreBarless(raw, i); }
  }

  // ----- a map that reads back as itself has only separable pairs -----

  lemma {:induction false} ReadPairHasEntry(entries: seq<string>, k: string)
    requires k in WordKeyedWords(entries)
    ensures exists i :: 0 <= i < |entries| && Fields(entries[i]) == Some((k, WordKeyedWords(entries)[k]))
  {
    hide Fields;
    var last := |entries| - 1;
    if Fields(entries[last]).None? || Fields(entries[last]).value.0 != k {
      ReadPairHasEntry(entries[..last], k);
      var i :| 0 <= i < last && Fields(entries[..last][i]) == Some((k, WordKeyedWords(entries[..last])[k]));
      assert Fields(entries[i]) == Some((k, WordKeyedWords(entries)[k]));
    }
  }

  lemma {:induction false} SpacesHoldNoQuotes(s: string)
    requires forall c | c in s :: IsSpace(c)
    ensures QuoteCount(s) == 0
  {
    assert !IsSpace('\'') && !IsSpace('"');
    NoQuotesCountZero(s);
  }

  lemma TrimKeepsQuotes(s: string)
    ensures QuoteCount(TrimSpace(s)) == QuoteCount(s)
    ensures |TrimSpace(s)| <= |s| && (|TrimSpace(s)| == |s| ==> TrimSpace(s) == s)
  {
    var a := TrimLeftDrops(s);
    var b := TrimRightDrops(TrimLeft(s));
    SpacesHoldNoQuotes(a);
    SpacesHoldNoQuotes(b);
    QuoteCountAdds(a, TrimLeft(s));
    QuoteCountAdds(TrimSpace(s), b);
    hide QuoteCount;
    hide TrimLeft;
    hide TrimRight;
    assert |s| == |a| + |TrimSpace(s)| + |b|;
    if |TrimSpace(s)| == |s| {
      assert a == "" && b == "";
      assert "" + TrimLeft(s) == TrimLeft(s) && TrimSpace(s) + "" == TrimSpace(s);
    }
  }

  /** Text `b` is further along than `a`: it has more quotes, or as many in less text. */
  predicate Climbs(a: string, b: string) {
    QuoteCount(a) < QuoteCount(b) || (QuoteCount(a) == QuoteCount(b) && |b| < |a|)
  }

  lemma QuotedCount(s: string)
    ensures QuoteCount(Quoted(s)) == QuoteCount(s) + 2
  {
    QuoteCountAdds("'" + s, "'");
    QuoteCountAdds("'", s);
    assert "'"[..0] == "";
  }

  /** Reading a side and printing it again never loses quotes, and leaves it as it was or climbs. */
  lemma SideClimbs(x: string)
    requires x != "" && (x[0] == '\'' || x[|x| - 1] == '\'')
    ensures Quoted(Field(x)) == x || Climbs(x, Quoted(Field(x)))
  {
    TrimKeepsQuotes(x);
    var t := TrimSpace(x);
    TrimKeepsEnd(x);
    QuotedCount(t);
    hide TrimSpace;
    hide QuoteCount;
    if |t| >= 2 && t[0] == '\'' && t[|t| - 1] == '\'' {
      assert Quoted(Field(x)) == t;
    } else {
      assert Field(x) == t;
    }
  }

  /** A printing end of a text is still its end after trimming. */
  lemma TrimKeepsEnd(x: string)
    requires x != "" && (x[0] == '\'' || x[|x| - 1] == '\'')
    ensures var t := TrimSpace(x); t != "" && (t[0] == '\'' || t[|t| - 1] == '\'')
  {
    assert !IsSpace('\'');
    if x[0] == '\'' {
      TrimRightPrefix(x);
    } else {
      var a := TrimLeftDrops(x);
      var y := TrimLeft(x);
      assert x[|x| - 1] in x && (y == "" ==> x == a);
      assert y[|y| - 1] == x[|x| - 1];
    }
  }

  lemma JoinedClimbs(h: string, h': string, t: string, t': string)
    requires (h' == h || Climbs(h, h')) && (t' == t || Climbs(t, t'))
    ensures h' + "=" + t' == h + "=" + t || Climbs(h + "=" + t, h' + "=" + t')
  {
    CountPastEquals(h, t);
    CountPastEquals(h', t');
    hide QuoteCount;
  }

  /** Reading an entry and printing what was read leaves it as it was or climbs. */
  lemma EntryClimbs(k: string, v: string)
    ensures var r := Fields(WordEntry(k, v));
            r.Some? ==> WordEntry(r.value.0, r.value.1) == WordEntry(k, v)
                        || Climbs(WordEntry(k, v), WordEntry(r.value.0, r.value.1))
  {
    var s := WordEntry(k, v);
    QuotedEnds(k);
    QuotedEnds(v);
    assert s[0] == '\'' && s[|s| - 1] == '\'' && !IsSpace('\'');
    TrimSpaceKeeps(s);
    SplitPointInside(s);
    hide SplitPoint;
    hide Field;
    hide TrimSpace;
    hide Climbs;
    if Fields(s).Some? {
      var i := SplitPoint(s);
      assert s == s[..i] + "=" + s[i + 1..];
      SideClimbs(s[..i]);
      SideClimbs(s[i + 1..]);
      JoinedClimbs(s[..i], Quoted(Field(s[..i])), s[i + 1..], Quoted(Field(s[i + 1..])));
    }
  }

  function Below(n: nat): (s: set<nat>)
    ensures forall j: nat :: j in s <==> j < n
  {
    if n == 0 then {} else Below(n - 1) + {n - 1}
  }

  predicate OneToOne(rho: seq<nat>) {
    forall i, j | 0 <= i < |rho| && 0 <= j < |rho| && i != j :: rho[i] != rho[j]
  }

  predicate Within(rho: seq<nat>, s: set<nat>) {
    forall j | j in s :: j < |rho| && rho[j] in s
  }

  function Image(rho: seq<nat>, s: set<nat>): set<nat>
    requires forall j | j in s :: j < |rho|
  {
    set j | j in s :: rho[j]
  }

  lemma NotHitBefore(rho: seq<nat>, s: set<nat>, x: nat)
    requires OneToOne(rho) && x < |rho| && x !in s && forall j | j in s :: j < |rho|
    ensures rho[x] !in Image(rho, s)
    ensures Image(rho, s + {x}) == Image(rho, s) + {rho[x]}
  {}

  lemma {:induction false} ImageSize(rho: seq<nat>, s: set<nat>)
    requires OneToOne(rho) && forall j | j in s :: j < |rho|
    ensures |Image(rho, s)| == |s|
  {
    hide OneToOne;
    if s == {} {
      assert Image(rho, s) == {};
    } else {
      var x :| x in s;
      var fewer := s - {x};
      ImageSize(rho, fewer);
      NotHitBefore(rho, fewer, x);
      hide Image;
      assert s == fewer + {x};
    }
  }

  /** A one-to-one map of a finite set into itself misses nothing. */
  lemma NothingMissed(rho: seq<nat>, s: set<nat>, x: nat) returns (j: nat)
    requires OneToOne(rho) && Within(rho, s) && x in s
    ensures j in s && rho[j] == x
  {
    ImageSize(rho, s);
    hide OneToOne;
    assert |s - {x}| == |s| - 1;
    if x !in Image(rho, s) {
      SubsetSize(Image(rho, s), s - {x});
    }
    j :| j in s && rho[j] == x;
  }

  lemma {:induction false} SubsetSize(a: set<nat>, b: set<nat>)
    requires a <= b
    ensures |a| <= |b|
  {
    assert b == a + (b - a);
  }

  /** What climbs or stays at every step of a one-to-one map stays at every step. */
  lemma NobodyClimbs(es: seq<string>, rho: seq<nat>, y: nat)
    requires |es| == |rho| && OneToOne(rho) && y < |es|
    requires forall j | 0 <= j < |es| :: rho[j] < |es| && (es[j] == es[rho[j]] || Climbs(es[rho[j]], es[j]))
    ensures es[y] == es[rho[y]]
  {
    hide Climbs;
    if es[y] != es[rho[y]] {
      var x := rho[y];
      var low := set j | j in Below(|es|) && !Climbs(es[x], es[j]);
      assert forall j | j in low :: rho[j] in low by {
        forall j | j in low ensures rho[j] in low { ClimbsOn(es[x], es[rho[j]], es[j]); }
      }
      ClimbsOn(es[x], es[x], es[x]);
      var j := NothingMissed(rho, low, x);
    }
  }

  /** Entry `rho[j]` of the printed map reads as pair `j`. */
  ghost predicate Sources(pairs: seq<(string, string)>, rho: seq<nat>) {
    && |rho| == |pairs|
    && forall j | 0 <= j < |pairs| ::
         rho[j] < |pairs| && Fields(WordEntry(pairs[rho[j]].0, pairs[rho[j]].1)) == Some(pairs[j])
  }

  lemma FindSources(pairs: seq<(string, string)>) returns (rho: seq<nat>)
    requires DistinctKeys(pairs) && WordKeyedWords(WordEntries(pairs)) == MapOf(pairs)
    ensures Sources(pairs, rho)
  {
    hide Fields;
    hide WordKeyedWords;
    hide MapOf;
    hide WordEntry;
    rho := [];
    for n := 0 to |pairs|
      invariant |rho| == n
      invariant forall j | 0 <= j < n ::
                  rho[j] < |pairs| && Fields(WordEntry(pairs[rho[j]].0, pairs[rho[j]].1)) == Some(pairs[j])
    {
      MapOfAt(pairs, n);
      ReadPairHasEntry(WordEntries(pairs), pairs[n].0);
      var i :| 0 <= i < |pairs| && Fields(WordEntries(pairs)[i]) == Some((pairs[n].0, pairs[n].1));
      rho := rho + [i];
    }
  }

  /** A printed map that reads back as itself has only separable pairs. */
  lemma ReadBackSeparates(pairs: seq<(string, string)>, x: nat)
    requires x < |pairs| && DistinctKeys(pairs) && WordKeyedWords(WordEntries(pairs)) == MapOf(pairs)
    ensures Separable(Quoted(pairs[x].0), Quoted(pairs[x].1))
  {
    var rho := FindSources(pairs);
    hide WordKeyedWords;
    hide MapOf;
    hide Fields;
    hide Separable;
    hide Quoted;
    SourcesOneToOne(pairs, rho);
    var y := NothingMissed(rho, Below(|pairs|), x);
    WordEntryExactly(pairs[x].0, pairs[x].1);
    ReadsAsItself(pairs, rho, y);
  }

  lemma SourcesOneToOne(pairs: seq<(string, string)>, rho: seq<nat>)
    requires DistinctKeys(pairs) && Sources(pairs, rho)
    ensures OneToOne(rho) && Within(rho, Below(|pairs|))
  {
    hide Fields;
    hide WordEntry;
  }

  /** An entry does not read as another pair: reading climbs, and what climbs cannot come round. */
  lemma ReadsAsItself(pairs: seq<(string, string)>, rho: seq<nat>, y: nat)
    requires DistinctKeys(pairs) && Sources(pairs, rho) && y < |pairs|
    ensures rho[y] == y
  {
    SourcesOneToOne(pairs, rho);
    var es := WordEntries(pairs);
    EntriesClimb(pairs, rho);
    NobodyClimbs(es, rho, y);
    hide Fields;
    hide WordEntry;
    hide Climbs;
    var w := NothingMissed(rho, Below(|pairs|), y);
    assert Fields(es[y]) == Some(pairs[w]) && Fields(es[rho[y]]) == Some(pairs[y]);
  }

  lemma EntriesClimb(pairs: seq<(string, string)>, rho: seq<nat>)
    requires Sources(pairs, rho)
    ensures var es := WordEntries(pairs);
            forall j | 0 <= j < |pairs| :: es[j] == es[rho[j]] || Climbs(es[rho[j]], es[j])
  {
    hide Fields;
    hide WordEntry;
    hide Climbs;
    var es := WordEntries(pairs);
    forall j | 0 <= j < |pairs| ensures es[j] == es[rho[j]] || Climbs(es[rho[j]], es[j]) {
      EntryClimbs(pairs[rho[j]].0, pairs[rho[j]].1);
    }
  }

  lemma ClimbsOn(a: string, b: string, c: string)
    ensures Climbs(a, b) && (c == b || Climbs(b, c)) ==> Climbs(a, c)
    ensures !Climbs(a, a)
  {
    hide QuoteCount;
  }

  // ----- the theorems -----

  /**
    A string-to-string map prints and parses back exactly when no key and no value holds a `|` and
    every pair is separable. The empty map prints as the blank cell, which parses to an empty untyped map.
   */
  lemma WordMapRoundTrip(m: map<string, string>, pairs: seq<(string, string)>)
    requires Lists(pairs, m)
    ensures CellOf(Cells(WordEntries(pairs)), MapTypeText("string", "string")) ==
            Ok(if pairs == [] then AnyMap(m) else WordsToWords(m))
            <==> forall i | 0 <= i < |pairs| ::
                   Barless(pairs[i].0) && Barless(pairs[i].1) && Separable(Quoted(pairs[i].0), Quoted(pairs[i].1))
  {
    var es := WordEntries(pairs);
    WordMapForm(Cells(es));
    hide Separable;
    hide CellOf;
    hide Split;
    hide WordKeyedWords;
    hide Barless;
    hide PrintsClean;
    hide WordEntry;
    hide Quoted;
    hide MapTypeText;
    if pairs != [] {
      hide Cells;
      hide Blank;
      hide MapOf;
      forall i | 0 <= i < |pairs| ensures PrintsClean(es[i]) <==> Barless(pairs[i].0) && Barless(pairs[i].1) {
        WordEntryPrintsClean(pairs[i].0, pairs[i].1);
      }
      if CellOf(Cells(es), MapTypeText("string", "string")) == Ok(WordsToWords(m)) {
        SplitIsBarless(Cells(es));
        forall i | 0 <= i < |pairs| ensures Barless(pairs[i].0) && Barless(pairs[i].1) {
          MapOfAt(pairs, i);
          WordsStayBarless(Split(Cells(es), '|'), pairs[i].0);
        }
        CleanPiecesSplit(es);
        forall i | 0 <= i < |pairs| ensures Separable(Quoted(pairs[i].0), Quoted(pairs[i].1)) {
          ReadBackSeparates(pairs, i);
        }
      } else if forall i | 0 <= i < |pairs| ::
              Barless(pairs[i].0) && Barless(pairs[i].1) && Separable(Quoted(pairs[i].0), Quoted(pairs[i].1)) {
        CleanPiecesSplit(es);
        WordEntriesParse(pairs);
      }
    }
  }

  /** Quote characters in the values are harmless: keys without them always separate. */
  lemma QuotelessKeysRoundTrip(m: map<string, string>, pairs: seq<(string, string)>)
    requires Lists(pairs, m) && forall i | 0 <= i < |pairs| :: Quoteless(pairs[i].0)
    ensures CellOf(Cells(WordEntries(pairs)), MapTypeText("string", "string")) ==
            Ok(if pairs == [] then AnyMap(m) else WordsToWords(m))
            <==> forall i | 0 <= i < |pairs| :: Barless(pairs[i].0) && Barless(pairs[i].1)
  {
    hide Separable;
    hide CellOf;
    hide Lists;
    hide Cells;
    forall i | 0 <= i < |pairs| ensures Separable(Quoted(pairs[i].0), Quoted(pairs[i].1)) {
      QuotelessKeySeparates(pairs[i].0, Quoted(pairs[i].1));
    }
    WordMapRoundTrip(m, pairs);
  }

  /** An int-keyed map prints and parses back exactly when no value holds a `|`. */
  lemma NumberKeyedMapRoundTrip(m: map<int, string>, pairs: seq<(int, string)>, width: Width)
    requires Lists(pairs, m) && forall i | 0 <= i < |pairs| :: width.Holds(pairs[i].0)
    ensures CellOf(Cells(NumberKeyEntries(pairs)), MapTypeText(IntText(width), "string"))
            == Ok(if pairs == [] then AnyMap(map[]) else NumberToWords(width, m))
            <==> forall i | 0 <= i < |pairs| :: Barless(pairs[i].1)
  {
    var es := NumberKeyEntries(pairs);
    NumberKeyedForm(Cells(es), width);
    NumberKeyEntriesParse(pairs, width);
    hide CellOf;
    hide Split;
    hide NumberKeyed;
    hide Barless;
    hide PrintsClean;
    hide NumberKeyEntry;
    hide MapTypeText;
    if pairs != [] {
      hide Cells;
      hide Blank;
      hide MapOf;
      forall i | 0 <= i < |pairs| ensures PrintsClean(es[i]) <==> Barless(pairs[i].1) {
        NumberKeyEntryPrintsClean(pairs[i].0, pairs[i].1);
      }
      if forall i | 0 <= i < |pairs| :: Barless(pairs[i].1) {
        CleanPiecesSplit(es);
      } else if CellOf(Cells(es), MapTypeText(IntText(width), "string")) == Ok(NumberToWords(width, m)) {
        SplitIsBarless(Cells(es));
        forall i | 0 <= i < |pairs| ensures Barless(pairs[i].1) {
          MapOfAt(pairs, i);
          NumberedWordsStayBarless(Split(Cells(es), '|'), width, pairs[i].0);
        }
      }
    }
  }

  /** A string-to-int entry cut inside its key leaves a quote in the number. */
  lemma InseparableNumberFails(k: string, n: int, width: Width)
    requires !Separable(Quoted(k), DecimalInt(n))
    ensures var e := Entry(NumberValueEntry(k, n)); e.Some? && ParseInt(TrimSpace(e.value.1), width).None?
  {
    var s, q := NumberValueEntry(k, n), |k| + 1;
    SplitExactly(Quoted(k), DecimalInt(n));
    hide Separable;
    QuotedEnds(k);
    DecimalEnds(n);
    DecimalHasNoSpace(n);
    assert s[0] == Quoted(k)[0] && s[|s| - 1] == DecimalInt(n)[|DecimalInt(n)| - 1];
    TrimSpaceKeeps(s);
    SplitPointInside(s);
    hide TrimSpace;
    assert s[q + 1] == '=' && s[q] == '\'';
    var i := SplitPoint(s);
    hide SplitPoint;
    NoEqualsPast(k, n);
    assert i < q;
    assert s[i + 1..][q - i - 1] == '\'';
    TrimSpaceChars(s[i + 1..]);
    assert !IsSpace('\'');
    QuoteIsNoNumber(TrimSpace(s[i + 1..]), width);
  }

  lemma NoEqualsPast(k: string, n: int)
    ensures forall j | |k| + 2 < j < |NumberValueEntry(k, n)| :: NumberValueEntry(k, n)[j] != '='
  {
    DecimalHasNoSpace(n);
    hide DecimalInt;
    assert forall j | |k| + 2 < j < |NumberValueEntry(k, n)| :: NumberValueEntry(k, n)[j] == DecimalInt(n)[j - |k| - 3];
  }

  lemma QuoteIsNoNumber(t: string, width: Width)
    requires '\'' in t
    ensures ParseInt(t, width).None?
  {
    var j :| 0 <= j < |t| && t[j] == '\'';
    hide DigitsValue;
    if j > 0 {
      assert t[1..][j - 1] == '\'';
    }
  }

  lemma {:induction false} BadEntryFails(entries: seq<string>, i: nat, width: Width)
    requires i < |entries| && Entry(entries[i]).Some? && ParseInt(TrimSpace(Entry(entries[i]).value.1), width).None?
    ensures WordKeyedNumbers(entries, width).Err?
  {
    hide Entry;
    hide Field;
    hide ParseInt;
    hide TrimSpace;
    if i < |entries| - 1 {
      BadEntryFails(entries[..|entries| - 1], i, width);
    }
  }

  /** A string-to-int map prints and parses back exactly when no key holds a `|` and every pair is separable. */
  lemma NumberValuedMapRoundTrip(m: map<string, int>, pairs: seq<(string, int)>, width: Width)
    requires Lists(pairs, m) && forall i | 0 <= i < |pairs| :: width.Holds(pairs[i].1)
    ensures CellOf(Cells(NumberValueEntries(pairs)), MapTypeText("string", IntText(width)))
            == Ok(if pairs == [] then AnyMap(map[]) else WordsToNumber(width, m))
            <==> forall i | 0 <= i < |pairs| ::
              Barless(pairs[i].0) && Separable(Quoted(pairs[i].0), DecimalInt(pairs[i].1))
  {
    var es := NumberValueEntries(pairs);
    NumberValuedForm(Cells(es), width);
    hide Separable;
    hide CellOf;
    hide Split;
    hide WordKeyedNumbers;
    hide Barless;
    hide PrintsClean;
    hide NumberValueEntry;
    hide Quoted;
    hide MapTypeText;
    hide DecimalInt;
    if pairs != [] {
      hide Cells;
      hide Blank;
      hide MapOf;
      forall i | 0 <= i < |pairs| ensures PrintsClean(es[i]) <==> Barless(pairs[i].0) {
        NumberValueEntryPrintsClean(pairs[i].0, pairs[i].1);
      }
      if CellOf(Cells(es), MapTypeText("string", IntText(width))) == Ok(WordsToNumber(width, m)) {
        SplitIsBarless(Cells(es));
        forall i | 0 <= i < |pairs| ensures Barless(pairs[i].0) {
          MapOfAt(pairs, i);
          NumberKeysStayBarless(Split(Cells(es), '|'), width, pairs[i].0);
        }
        CleanPiecesSplit(es);
        forall i | 0 <= i < |pairs| ensures Separable(Quoted(pairs[i].0), DecimalInt(pairs[i].1)) {
          ReadNumbersSeparate(pairs, i, width);
        }
      } else if forall i | 0 <= i < |pairs| ::
              Barless(pairs[i].0) && Separable(Quoted(pairs[i].0), DecimalInt(pairs[i].1)) {
        CleanPiecesSplit(es);
        NumberValueEntriesParse(pairs, width);
      }
    }
  }

  lemma ReadNumbersSeparate(pairs: seq<(string, int)>, i: nat, width: Width)
    requires i < |pairs| && WordKeyedNumbers(NumberValueEntries(pairs), width).Ok?
    ensures Separable(Quoted(pairs[i].0), DecimalInt(pairs[i].1))
  {
    hide Separable;
    hide Entry;
    hide ParseInt;
    hide TrimSpace;
    hide WordKeyedNumbers;
    hide NumberValueEntry;
    hide Quoted;
    hide DecimalInt;
    if !Separable(Quoted(pairs[i].0), DecimalInt(pairs[i].1)) {
      InseparableNumberFails(pairs[i].0, pairs[i].1, width);
      BadEntryFails(NumberValueEntries(pairs), i, width);
    }
  }

  lemma QuotelessNumberValuedRoundTrip(m: map<string, int>, pairs: seq<(string, int)>, width: Width)
    requires Lists(pairs, m) && forall i | 0 <= i < |pairs| :: width.Holds(pairs[i].1) && Quoteless(pairs[i].0)
    ensures CellOf(Cells(NumberValueEntries(pairs)), MapTypeText("string", IntText(width)))
            == Ok(if pairs == [] then AnyMap(map[]) else WordsToNumber(width, m))
            <==> forall i | 0 <= i < |pairs| :: Barless(pairs[i].0)
  {
    hide Separable;
    hide CellOf;
    hide Lists;
    hide Cells;
    forall i | 0 <= i < |pairs| ensures Separable(Quoted(pairs[i].0), DecimalInt(pairs[i].1)) {
      QuotelessKeySeparates(pairs[i].0, DecimalInt(pairs[i].1));
    }
    NumberValuedMapRoundTrip(m, pairs, width);
  }

  // ----- the theorems, of maps rather than listings -----

  /** The map printed in this order parses back. */
  predicate WordsReadBack(m: map<string, string>, pairs: seq<(string, string)>) {
    CellOf(Cells(WordEntries(pairs)), MapTypeText("string", "string")) ==
      Ok(if pairs == [] then AnyMap(m) else WordsToWords(m))
  }

  ghost predicate CleanWords(k: string, v: string) {
    Barless(k) && Barless(v) && Separable(Quoted(k), Quoted(v))
  }

  lemma ListedPairs<K, V>(m: map<K, V>, pairs: seq<(K, V)>)
    requires Lists(pairs, m)
    ensures forall i | 0 <= i < |pairs| :: pairs[i].0 in m && m[pairs[i].0] == pairs[i].1
    ensures forall k | k in m :: exists i :: 0 <= i < |pairs| && pairs[i] == (k, m[k])
  {
    forall i | 0 <= i < |pairs| ensures pairs[i].0 in m && m[pairs[i].0] == pairs[i].1 { MapOfAt(pairs, i); }
    forall k | k in m ensures exists i :: 0 <= i < |pairs| && pairs[i] == (k, m[k]) {
      MapOfKeys(pairs, k);
      var i :| 0 <= i < |pairs| && pairs[i].0 == k;
      assert pairs[i] == (k, m[k]);
    }
  }

  /** Every string-to-string map prints and parses back, in one order or in all, exactly when its strings allow it. */
  lemma EveryWordMap(m: map<string, string>)
    ensures (exists pairs :: Lists(pairs, m) && WordsReadBack(m, pairs)) <==> forall k | k in m :: CleanWords(k, m[k])
    ensures (forall pairs | Lists(pairs, m) :: WordsReadBack(m, pairs)) <==> forall k | k in m :: CleanWords(k, m[k])
  {
    var listed := Listing(m);
    forall pairs | Lists(pairs, m) ensures WordsReadBack(m, pairs) <==> forall k | k in m :: CleanWords(k, m[k]) {
      WordMapRoundTrip(m, pairs);
      ListedPairs(m, pairs);
      hide Lists;
      hide WordsReadBack;
      hide Separable;
      hide Barless;
      hide Quoted;
    }
    hide WordsReadBack;
    hide CleanWords;
    hide Lists;
  }

  predicate NumberKeyedReadsBack(m: map<int, string>, width: Width, pairs: seq<(int, string)>) {
    CellOf(Cells(NumberKeyEntries(pairs)), MapTypeText(IntText(width), "string"))
    == Ok(if pairs == [] then AnyMap(map[]) else NumberToWords(width, m))
  }

  /**
    Every map of in-range int keys prints and parses back, in one order or in all, exactly when no value
    holds a `|`.
   */
  lemma EveryNumberKeyedMap(m: map<int, string>, width: Width)
    requires forall n | n in m :: width.Holds(n)
    ensures (exists pairs :: Lists(pairs, m) && NumberKeyedReadsBack(m, width, pairs)) <==>
            forall n | n in m :: Barless(m[n])
    ensures (forall pairs | Lists(pairs, m) :: NumberKeyedReadsBack(m, width, pairs)) <==>
            forall n | n in m :: Barless(m[n])
  {
    var listed := Listing(m);
    forall pairs | Lists(pairs, m)
      ensures NumberKeyedReadsBack(m, width, pairs) <==> forall n | n in m :: Barless(m[n])
    {
      ListedPairs(m, pairs);
      NumberKeyedMapRoundTrip(m, pairs, width);
      hide Lists;
      hide CellOf;
      hide Cells;
      hide Barless;
    }
    hide NumberKeyedReadsBack;
    hide Barless;
    hide Lists;
  }

  predicate NumberValuedReadsBack(m: map<string, int>, width: Width, pairs: seq<(string, int)>) {
    CellOf(Cells(NumberValueEntries(pairs)), MapTypeText("string", IntText(width)))
    == Ok(if pairs == [] then AnyMap(map[]) else WordsToNumber(width, m))
  }

  ghost predicate CleanKey(k: string, n: int) {
    Barless(k) && Separable(Quoted(k), DecimalInt(n))
  }

  /**
    Every map of strings to in-range ints prints and parses back, in one order or in all, exactly when its
    keys allow it.
   */
  lemma EveryNumberValuedMap(m: map<string, int>, width: Width)
    requires forall k | k in m :: width.Holds(m[k])
    ensures (exists pairs :: Lists(pairs, m) && NumberValuedReadsBack(m, width, pairs)) <==>
            forall k | k in m :: CleanKey(k, m[k])
    ensures (forall pairs | Lists(pairs, m) :: NumberValuedReadsBack(m, width, pairs)) <==>
            forall k | k in m :: CleanKey(k, m[k])
  {
    var listed := Listing(m);
    forall pairs | Lists(pairs, m)
      ensures NumberValuedReadsBack(m, width, pairs) <==> forall k | k in m :: CleanKey(k, m[k])
    {
      ListedPairs(m, pairs);
      NumberValuedMapRoundTrip(m, pairs, width);
      hide Lists;
      hide CellOf;
      hide Cells;
      hide Barless;
      hide Separable;
      hide Quoted;
    }
    hide NumberValuedReadsBack;
    hide CleanKey;
    hide Lists;
  }
}
