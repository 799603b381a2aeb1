/**
  What every kind of cell reads as, said of the raw text alone: numerals and blanks, quotes and bars,
  and for maps the entries, the sides of the type and the first entry that is wrong.
 */
module CellMeaning {
  import opened Wrappers
  import opened Text
  import opened TextLaws
  import opened CellParser
  import opened CellLaws

  // ----- quotes and fields -----

  /** `core` is `f` in a pair of equal quotes. */
  predicate InQuotes(core: string, f: string) {
    core == "'" + f + "'" || core == "\"" + f + "\""
  }

  /** `f` is what `core` holds: the text in its quotes, or all of it when no pair of quotes encloses it. */
  ghost predicate Holds(core: string, f: string) {
    InQuotes(core, f) || (core == f && forall g: string :: !InQuotes(core, g))
  }

  /** `f` is the field that `s` writes: trimmed, then without its quotes. */
  ghost predicate Writes(s: string, f: string) {
    exists core: string :: Trimmed(s, core) && Holds(core, f)
  }

  lemma UnquoteExactly(core: string, f: string)
    ensures Unquote(core) == f <==> Holds(core, f)
  {
    var n := |core|;
    if n >= 2 && ((core[0] == '\'' && core[n - 1] == '\'') || (core[0] == '"' && core[n - 1] == '"')) {
      var inner := core[1..n - 1];
      assert core == [core[0]] + inner + [core[n - 1]];
      assert InQuotes(core, inner);
      OneInside(core, inner, f);
    } else {
      forall g: string {
        QuotedEnds(core, g);
      }
    }
  }

  lemma QuotedEnds(core: string, g: string)
    ensures InQuotes(core, g) ==>
              |core| >= 2 && core[0] == core[|core| - 1] && (core[0] == '\'' || core[0] == '"')
  {}

  lemma OneInside(core: string, f: string, g: string)
    requires InQuotes(core, f)
    ensures InQuotes(core, g) <==> f == g
  {
    assert core[1..|core| - 1] == f;
    if InQuotes(core, g) { assert core[1..|core| - 1] == g; }
  }

  /** A field is the trimmed text without a pair of equal outer quotes. */
  lemma FieldExactly(s: string, f: string)
    ensures Field(s) == f <==> Writes(s, f)
  {
    hide Unquote;
    hide Trimmed;
    hide Holds;
    TrimSpaceExactly(s, TrimSpace(s));
    UnquoteExactly(TrimSpace(s), f);
    if Writes(s, f) {
      var core: string :| Trimmed(s, core) && Holds(core, f);
      TrimSpaceExactly(s, core);
    }
  }

  function QuotesIn(s: string): set<nat> {
    set k: nat | k < |s| && (s[k] == '\'' || s[k] == '"')
  }

  /** Quotes are counted whatever their kind. */
  lemma {:induction false} QuotesCounted(s: string)
    ensures QuoteCount(s) == |QuotesIn(s)|
  {
    if s == "" {
      assert QuotesIn(s) == {};
    } else {
      var before, last := s[..|s| - 1], |s| - 1;
      QuotesCounted(before);
      assert QuotesIn(s) == QuotesIn(before) + if s[last] == '\'' || s[last] == '"' then {last} else {};
    }
  }

  /** An entry splits at its first `=` with an even number of quote characters before it. */
  lemma SplitsOutsideQuotes(s: string, i: nat)
    requires i < |s| && s[i] == '=' && |QuotesIn(s[..i])| % 2 == 0
    requires forall k: nat | k < i && s[k] == '=' :: |QuotesIn(s[..k])| % 2 == 1
    ensures SplitKeyValue(s) == Some((s[..i], s[i + 1..]))
  {
    hide QuotesIn;
    hide QuoteCount;
    QuotesCounted(s[..i]);
    forall k: nat | k < i ensures !BareEquals(s, k) {
      QuotesCounted(s[..k]);
    }
    assert BareEquals(s, i);
    SplitsAtFirstBareEquals(s);
  }

  /** With an odd number before each of them it splits at its first `=` after all. */
  lemma SplitsAnyway(s: string, i: nat)
    requires i < |s| && s[i] == '=' && forall k: nat | k < i :: s[k] != '='
    requires forall k: nat | k < |s| && s[k] == '=' :: |QuotesIn(s[..k])| % 2 == 1
    ensures SplitKeyValue(s) == Some((s[..i], s[i + 1..]))
  {
    hide QuotesIn;
    hide QuoteCount;
    forall k: nat ensures !BareEquals(s, k) {
      if k < |s| { QuotesCounted(s[..k]); }
    }
    SplitsAtFirstBareEquals(s);
  }

  // ----- single values -----

  function IntName(width: Width): string {
    match width
    case W32 => "int32"
    case W64 => "int64"
  }

  /** A blank text reads as zero, any other as the numeral it is. */
  ghost predicate Reads(s: string, width: Width, n: int) {
    if OnlySpaces(s) then n == 0 else Numeral(s, n) && InRange(width, n)
  }

  /** An int cell reads as the number its text writes, or it is an error about that text. */
  lemma IntCellExactly(raw: string, width: Width, n: int)
    ensures CellOf(raw, IntName(width)) == Ok(Number(width, n)) <==> Reads(raw, width, n)
    ensures CellOf(raw, IntName(width)) == Err(InvalidValue(raw)) <==> forall m: int :: !Reads(raw, width, m)
    ensures CellOf(raw, IntName(width)).Ok? ==>
              CellOf(raw, IntName(width)).value.Number? && CellOf(raw, IntName(width)).value.width == width
  {
    IntDispatch(raw, width);
    hide CellOf;
    BlankIsSpaces(raw);
    ParseIntExactly(raw, width, n);
    if Blank(raw) {
      assert Reads(raw, width, 0);
    } else {
      forall m: int ensures ParseInt(raw, width) == Some(m) <==> Reads(raw, width, m) {
        ParseIntExactly(raw, width, m);
      }
    }
    hide Blank;
    hide ParseInt;
    hide OnlySpaces;
    hide Numeral;
    hide InRange;
  }

  lemma IntDispatch(raw: string, width: Width)
    ensures CellOf(raw, IntName(width)) == CellOfNumber(raw, width)
  {
    hide CellOfNumber;
  }

  /** A printed number reads back. */
  lemma NumberCellRoundTrip(n: int, width: Width)
    requires InRange(width, n)
    ensures CellOf(DecimalInt(n), IntName(width)) == Ok(Number(width, n))
  {
    PrintsItsNumeral(n);
    IntCellExactly(DecimalInt(n), width, n);
    DecimalIsNotBlank(n);
    hide CellOf;
    hide DecimalInt;
  }

  lemma DecimalIsNotBlank(n: int)
    ensures !OnlySpaces(DecimalInt(n))
  {
    assert DecimalInt(n)[0] in DecimalInt(n);
    SpaceIs(DecimalInt(n)[0]);
  }

  /** The type names the parser knows. */
  const KNOWN := {"int32", "int64", "string", "time", "int32[]", "int64[]", "string[]"}

  /** Strings and cells of unknown types are kept as they are; a time is too, unless it is blank. */
  lemma PlainCells(raw: string, typ: string)
    ensures CellOf(raw, "string") == Ok(Words(raw))
    ensures CellOf(raw, "time") == if OnlySpaces(raw) then Err(TimeEmpty(raw)) else Ok(Words(raw))
    ensures typ !in KNOWN && '=' !in typ ==> CellOf(raw, typ) == Ok(Words(raw))
  {
    BlankIsSpaces(raw);
    hide Blank;
    hide OnlySpaces;
  }

  // ----- arrays -----

  function IntArrayName(width: Width): string {
    match width
    case W32 => "int32[]"
    case W64 => "int64[]"
  }

  lemma ElementReads(p: string, width: Width, n: int)
    ensures ParseElement(p, width) == Ok(n) <==> Reads(p, width, n)
    ensures ParseElement(p, width).Err? ==> ParseElement(p, width) == Err(InvalidValue(p))
  {
    BlankIsSpaces(p);
    ParseIntExactly(p, width, n);
    hide Blank;
    hide OnlySpaces;
    hide Numeral;
    hide InRange;
    hide ParseInt;
  }

  lemma {:induction false} ElementsRead(parts: seq<string>, width: Width, ns: seq<int>)
    ensures ParseElements(parts, width) == Ok(ns) <==>
            |ns| == |parts| && forall i | 0 <= i < |ns| :: Reads(parts[i], width, ns[i])
  {
    hide ParseElement;
    hide Reads;
    if parts != [] {
      var before, last := parts[..|parts| - 1], parts[|parts| - 1];
      if ns == [] {
      } else {
        ElementsRead(before, width, ns[..|ns| - 1]);
        ElementReads(last, width, ns[|ns| - 1]);
        assert ns == ns[..|ns| - 1] + [ns[|ns| - 1]];
      }
    }
  }

  /** An array of numbers has one for each piece between bars, and a blank cell has none. */
  lemma IntArrayExactly(raw: string, width: Width, ns: seq<int>)
    ensures CellOf(raw, IntArrayName(width)) == Ok(Numbers(width, ns)) <==>
            if OnlySpaces(raw) then ns == []
            else var parts := Split(raw, '|');
                 |ns| == |parts| && forall i | 0 <= i < |ns| :: Reads(parts[i], width, ns[i])
  {
    ArrayDispatch(raw, width);
    hide CellOf;
    BlankIsSpaces(raw);
    ElementsRead(Split(raw, '|'), width, ns);
    hide ParseElements;
    hide Reads;
    hide Blank;
    hide Split;
    hide OnlySpaces;
  }

  lemma ArrayDispatch(raw: string, width: Width)
    ensures CellOf(raw, IntArrayName(width)) == CellOfNumbers(raw, width)
    ensures CellOf(raw, "string[]") == Ok(CellOfWordList(raw))
  {
    hide CellOfNumbers;
    hide CellOfWordList;
  }

  ghost predicate Readable(p: string, width: Width) {
    exists n: int :: Reads(p, width, n)
  }

  /** The error of an array of numbers is about its first piece that is not one. */
  lemma FirstBadPieceDecides(raw: string, width: Width, i: nat)
    requires !OnlySpaces(raw) && i < |Split(raw, '|')|
    requires forall k | 0 <= k < i :: Readable(Split(raw, '|')[k], width)
    requires !Readable(Split(raw, '|')[i], width)
    ensures CellOf(raw, IntArrayName(width)) == Err(InvalidValue(Split(raw, '|')[i]))
  {
    var parts := Split(raw, '|');
    ArrayDispatch(raw, width);
    BlankIsSpaces(raw);
    hide CellOf;
    hide Split;
    hide Blank;
    hide OnlySpaces;
    GoodPieces(parts, width, i);
    assert parts[..i + 1][..i] == parts[..i];
    hide Readable;
    NoReading(parts[i], width);
    FirstBadElement(parts, i + 1, width);
    hide ParseElement;
  }

  lemma NoReading(p: string, width: Width)
    requires !Readable(p, width)
    ensures ParseElement(p, width) == Err(InvalidValue(p))
  {
    if ParseElement(p, width).Ok? {
      ElementReads(p, width, ParseElement(p, width).value);
    }
    ElementReads(p, width, 0);
    hide ParseElement;
  }

  lemma {:induction false} GoodPieces(parts: seq<string>, width: Width, i: nat)
    requires i <= |parts| && forall k | 0 <= k < i :: Readable(parts[k], width)
    ensures ParseElements(parts[..i], width).Ok?
  {
    hide ParseElement;
    if i > 0 {
      hide Reads;
      assert Readable(parts[i - 1], width);
      GoodPieces(parts, width, i - 1);
      assert parts[..i][..i - 1] == parts[..i - 1];
      var n: int :| Reads(parts[i - 1], width, n);
      ElementReads(parts[i - 1], width, n);
    }
  }

  lemma {:induction false} WordsRead(parts: seq<string>)
    ensures forall i | 0 <= i < |parts| :: Writes(parts[i], ParseWords(parts)[i])
  {
    hide Writes;
    hide Field;
    if parts != [] {
      WordsRead(parts[..|parts| - 1]);
      FieldExactly(parts[|parts| - 1], Field(parts[|parts| - 1]));
    }
  }

  /** An array of strings has the field of each piece between bars, and a blank cell has none. */
  lemma WordArrayExactly(raw: string)
    ensures CellOf(raw, "string[]").Ok? && CellOf(raw, "string[]").value.WordList?
    ensures var ss := CellOf(raw, "string[]").value.ss;
            if OnlySpaces(raw) then ss == []
            else var parts := Split(raw, '|');
                 |ss| == |parts| && forall i | 0 <= i < |ss| :: Writes(parts[i], ss[i])
  {
    ArrayDispatch(raw, W32);
    hide CellOf;
    BlankIsSpaces(raw);
    WordsRead(Split(raw, '|'));
    hide Split;
    hide Writes;
    hide ParseWords;
    hide Blank;
    hide OnlySpaces;
  }

  // ----- maps -----

  /**
    What an entry says once it is split into `k` and `v`: the fields that both write, the number its key
    field is, and the number its value is when that is trimmed but not unquoted.
   */
  lemma EntryMeans(entry: string, k: string, v: string, width: Width, n: int, key: string, value: string)
    requires Entry(entry) == Some((k, v))
    ensures Fields(entry) == Some((key, value)) <==> Writes(k, key) && Writes(v, value)
    ensures Writes(k, key) ==> (KeyOf(entry, width) == Some(n) <==> Numeral(key, n) && InRange(width, n))
    ensures Trimmed(v, value) ==> (NumberOf(entry, width) == Some(n) <==> Numeral(value, n) && InRange(width, n))
  {
    FieldExactly(k, key);
    FieldExactly(v, value);
    TrimSpaceExactly(v, value);
    ParseIntExactly(key, width, n);
    ParseIntExactly(value, width, n);
    hide Entry;
    hide Field;
    hide TrimSpace;
    hide ParseInt;
    hide Numeral;
    hide InRange;
    hide Writes;
    hide Trimmed;
  }

  /** The pieces of a text that starts with `before` and an `=`. */
  lemma FirstPiece(before: string, tail: string)
    requires '=' !in before
    ensures Split(before + "=" + tail, '=') == [before] + Split(tail, '=')
  {
    assert before + "=" + tail == before + ['='] + tail;
    SplitStep(before, tail, '=');
  }

  /** The sides of a map type are what stands before its first `=` and between that and the next, trimmed. */
  lemma MapSidesExactly(typ: string, before: string, after: string, rest: string)
    requires '=' !in before && '=' !in after
    requires typ == before + "=" + after || typ == before + "=" + (after + "=" + rest)
    ensures '=' in typ && Trimmed(before, MapSides(typ).0) && Trimmed(after, MapSides(typ).1)
  {
    assert typ[|before|] == '=';
    if typ == before + "=" + after {
      FirstPiece(before, after);
      SplitWhole(after, '=');
    } else {
      FirstPiece(before, after + "=" + rest);
      FirstPiece(after, rest);
    }
    hide Split;
    TrimmedAway(before);
    TrimmedAway(after);
    hide Trimmed;
  }

  /** A blank map cell is the empty untyped map, whatever its type. */
  lemma BlankMapIsEmpty(raw: string, typ: string)
    requires MapType(typ) && OnlySpaces(raw)
    ensures CellOf(raw, typ) == Ok(AnyMap(map[]))
  {
    MapDispatch(raw, typ);
    hide CellOf;
    BlankIsSpaces(raw);
  }

  predicate Pairs(m: map<string, string>, k: string, v: string) {
    k in m && m[k] == v
  }

  predicate Counts(m: map<string, int>, k: string, n: int) {
    k in m && m[k] == n
  }

  ghost predicate LastEntriesOf(entries: seq<string>, m: map<string, string>) {
    forall k: string, v: string :: Pairs(m, k, v) <==> exists i: nat :: LastSays(entries, i, k, v)
  }

  /** The combinations of sides the parser has a typed map for. */
  predicate TypedSides(sides: (string, string)) {
    sides in {("int32", "string"), ("int64", "string"), ("string", "int32"), ("string", "int64"), ("string", "string")}
  }

  /**
    A map cell of strings to strings, or of sides the parser has no typed map for, always parses: into the
    typed or the untyped map that holds what the last entry of each key says.
   */
  lemma WordMapsExact(raw: string, typ: string)
    requires MapType(typ) && !OnlySpaces(raw)
    requires MapSides(typ) == ("string", "string") || !TypedSides(MapSides(typ))
    ensures CellOf(raw, typ).Ok?
    ensures var cell := CellOf(raw, typ).value;
            if MapSides(typ) == ("string", "string")
            then cell.WordsToWords? && LastEntriesOf(Split(raw, '|'), cell.words)
            else cell.AnyMap? && LastEntriesOf(Split(raw, '|'), cell.any)
  {
    MapDispatch(raw, typ);
    hide CellOf;
    BlankIsSpaces(raw);
    WordKeyedLast(Split(raw, '|'));
    hide Split;
    hide MapSides;
    hide WordKeyedWords;
    hide LastEntriesOf;
    hide Blank;
    hide OnlySpaces;
  }

  lemma WordKeyedLast(entries: seq<string>)
    ensures LastEntriesOf(entries, WordKeyedWords(entries))
  {
    hide WordKeyedWords;
    hide LastSays;
    forall k: string, v: string
      ensures Pairs(WordKeyedWords(entries), k, v) <==> exists i: nat :: LastSays(entries, i, k, v)
    {
      LastEntryWins(entries, k, v);
    }
  }

  ghost predicate LastNumbersOf(entries: seq<string>, width: Width, m: map<string, int>) {
    forall k: string, n: int :: Counts(m, k, n) <==> exists i: nat :: LastCounts(entries, width, i, k, n)
  }

  /**
    A map cell of strings to numbers parses if and only if every entry with an `=` has an in-range number
    after it, and then holds the number of the last entry of each key.
   */
  lemma WordKeyedMapsExact(raw: string, typ: string, width: Width)
    requires MapType(typ) && !OnlySpaces(raw) && MapSides(typ) == ("string", IntName(width))
    ensures var entries, r := Split(raw, '|'), CellOf(raw, typ);
            && (r.Ok? <==> forall i | 0 <= i < |entries| && Splits(entries[i]) :: NumberOf(entries[i], width).Some?)
            && (r.Ok? ==> r.value.WordsToNumber? && r.value.width == width)
            && (r.Ok? ==> LastNumbersOf(entries, width, r.value.numbers))
  {
    WordKeyedForm(raw, typ, width);
    hide CellOf;
    WordKeyedNumbersSucceeds(Split(raw, '|'), width);
    WordKeyedCounts(Split(raw, '|'), width);
    hide Split;
    hide Splits;
    hide NumberOf;
    hide WordKeyedNumbers;
    hide LastNumbersOf;
  }

  lemma WordKeyedForm(raw: string, typ: string, width: Width)
    requires MapType(typ) && !OnlySpaces(raw) && MapSides(typ) == ("string", IntName(width))
    ensures CellOf(raw, typ) == WordKeyedNumbersCell(Split(raw, '|'), width)
  {
    MapDispatch(raw, typ);
    BlankIsSpaces(raw);
    hide CellOf;
    hide Split;
    hide MapSides;
    hide Blank;
    hide OnlySpaces;
    hide WordKeyedNumbersCell;
  }

  lemma WordKeyedCounts(entries: seq<string>, width: Width)
    ensures WordKeyedNumbers(entries, width).Ok? ==>
              LastNumbersOf(entries, width, WordKeyedNumbers(entries, width).value)
  {
    hide WordKeyedNumbers;
    hide LastCounts;
    if WordKeyedNumbers(entries, width).Ok? {
      var m := WordKeyedNumbers(entries, width).value;
      forall k: string, n: int
        ensures Counts(m, k, n) <==> exists i: nat :: LastCounts(entries, width, i, k, n)
      {
        LastNumberWins(entries, width, k, n);
      }
    }
  }

  /** The error of such a map names the key of the first entry whose number is wrong. */
  lemma FirstBadNumberDecides(entries: seq<string>, i: nat, width: Width)
    requires i < |entries| && Splits(entries[i]) && NumberOf(entries[i], width).None?
    requires forall k | 0 <= k < i && Splits(entries[k]) :: NumberOf(entries[k], width).Some?
    ensures Fields(entries[i]).Some?
    ensures WordKeyedNumbers(entries, width) == Err(InvalidValue(Fields(entries[i]).value.0))
  {
    var before := entries[..i];
    WordKeyedNumbersSucceeds(before, width);
    assert forall k | 0 <= k < i :: before[k] == entries[k];
    assert entries[..i + 1] == before + [entries[i]];
    BadNumberSpoils(before, entries[i], width);
    FirstBadNumber(entries, i + 1, width);
  }

  lemma BadNumberSpoils(before: seq<string>, last: string, width: Width)
    requires WordKeyedNumbers(before, width).Ok? && Splits(last) && NumberOf(last, width).None?
    ensures Fields(last).Some?
    ensures WordKeyedNumbers(before + [last], width) == Err(InvalidValue(Fields(last).value.0))
  {
    EntryExists(last);
    assert (before + [last])[..|before|] == before;
    hide Splits;
    hide Entry;
    hide Field;
    hide TrimSpace;
    hide ParseInt;
  }

  /** The error of an int-keyed cell is about its first entry that spoils it: a bad key, else a repeated one. */
  lemma FirstSpoilerOfCell(raw: string, typ: string, width: Width, i: nat)
    requires MapType(typ) && !OnlySpaces(raw) && MapSides(typ) == (IntName(width), "string")
    requires i < |Split(raw, '|')|
    requires AllKeysGood(Split(raw, '|')[..i], width) && !AllKeysGood(Split(raw, '|')[..i + 1], width)
    ensures var entry := Split(raw, '|')[i];
            && Fields(entry).Some?
            && var key := Fields(entry).value.0;
               CellOf(raw, typ) == Err(if KeyOf(entry, width).None? then InvalidValue(key) else DuplicateKey(key))
  {
    NumberKeyedForm(raw, typ, width);
    FirstSpoilerDecides(Split(raw, '|'), i, width);
    hide CellOf;
    hide Split;
    hide NumberKeyed;
    hide AllKeysGood;
    hide Entry;
    hide Field;
    hide ParseInt;
  }

  lemma NumberKeyedForm(raw: string, typ: string, width: Width)
    requires MapType(typ) && !OnlySpaces(raw) && MapSides(typ) == (IntName(width), "string")
    ensures CellOf(raw, typ) == NumberKeyedCell(Split(raw, '|'), width)
  {
    MapDispatch(raw, typ);
    BlankIsSpaces(raw);
    hide CellOf;
    hide Split;
    hide MapSides;
    hide Blank;
    hide OnlySpaces;
    hide NumberKeyedCell;
  }

  /** The error of a cell of strings to numbers names the key of its first entry whose number is wrong. */
  lemma FirstBadNumberOfCell(raw: string, typ: string, width: Width, i: nat)
    requires MapType(typ) && !OnlySpaces(raw) && MapSides(typ) == ("string", IntName(width))
    requires i < |Split(raw, '|')| && Splits(Split(raw, '|')[i]) && NumberOf(Split(raw, '|')[i], width).None?
    requires forall k | 0 <= k < i && Splits(Split(raw, '|')[k]) :: NumberOf(Split(raw, '|')[k], width).Some?
    ensures var entry := Split(raw, '|')[i];
            Fields(entry).Some? && CellOf(raw, typ) == Err(InvalidValue(Fields(entry).value.0))
  {
    WordKeyedForm(raw, typ, width);
    FirstBadNumberDecides(Split(raw, '|'), i, width);
    hide CellOf;
    hide Split;
    hide WordKeyedNumbers;
  }
}
