/**
  The generated Go field type against the generated JSON: which column types are such that every
  cell of the column decodes into the field, with its content intact.
 */
module TypeAgreement {
  import opened Wrappers
  import opened Text
  import opened CellParser
  import opened CellLaws
  import opened CellRoundTrip
  import opened Sheets

  // ----- Go types -----

  datatype Scalar = IntType(width: Width) | StringType

  datatype GoType = One(s: Scalar) | Slice(s: Scalar) | MapOf(key: Scalar, value: Scalar) | ConfigTime

  function SideType(side: string): Scalar {
    if side == "int32" then IntType(W32) else if side == "int64" then IntType(W64) else StringType
  }

  function GoTypeOf(typ: string): GoType {
    if typ == "int32" then One(IntType(W32))
    else if typ == "int64" then One(IntType(W64))
    else if typ == "string" then One(StringType)
    else if typ == "time" then ConfigTime
    else if typ == "int32[]" then Slice(IntType(W32))
    else if typ == "int64[]" then Slice(IntType(W64))
    else if typ == "string[]" then Slice(StringType)
    else if '=' in typ then MapOf(SideType(MapSides(typ).0), SideType(MapSides(typ).1))
    else One(StringType)
  }

  // ----- JSON, as encoding/json writes a parsed cell and reads it into a Go value -----

  datatype Json = JNum(n: int) | JStr(s: string) | JArr(elements: seq<Json>) | JObj(members: map<string, Json>)

  datatype Atom = Int(n: int) | Str(s: string)

  datatype GoValue = Single(a: Atom) | Many(atoms: seq<Atom>) | Table(table: map<Atom, Atom>)

  function AtomJson(a: Atom): Json {
    match a
    case Int(n) => JNum(n)
    case Str(s) => JStr(s)
  }

  /** An int key is written in decimal. */
  function KeyText(a: Atom): string {
    match a
    case Int(n) => DecimalInt(n)
    case Str(s) => s
  }

  function IntTable(m: map<int, string>): (t: map<Atom, Atom>)
    ensures forall a :: a in t <==> a.Int? && a.n in m
    ensures forall a | a in t :: t[a] == Str(m[a.n])
  {
    map a | a in (set n | n in m :: Int(n)) :: Str(m[a.n])
  }

  function CountTable(m: map<string, int>): (t: map<Atom, Atom>)
    ensures forall a :: a in t <==> a.Str? && a.s in m
    ensures forall a | a in t :: t[a] == Int(m[a.s])
  {
    map a | a in (set s | s in m :: Str(s)) :: Int(m[a.s])
  }

  function WordTable(m: map<string, string>): (t: map<Atom, Atom>)
    ensures forall a :: a in t <==> a.Str? && a.s in m
    ensures forall a | a in t :: t[a] == Str(m[a.s])
  {
    map a | a in (set s | s in m :: Str(s)) :: Str(m[a.s])
  }

  /** What a parsed cell holds. */
  function Content(cell: Cell): GoValue {
    match cell
    case Number(_, n) => Single(Int(n))
    case Words(s) => Single(Str(s))
    case Numbers(_, ns) => Many(seq(|ns|, i requires 0 <= i < |ns| => Int(ns[i])))
    case WordList(ss) => Many(seq(|ss|, i requires 0 <= i < |ss| => Str(ss[i])))
    case NumberToWords(_, m) => Table(IntTable(m))
    case WordsToNumber(_, m) => Table(CountTable(m))
    case WordsToWords(m) => Table(WordTable(m))
    case AnyMap(m) => Table(WordTable(m))
  }

  lemma DecimalsDiffer()
    ensures forall m, n | DecimalInt(m) == DecimalInt(n) :: m == n
  {
    hide DecimalInt;
    forall m, n | DecimalInt(m) == DecimalInt(n) ensures m == n { DecimalIntInjective(m, n); }
  }

  function IntMembers(m: map<int, string>): (members: map<string, Json>)
    ensures forall n | n in m :: DecimalInt(n) in members && members[DecimalInt(n)] == JStr(m[n])
    ensures forall t | t in members :: exists n :: n in m && DecimalInt(n) == t
  {
    DecimalsDiffer();
    hide DecimalInt;
    map n | n in m :: DecimalInt(n) := JStr(m[n])
  }

  /** The JSON of a parsed cell. */
  function Encoded(cell: Cell): Json {
    match cell
    case Number(_, n) => JNum(n)
    case Words(s) => JStr(s)
    case Numbers(_, ns) => JArr(seq(|ns|, i requires 0 <= i < |ns| => JNum(ns[i])))
    case WordList(ss) => JArr(seq(|ss|, i requires 0 <= i < |ss| => JStr(ss[i])))
    case NumberToWords(_, m) => JObj(IntMembers(m))
    case WordsToNumber(_, m) => JObj(map s | s in m :: JNum(m[s]))
    case WordsToWords(m) => JObj(map s | s in m :: JStr(m[s]))
    case AnyMap(m) => JObj(map s | s in m :: JStr(m[s]))
  }

  ghost predicate Encodes(v: GoValue, j: Json) {
    match v
    case Single(a) => j == AtomJson(a)
    case Many(atoms) =>
      j.JArr? && |j.elements| == |atoms| && forall i | 0 <= i < |atoms| :: j.elements[i] == AtomJson(atoms[i])
    case Table(m) =>
      && j.JObj?
      && (forall a | a in m :: KeyText(a) in j.members && j.members[KeyText(a)] == AtomJson(m[a]))
      && (forall t | t in j.members :: exists a :: a in m && KeyText(a) == t)
  }

  lemma TableEncodes(table: map<Atom, Atom>, members: map<string, Json>)
    requires forall a | a in table :: KeyText(a) in members && members[KeyText(a)] == AtomJson(table[a])
    requires forall t | t in members :: exists a :: a in table && KeyText(a) == t
    ensures Encodes(Table(table), JObj(members))
  {}

  lemma IntTableEncodes(m: map<int, string>)
    ensures Encodes(Table(IntTable(m)), JObj(IntMembers(m)))
  {
    var members := IntMembers(m);
    hide DecimalInt;
    hide IntMembers;
    hide IntTable;
    forall t | t in members ensures exists a :: a in IntTable(m) && KeyText(a) == t {
      var n :| n in m && DecimalInt(n) == t;
      assert Int(n) in IntTable(m) && KeyText(Int(n)) == t;
    }
    TableEncodes(IntTable(m), members);
  }

  lemma WordMembers(keys: set<string>, table: map<Atom, Atom>)
    requires forall a :: a in table <==> a.Str? && a.s in keys
    ensures forall t | t in keys :: exists a :: a in table && KeyText(a) == t
  {
    forall t | t in keys ensures exists a :: a in table && KeyText(a) == t {
      assert Str(t) in table && KeyText(Str(t)) == t;
    }
  }

  lemma CountTableEncodes(m: map<string, int>)
    ensures Encodes(Table(CountTable(m)), JObj(map s | s in m :: JNum(m[s])))
  {
    hide CountTable;
    WordMembers(m.Keys, CountTable(m));
    TableEncodes(CountTable(m), map s | s in m :: JNum(m[s]));
  }

  lemma WordTableEncodes(m: map<string, string>)
    ensures Encodes(Table(WordTable(m)), JObj(map s | s in m :: JStr(m[s])))
  {
    hide WordTable;
    WordMembers(m.Keys, WordTable(m));
    TableEncodes(WordTable(m), map s | s in m :: JStr(m[s]));
  }

  lemma EncodedEncodes(cell: Cell)
    ensures Encodes(Content(cell), Encoded(cell))
  {
    if cell.NumberToWords? || cell.WordsToNumber? || cell.WordsToWords? || cell.AnyMap? {
      hide Encodes;
      hide IntTable;
      hide IntMembers;
      hide CountTable;
      hide WordTable;
      match cell
      case NumberToWords(_, m) => IntTableEncodes(m);
      case WordsToNumber(_, m) => CountTableEncodes(m);
      case WordsToWords(m) => WordTableEncodes(m);
      case AnyMap(m) => WordTableEncodes(m);
    }
  }

  function DecodeAtom(j: Json, s: Scalar): Option<Atom> {
    match s
    case IntType(width) => if j.JNum? && width.Holds(j.n) then Some(Int(j.n)) else None
    case StringType => if j.JStr? then Some(Str(j.s)) else None
  }

  predicate AtomDecodes(j: Json, s: Scalar, a: Atom) {
    DecodeAtom(j, s) == Some(a)
  }

  function DecodeKey(text: string, s: Scalar): Option<Atom> {
    match s
    case IntType(width) => (match ParseInt(text, width) case Some(n) => Some(Int(n)) case None => None)
    case StringType => Some(Str(text))
  }

  predicate KeyDecodes(text: string, s: Scalar, a: Atom) {
    DecodeKey(text, s) == Some(a)
  }

  predicate MemberDecodes(members: map<string, Json>, text: string, t: GoType, m: map<Atom, Atom>, a: Atom)
    requires t.MapOf?
  {
    text in members && a in m && KeyDecodes(text, t.key, a) && AtomDecodes(members[text], t.value, m[a])
  }

  /** json.Unmarshal of `j` into a variable of type `t` succeeds and leaves `v`; a ConfigTime is not covered. */
  ghost predicate Decodes(j: Json, t: GoType, v: GoValue) {
    match t
    case One(s) => v.Single? && AtomDecodes(j, s, v.a)
    case Slice(s) =>
      && j.JArr? && v.Many? && |v.atoms| == |j.elements|
      && forall i | 0 <= i < |v.atoms| :: AtomDecodes(j.elements[i], s, v.atoms[i])
    case MapOf(_, _) =>
      && j.JObj? && v.Table?
      && (forall text | text in j.members :: exists a :: MemberDecodes(j.members, text, t, v.table, a))
      && (forall a | a in v.table :: exists text :: MemberDecodes(j.members, text, t, v.table, a))
    case ConfigTime => false
  }

  /** Decoding has at most one outcome. */
  lemma DecodesToOne(j: Json, t: GoType, v: GoValue, w: GoValue)
    requires Decodes(j, t, v) && Decodes(j, t, w)
    ensures v == w
  {
    hide DecodeAtom;
    hide DecodeKey;
    match t
    case One(s) =>
    case Slice(s) =>
      assert v.atoms == w.atoms;
    case MapOf(_, _) =>
      hide MemberDecodes;
      TableInside(j.members, t, v.table, w.table);
      TableInside(j.members, t, w.table, v.table);
      assert v.table == w.table;
    case ConfigTime =>
  }

  lemma TableInside(members: map<string, Json>, t: GoType, m: map<Atom, Atom>, n: map<Atom, Atom>)
    requires t.MapOf?
    requires forall a | a in m :: exists text :: MemberDecodes(members, text, t, m, a)
    requires forall text | text in members :: exists b :: MemberDecodes(members, text, t, n, b)
    ensures forall a | a in m :: a in n && n[a] == m[a]
  {
    hide DecodeAtom;
    hide DecodeKey;
    forall a | a in m ensures a in n && n[a] == m[a] {
      var text :| MemberDecodes(members, text, t, m, a);
      var b :| MemberDecodes(members, text, t, n, b);
    }
  }

  // ----- values that fit a Go type decode from their own encoding -----

  predicate Fits(a: Atom, s: Scalar) {
    match s
    case IntType(width) => a.Int? && width.Holds(a.n)
    case StringType => a.Str?
  }

  predicate FitsType(v: GoValue, t: GoType) {
    match t
    case One(s) => v.Single? && Fits(v.a, s)
    case Slice(s) => v.Many? && forall i | 0 <= i < |v.atoms| :: Fits(v.atoms[i], s)
    case MapOf(k, w) => v.Table? && forall a | a in v.table :: Fits(a, k) && Fits(v.table[a], w)
    case ConfigTime => false
  }

  lemma AtomRoundTrip(a: Atom, s: Scalar)
    ensures AtomDecodes(AtomJson(a), s, a) <==> Fits(a, s)
    ensures KeyDecodes(KeyText(a), s, a) <==> Fits(a, s)
  {
    if a.Int? && s.IntType? {
      if s.width.Holds(a.n) {
        ParsePrinted(a.n, s.width);
      }
    }
  }

  /** A value decodes back from its encoding exactly when it fits the type. */
  lemma EncodingDecodes(v: GoValue, j: Json, t: GoType)
    requires Encodes(v, j)
    ensures Decodes(j, t, v) <==> FitsType(v, t)
  {
    hide ParseInt;
    hide DecimalInt;
    match t
    case One(s) =>
      if v.Single? { AtomRoundTrip(v.a, s); }
    case Slice(s) =>
      if v.Many? {
        forall i | 0 <= i < |v.atoms|
          ensures AtomDecodes(AtomJson(v.atoms[i]), s, v.atoms[i]) <==> Fits(v.atoms[i], s)
        {
          AtomRoundTrip(v.atoms[i], s);
        }
      }
    case MapOf(_, _) =>
      if v.Table? { TableDecodes(v, j, t); }
    case ConfigTime =>
  }

  lemma MemberRoundTrip(v: GoValue, j: Json, t: GoType, a: Atom)
    requires t.MapOf? && v.Table? && Encodes(v, j) && a in v.table
    ensures MemberDecodes(j.members, KeyText(a), t, v.table, a) <==> Fits(a, t.key) && Fits(v.table[a], t.value)
  {
    AtomRoundTrip(a, t.key);
    AtomRoundTrip(v.table[a], t.value);
    hide Fits;
    hide KeyText;
    hide DecodeKey;
    hide DecodeAtom;
    hide AtomJson;
  }

  lemma TableDecodes(v: GoValue, j: Json, t: GoType)
    requires t.MapOf? && v.Table? && Encodes(v, j)
    ensures Decodes(j, t, v) <==> FitsType(v, t)
  {
    hide Fits;
    hide MemberDecodes;
    hide KeyText;
    hide AtomJson;
    if FitsType(v, t) {
      forall a | a in v.table ensures MemberDecodes(j.members, KeyText(a), t, v.table, a) {
        MemberRoundTrip(v, j, t, a);
      }
    } else if Decodes(j, t, v) {
      forall a | a in v.table ensures Fits(a, t.key) && Fits(v.table[a], t.value) {
        var text :| MemberDecodes(j.members, text, t, v.table, a);
        DecodedFits(j.members, text, t, v.table, a);
      }
    }
  }

  lemma DecodedFits(members: map<string, Json>, text: string, t: GoType, m: map<Atom, Atom>, a: Atom)
    requires t.MapOf? && MemberDecodes(members, text, t, m, a)
    ensures Fits(a, t.key) && Fits(m[a], t.value)
  {}

  // ----- every column type except the mixed maps -----

  predicate IntName(side: string) {
    side == "int32" || side == "int64"
  }

  /** A map type with an int side whose other side is not `string`: the parser has no case for it. */
  predicate MixedMap(typ: string) {
    MapType(typ) && var (k, v) := MapSides(typ); (IntName(k) && v != "string") || (IntName(v) && k != "string")
  }

  /** Every cell of such a column decodes, with its content, into the field. */
  ghost predicate Agrees(typ: string) {
    forall raw: string, cell: Cell ::
      CellOf(raw, typ) == Ok(cell) ==> Decodes(Encoded(cell), GoTypeOf(typ), Content(cell))
  }

  lemma ElementInRange(p: string, width: Width)
    ensures ParseElement(p, width).Ok? ==> width.Holds(ParseElement(p, width).value)
  {
    hide TrimSpace;
    hide ParseInt;
  }

  lemma {:induction false} ElementsInRange(parts: seq<string>, width: Width)
    ensures ParseElements(parts, width).Ok? ==>
              forall i | 0 <= i < |ParseElements(parts, width).value| ::
                width.Holds(ParseElements(parts, width).value[i])
  {
    hide ParseElement;
    if parts != [] {
      ElementsInRange(parts[..|parts| - 1], width);
      ElementInRange(parts[|parts| - 1], width);
    }
  }

  lemma {:induction false} KeysInRange(entries: seq<string>, width: Width)
    ensures match NumberKeyed(entries, width)
            case Ok(m) => forall n | n in m :: width.Holds(n)
            case Err(_) => true
  {
    hide Fields;
    hide ParseInt;
    if entries != [] {
      KeysInRange(entries[..|entries| - 1], width);
    }
  }

  lemma {:induction false} ValuesInRange(entries: seq<string>, width: Width)
    ensures WordKeyedNumbers(entries, width).Ok? ==>
              forall k | k in WordKeyedNumbers(entries, width).value ::
                width.Holds(WordKeyedNumbers(entries, width).value[k])
  {
    hide Entry;
    hide Field;
    hide TrimSpace;
    hide ParseInt;
    if entries != [] {
      ValuesInRange(entries[..|entries| - 1], width);
    }
  }

  lemma MapCellFits(raw: string, typ: string, cell: Cell)
    requires MapType(typ) && !MixedMap(typ) && CellOfMap(raw, typ) == Ok(cell)
    ensures FitsType(Content(cell), MapOf(SideType(MapSides(typ).0), SideType(MapSides(typ).1)))
  {
    hide MapSides;
    hide Split;
    hide NumberKeyed;
    hide WordKeyedNumbers;
    hide WordKeyedWords;
    hide Blank;
    var entries := Split(raw, '|');
    KeysInRange(entries, W32);
    KeysInRange(entries, W64);
    ValuesInRange(entries, W32);
    ValuesInRange(entries, W64);
  }

  lemma CellFits(raw: string, typ: string, cell: Cell)
    requires typ != "time" && !MixedMap(typ) && CellOf(raw, typ) == Ok(cell)
    ensures FitsType(Content(cell), GoTypeOf(typ))
  {
    hide MixedMap;
    hide CellOfMap;
    hide MapSides;
    hide Split;
    hide ParseElements;
    hide ParseInt;
    hide ParseWords;
    hide Blank;
    ElementsInRange(Split(raw, '|'), W32);
    ElementsInRange(Split(raw, '|'), W64);
    if MapType(typ) && CellOf(raw, typ) == CellOfMap(raw, typ) {
      MapCellFits(raw, typ, cell);
    }
  }

  /** The cell `a=b` in a column of mixed map type. */
  lemma MixedCell(typ: string)
    requires MixedMap(typ)
    ensures CellOf("a=b", typ) == Ok(AnyMap(map["a" := "b"]))
  {
    WordsOfWitness();
    MapDispatch("a=b", typ);
    hide CellOf;
    hide Split;
    hide Blank;
    hide WordKeyedWords;
    hide MapSides;
  }

  lemma WordsOfWitness()
    ensures !Blank("a=b") && WordKeyedWords(Split("a=b", '|')) == map["a" := "b"]
  {
    var s := "a=b";
    IndexOfUnique(s, '|', 3);
    assert Split(s, '|') == [s];
    hide Split;
    TrimSpaceKeeps(s);
    TrimSpaceKeeps("a");
    TrimSpaceKeeps("b");
    SplitsAtFirstBareEquals(s);
    assert s[..1] == "a" && s[2..] == "b";
    assert QuoteCount("a") == 0 by { NoQuotesCountZero("a"); }
    assert BareEquals(s, 1);
    assert Entry(s) == Some(("a", "b"));
    hide Entry;
    assert Fields(s) == Some(("a", "b"));
    hide Fields;
    assert [s][..0] == [];
    assert WordKeyedWords([]) == map[];
  }

  /** For every column type other than `time`: every cell decodes exactly when the type is not a mixed map. */
  lemma TypesAgree(typ: string)
    requires typ != "time"
    ensures Agrees(typ) <==> !MixedMap(typ)
  {
    hide CellOf;
    hide GoTypeOf;
    hide Content;
    hide Encoded;
    hide Decodes;
    hide Encodes;
    hide FitsType;
    hide MapSides;
    if !MixedMap(typ) {
      forall raw: string, cell: Cell | CellOf(raw, typ) == Ok(cell)
        ensures Decodes(Encoded(cell), GoTypeOf(typ), Content(cell))
      {
        CellFits(raw, typ, cell);
        EncodedEncodes(cell);
        EncodingDecodes(Content(cell), Encoded(cell), GoTypeOf(typ));
      }
    } else {
      var cell := AnyMap(map["a" := "b"]);
      MixedCell(typ);
      MixedDoesNotFit(typ, cell);
      EncodedEncodes(cell);
      EncodingDecodes(Content(cell), Encoded(cell), GoTypeOf(typ));
    }
  }

  lemma MixedDoesNotFit(typ: string, cell: Cell)
    requires MixedMap(typ) && cell == AnyMap(map["a" := "b"])
    ensures !FitsType(Content(cell), GoTypeOf(typ))
  {
    MixedGoType(typ);
    WitnessContent();
    hide GoTypeOf;
    hide MapSides;
    hide MixedMap;
    hide Content;
  }

  lemma WitnessContent()
    ensures var v := Content(AnyMap(map["a" := "b"])); v.Table? && Str("a") in v.table && v.table[Str("a")] == Str("b")
  {
    var m := map["a" := "b"];
    assert "a" in m && m["a"] == "b";
    assert Str("a") in WordTable(m);
  }

  lemma MixedGoType(typ: string)
    requires MixedMap(typ)
    ensures GoTypeOf(typ).MapOf? && (GoTypeOf(typ).key.IntType? || GoTypeOf(typ).value.IntType?)
  {
    hide MapSides;
  }

  // ----- whole sheets -----

  /**
    In every generated row of a validated sheet, each column that is neither a time nor a mixed map
    has its own cell under its own name, and the JSON of that cell decodes into the field of the column,
    with the cell's content.
   */
  lemma GeneratedRowsDecode(records: Records, sheet: Sheet, i: nat, c: nat)
    requires HasHeaders(records) && Matches(records, sheet) && GoodNames(sheet.headers)
    requires i < |sheet.rows| && c < |sheet.headers|
    requires sheet.headers[c].typ != "time" && !MixedMap(sheet.headers[c].typ)
    ensures var h := sheet.headers[c];
            var row := NameCells(sheet.headers, KnownCells(sheet.headers, sheet.rows[i]));
            && h.name in row
            && CellAt(records, i, c) == Ok(row[h.name])
            && Decodes(Encoded(row[h.name]), GoTypeOf(h.typ), Content(row[h.name]))
  {
    hide CellOf;
    hide GoTypeOf;
    hide Content;
    hide Decodes;
    hide Encoded;
    hide MapSides;
    hide NameCells;
    hide SnakeCase;
    hide MixedMap;
    EachCellUnderItsName(records, sheet, i);
    TypesAgree(sheet.headers[c].typ);
  }
}
