/**
  The config cell language: `|`-separated arrays and maps with optional quotes. Each loop of the
  parser is a method proved equal to a function on its inputs; the 32-bit and 64-bit copies of a
  parser are one member with a width.
 */
module CellParser {
  import opened Wrappers
  import opened Text

  /** A parsed cell. An `AnyMap` is the untyped map of a blank cell or of an unknown map type. */
  datatype Cell =
    | Number(width: Width, n: int)
    | Words(s: string)
    | Numbers(width: Width, ns: seq<int>)
    | WordList(ss: seq<string>)
    | NumberToWords(width: Width, byNumber: map<int, string>)
    | WordsToNumber(width: Width, numbers: map<string, int>)
    | WordsToWords(words: map<string, string>)
    | AnyMap(any: map<string, string>)

  datatype CellError = InvalidValue(text: string) | DuplicateKey(text: string) | TimeEmpty(text: string)

  type Parsed<T> = Result<T, CellError>

  // ----- quotes and key-value pairs -----

  predicate IsQuote(c: char) {
    c == '\'' || c == '"'
  }

  /** One pair of equal outer quotes is dropped; whatever is inside is left as it is. */
  function Unquote(s: string): string {
    if |s| >= 2 && ((s[0] == '\'' && s[|s| - 1] == '\'') || (s[0] == '"' && s[|s| - 1] == '"')) then s[1..|s| - 1]
    else s
  }

  function Field(s: string): string {
    Unquote(TrimSpace(s))
  }

  function QuoteCount(s: string): nat {
    if s == "" then 0 else QuoteCount(s[..|s| - 1]) + if IsQuote(s[|s| - 1]) then 1 else 0
  }

  /** Position `i` holds an `=` that an even number of quote characters precede. */
  predicate BareEquals(s: string, i: nat) {
    i < |s| && s[i] == '=' && QuoteCount(s[..i]) % 2 == 0
  }

  function FirstBareEquals(s: string, from: nat): Option<nat>
    requires from <= |s|
    decreases |s| - from
  {
    if from == |s| then None
    else if BareEquals(s, from) then Some(from)
    else FirstBareEquals(s, from + 1)
  }

  lemma {:induction false} FirstBareEqualsMeaning(s: string, from: nat)
    requires from <= |s|
    ensures var r := FirstBareEquals(s, from);
            && (r.Some? ==>
               from <= r.value && BareEquals(s, r.value) && forall k: nat | from <= k < r.value :: !BareEquals(s, k))
            && (r.None? ==> forall k: nat | from <= k :: !BareEquals(s, k))
    decreases |s| - from
  {
    if from < |s| && !BareEquals(s, from) {
      FirstBareEqualsMeaning(s, from + 1);
    }
  }

  /** Where an entry splits: the first `=` outside quotes, or else the first `=`; |s| when it has none. */
  function SplitPoint(s: string): nat {
    match FirstBareEquals(s, 0)
    case Some(i) => i
    case None => IndexOf(s, '=')
  }

  function SplitKeyValue(s: string): Option<(string, string)> {
    var i := SplitPoint(s);
    if i < |s| then Some((s[..i], s[i + 1..])) else None
  }

  lemma SplitPointInside(s: string)
    ensures SplitPoint(s) <= |s|
    ensures SplitPoint(s) < |s| <==> '=' in s
    ensures SplitPoint(s) < |s| ==> s[SplitPoint(s)] == '='
  {
    FirstBareEqualsMeaning(s, 0);
    if '=' in s {
      var k :| 0 <= k < |s| && s[k] == '=';
    }
  }

  /** The scan with its quote flag. */
  method ScanKeyValue(s: string) returns (kv: Option<(string, string)>)
    ensures kv == SplitKeyValue(s)
  {
    SplitPointInside(s);
    var inQuote := false;
    for i := 0 to |s|
      invariant inQuote == (QuoteCount(s[..i]) % 2 == 1)
      invariant FirstBareEquals(s, 0) == FirstBareEquals(s, i)
    {
      assert s[..i + 1][..i] == s[..i];
      if IsQuote(s[i]) {
        inQuote := !inQuote;
      }
      if s[i] == '=' && !inQuote {
        return Some((s[..i], s[i + 1..]));
      }
    }
    var at := 0;
    while at < |s| && s[at] != '='
      invariant at <= |s| && forall k | 0 <= k < at :: s[k] != '='
    {
      at := at + 1;
    }
    IndexOfUnique(s, '=', at);
    kv := if at < |s| then Some((s[..at], s[at + 1..])) else None;
  }

  // ----- arrays -----

  function ParseElement(p: string, width: Width): Parsed<int> {
    if Blank(p) then Ok(0)
    else match ParseInt(p, width)
         case Some(n) => Ok(n)
         case None => Err(InvalidValue(p))
  }

  /** Elements in order; the first bad one is the error. */
  function ParseElements(parts: seq<string>, width: Width): Parsed<seq<int>> {
    if parts == [] then Ok([]) else
      match ParseElements(parts[..|parts| - 1], width)
      case Err(e) => Err(e)
      case Ok(ns) =>
        match ParseElement(parts[|parts| - 1], width)
        case Err(e) => Err(e)
        case Ok(n) => Ok(ns + [n])
  }

  lemma {:induction false} FirstBadElement(parts: seq<string>, i: nat, width: Width)
    requires i <= |parts| && ParseElements(parts[..i], width).Err?
    ensures ParseElements(parts, width) == ParseElements(parts[..i], width)
  {
    hide ParseElement;
    if i < |parts| {
      assert parts[..|parts| - 1][..i] == parts[..i];
      FirstBadElement(parts[..|parts| - 1], i, width);
    } else {
      assert parts[..i] == parts;
    }
  }

  method ParseIntArray(raw: string, width: Width) returns (r: Parsed<seq<int>>)
    ensures r == if Blank(raw) then Ok([]) else ParseElements(Split(raw, '|'), width)
  {
    if Blank(raw) { return Ok([]); }
    hide Split;
    hide ParseElement;
    hide Blank;
    var parts := Split(raw, '|');
    var arr := new int[|parts|];
    for i := 0 to |parts|
      invariant ParseElements(parts[..i], width) == Ok(arr[..i])
    {
      assert parts[..i + 1][..i] == parts[..i];
      var n := ScanElement(parts[i], width);
      if n.Err? {
        FirstBadElement(parts, i + 1, width);
        return Err(n.error);
      }
      arr[i] := n.value;
      assert arr[..i + 1] == arr[..i] + [arr[i]];
    }
    assert parts[..|parts|] == parts && arr[..|parts|] == arr[..];
    r := Ok(arr[..]);
  }

  method ScanElement(p: string, width: Width) returns (r: Parsed<int>)
    ensures r == ParseElement(p, width)
  {
    if Blank(p) { return Ok(0); }
    var n := ParseInt(p, width);
    r := if n.Some? then Ok(n.value) else Err(InvalidValue(p));
  }

  function ParseWords(parts: seq<string>): (ss: seq<string>)
    ensures |ss| == |parts|
  {
    if parts == [] then [] else ParseWords(parts[..|parts| - 1]) + [Field(parts[|parts| - 1])]
  }

  method ParseStringArray(raw: string) returns (arr: seq<string>)
    ensures arr == if Blank(raw) then [] else ParseWords(Split(raw, '|'))
  {
    if Blank(raw) { return []; }
    hide Split;
    hide TrimSpace;
    var parts := Split(raw, '|');
    arr := [];
    for i := 0 to |parts|
      invariant arr == ParseWords(parts[..i])
    {
      assert parts[..i + 1][..i] == parts[..i];
      arr := arr + [Unquote(TrimSpace(parts[i]))];
    }
    assert parts[..|parts|] == parts;
  }

  // ----- maps -----

  /** An entry that is blank or has no `=` is skipped. */
  function Entry(entry: string): Option<(string, string)> {
    SplitKeyValue(TrimSpace(entry))
  }

  /** The key and value fields of an entry. */
  function Fields(entry: string): Option<(string, string)> {
    match Entry(entry)
    case None => None
    case Some((k, v)) => Some((Field(k), Field(v)))
  }

  lemma BlankHasNoFields(entry: string)
    requires TrimSpace(entry) == ""
    ensures Entry(entry).None? && Fields(entry).None?
  {
    SplitPointInside("");
  }

  /** Trim, skip a blank entry, split the rest. */
  method ScanEntry(entry: string) returns (kv: Option<(string, string)>)
    ensures kv == Entry(entry)
  {
    var trimmed := TrimSpace(entry);
    if trimmed == "" {
      BlankHasNoFields(entry);
      return None;
    }
    kv := ScanKeyValue(trimmed);
  }

  /** Int-keyed maps, entry by entry; a key already in the map is a duplicate. */
  function NumberKeyed(entries: seq<string>, width: Width): Parsed<map<int, string>> {
    if entries == [] then Ok(map[]) else
      match NumberKeyed(entries[..|entries| - 1], width)
      case Err(e) => Err(e)
      case Ok(m) =>
        match Fields(entries[|entries| - 1])
        case None => Ok(m)
        case Some((k, v)) =>
          match ParseInt(k, width)
          case None => Err(InvalidValue(k))
          case Some(n) => if n in m then Err(DuplicateKey(k)) else Ok(m[n := v])
  }

  lemma {:induction false} FirstBadEntry(entries: seq<string>, i: nat, width: Width)
    requires i <= |entries| && NumberKeyed(entries[..i], width).Err?
    ensures NumberKeyed(entries, width) == NumberKeyed(entries[..i], width)
  {
    hide Entry;
    hide Field;
    if i < |entries| {
      assert entries[..|entries| - 1][..i] == entries[..i];
      FirstBadEntry(entries[..|entries| - 1], i, width);
    } else {
      assert entries[..i] == entries;
    }
  }

  /** The int key of an entry, if it has one. */
  function KeyOf(entry: string, width: Width): Option<int> {
    match Fields(entry)
    case None => None
    case Some((k, v)) => ParseInt(k, width)
  }

  function Keys(entries: seq<string>, width: Width): (keys: seq<Option<int>>)
    ensures |keys| == |entries|
  {
    if entries == [] then [] else Keys(entries[..|entries| - 1], width) + [KeyOf(entries[|entries| - 1], width)]
  }

  lemma {:induction false} KeysAt(entries: seq<string>, width: Width, i: nat)
    requires i < |entries|
    ensures Keys(entries, width)[i] == KeyOf(entries[i], width)
  {
    hide KeyOf;
    if i < |entries| - 1 {
      KeysAt(entries[..|entries| - 1], width, i);
    }
  }

  lemma KeysStep(entries: seq<string>, entry: string, width: Width)
    ensures Keys(entries + [entry], width) == Keys(entries, width) + [KeyOf(entry, width)]
  {
    hide KeyOf;
    assert (entries + [entry])[..|entries|] == entries;
  }

  /** A key is in the map so far exactly when an earlier entry has it. */
  lemma {:induction false} KeysSoFar(entries: seq<string>, width: Width, n: int)
    requires NumberKeyed(entries, width).Ok?
    ensures n in NumberKeyed(entries, width).value <==> Some(n) in Keys(entries, width)
  {
    hide Entry;
    hide Field;
    if entries != [] {
      KeysSoFar(entries[..|entries| - 1], width, n);
    }
  }

  /** The quadratic parser: every entry is stored first and then compared with all entries before it. */
  method ParseNumberKeyed(entries: seq<string>, width: Width) returns (r: Parsed<map<int, string>>)
    ensures r == NumberKeyed(entries, width)
  {
    hide Entry;
    hide Field;
    var result: map<int, string> := map[];
    for i := 0 to |entries|
      invariant NumberKeyed(entries[..i], width) == Ok(result)
    {
      assert entries[..i + 1][..i] == entries[..i];
      var kv := ScanEntry(entries[i]);
      if kv.None? { continue; }
      var keyStr := Field(kv.value.0);
      var key := ParseInt(keyStr, width);
      if key.None? {
        FirstBadEntry(entries, i + 1, width);
        return Err(InvalidValue(keyStr));
      }
      var value := Field(kv.value.1);
      ghost var before := result;
      result := result[key.value := value];
      var duplicate := EarlierKey(entries, i, width, key.value);
      KeysSoFar(entries[..i], width, key.value);
      if duplicate {
        FirstBadEntry(entries, i + 1, width);
        return Err(DuplicateKey(keyStr));
      }
    }
    assert entries[..|entries|] == entries;
    r := Ok(result);
  }

  /** The inner loop of the duplicate check. */
  method EarlierKey(entries: seq<string>, i: nat, width: Width, key: int) returns (found: bool)
    requires i < |entries|
    ensures found <==> Some(key) in Keys(entries[..i], width)
  {
    hide KeyOf;
    for j := 0 to i
      invariant Some(key) !in Keys(entries[..j], width)
    {
      var prevKey := ScanKey(entries[j], width);
      if prevKey == Some(key) {
        KeysAt(entries[..i], width, j);
        return true;
      }
      KeysStep(entries[..j], entries[j], width);
      assert entries[..j] + [entries[j]] == entries[..j + 1];
    }
    return false;
  }

  method ScanKey(entry: string, width: Width) returns (key: Option<int>)
    ensures key == KeyOf(entry, width)
  {
    hide Entry;
    hide Field;
    var kv := ScanEntry(entry);
    key := if kv.None? then None else ParseInt(Field(kv.value.0), width);
  }

  /** String-keyed maps with int values; a later entry replaces an earlier one. Values are not unquoted. */
  function WordKeyedNumbers(entries: seq<string>, width: Width): Parsed<map<string, int>> {
    if entries == [] then Ok(map[]) else
      match WordKeyedNumbers(entries[..|entries| - 1], width)
      case Err(e) => Err(e)
      case Ok(m) =>
        match Entry(entries[|entries| - 1])
        case None => Ok(m)
        case Some((k, v)) =>
          match ParseInt(TrimSpace(v), width)
          case None => Err(InvalidValue(Field(k)))
          case Some(n) => Ok(m[Field(k) := n])
  }

  lemma {:induction false} FirstBadNumber(entries: seq<string>, i: nat, width: Width)
    requires i <= |entries| && WordKeyedNumbers(entries[..i], width).Err?
    ensures WordKeyedNumbers(entries, width) == WordKeyedNumbers(entries[..i], width)
  {
    hide Entry;
    hide Field;
    if i < |entries| {
      assert entries[..|entries| - 1][..i] == entries[..i];
      FirstBadNumber(entries[..|entries| - 1], i, width);
    } else {
      assert entries[..i] == entries;
    }
  }

  method ParseWordKeyedNumbers(entries: seq<string>, width: Width) returns (r: Parsed<map<string, int>>)
    ensures r == WordKeyedNumbers(entries, width)
  {
    hide Entry;
    hide Field;
    var result: map<string, int> := map[];
    for i := 0 to |entries|
      invariant WordKeyedNumbers(entries[..i], width) == Ok(result)
    {
      assert entries[..i + 1][..i] == entries[..i];
      var kv := ScanEntry(entries[i]);
      if kv.None? { continue; }
      var key := Field(kv.value.0);
      var value := ParseInt(TrimSpace(kv.value.1), width);
      if value.None? {
        FirstBadNumber(entries, i + 1, width);
        return Err(InvalidValue(key));
      }
      result := result[key := value.value];
    }
    assert entries[..|entries|] == entries;
    r := Ok(result);
  }

  /** String-keyed maps with string values; a later entry replaces an earlier one. */
  function WordKeyedWords(entries: seq<string>): map<string, string> {
    if entries == [] then map[] else
      var m := WordKeyedWords(entries[..|entries| - 1]);
      match Fields(entries[|entries| - 1])
      case None => m
      case Some((k, v)) => m[k := v]
  }

  method ParseWordKeyedWords(entries: seq<string>) returns (result: map<string, string>)
    ensures result == WordKeyedWords(entries)
  {
    hide Entry;
    hide Field;
    result := map[];
    for i := 0 to |entries|
      invariant WordKeyedWords(entries[..i]) == result
    {
      assert entries[..i + 1][..i] == entries[..i];
      var kv := ScanEntry(entries[i]);
      if kv.None? { continue; }
      result := result[Field(kv.value.0) := Field(kv.value.1)];
    }
    assert entries[..|entries|] == entries;
  }

  // ----- type strings and dispatch -----

  /** The two sides of a map type; whatever follows a second `=` is ignored. */
  function MapSides(typ: string): (string, string)
    requires '=' in typ
  {
    var parts := Split(typ, '=');
    assert |parts| >= 2 by { TwoSides(typ); }
    (TrimSpace(parts[0]), TrimSpace(parts[1]))
  }

  lemma TwoSides(typ: string)
    requires '=' in typ
    ensures |Split(typ, '=')| >= 2
  {}

  function CellOfMap(raw: string, typ: string): Parsed<Cell>
    requires '=' in typ
  {
    if Blank(raw) then Ok(AnyMap(map[]))
    else
      var entries := Split(raw, '|');
      var (keyType, valueType) := MapSides(typ);
      if keyType == "int32" && valueType == "string" then NumberKeyedCell(entries, W32)
      else if keyType == "int64" && valueType == "string" then NumberKeyedCell(entries, W64)
      else if keyType == "string" && valueType == "int32" then WordKeyedNumbersCell(entries, W32)
      else if keyType == "string" && valueType == "int64" then WordKeyedNumbersCell(entries, W64)
      else if keyType == "string" && valueType == "string" then Ok(WordsToWords(WordKeyedWords(entries)))
      else Ok(AnyMap(WordKeyedWords(entries)))
  }

  function NumberKeyedCell(entries: seq<string>, width: Width): Parsed<Cell> {
    match NumberKeyed(entries, width)
    case Ok(m) => Ok(NumberToWords(width, m))
    case Err(e) => Err(e)
  }

  function WordKeyedNumbersCell(entries: seq<string>, width: Width): Parsed<Cell> {
    match WordKeyedNumbers(entries, width)
    case Ok(m) => Ok(WordsToNumber(width, m))
    case Err(e) => Err(e)
  }

  function CellOfNumber(raw: string, width: Width): Parsed<Cell> {
    if Blank(raw) then Ok(Number(width, 0))
    else match ParseInt(raw, width)
         case Some(n) => Ok(Number(width, n))
         case None => Err(InvalidValue(raw))
  }

  function CellOfNumbers(raw: string, width: Width): Parsed<Cell> {
    if Blank(raw) then Ok(Numbers(width, []))
    else match ParseElements(Split(raw, '|'), width)
         case Ok(ns) => Ok(Numbers(width, ns))
         case Err(e) => Err(e)
  }

  function CellOfWordList(raw: string): Cell {
    if Blank(raw) then WordList([])
    else WordList(ParseWords(Split(raw, '|')))
  }

  function CellOf(raw: string, typ: string): Parsed<Cell> {
    if typ == "int32" then CellOfNumber(raw, W32)
    else if typ == "int64" then CellOfNumber(raw, W64)
    else if typ == "string" then Ok(Words(raw))
    else if typ == "time" then (if Blank(raw) then Err(TimeEmpty(raw)) else Ok(Words(raw)))
    else if typ == "int32[]" then CellOfNumbers(raw, W32)
    else if typ == "int64[]" then CellOfNumbers(raw, W64)
    else if typ == "string[]" then Ok(CellOfWordList(raw))
    else if '=' in typ then CellOfMap(raw, typ)
    else Ok(Words(raw))
  }

  method ParseMap(raw: string, typ: string) returns (r: Parsed<Cell>)
    requires '=' in typ
    ensures r == CellOfMap(raw, typ)
  {
    if Blank(raw) { return Ok(AnyMap(map[])); }
    var entries := Split(raw, '|');
    var (keyType, valueType) := MapSides(typ);
    if keyType == "int32" && valueType == "string" {
      r := ParseNumberKeyedCell(entries, W32);
    } else if keyType == "int64" && valueType == "string" {
      r := ParseNumberKeyedCell(entries, W64);
    } else if keyType == "string" && valueType == "int32" {
      r := ParseWordKeyedNumbersCell(entries, W32);
    } else if keyType == "string" && valueType == "int64" {
      r := ParseWordKeyedNumbersCell(entries, W64);
    } else {
      var m := ParseWordKeyedWords(entries);
      r := if keyType == "string" && valueType == "string" then Ok(WordsToWords(m)) else Ok(AnyMap(m));
    }
  }

  method ParseNumberKeyedCell(entries: seq<string>, width: Width) returns (r: Parsed<Cell>)
    ensures r == NumberKeyedCell(entries, width)
  {
    var m := ParseNumberKeyed(entries, width);
    r := if m.Ok? then Ok(NumberToWords(width, m.value)) else Err(m.error);
  }

  method ParseWordKeyedNumbersCell(entries: seq<string>, width: Width) returns (r: Parsed<Cell>)
    ensures r == WordKeyedNumbersCell(entries, width)
  {
    var m := ParseWordKeyedNumbers(entries, width);
    r := if m.Ok? then Ok(WordsToNumber(width, m.value)) else Err(m.error);
  }

  method ParseValue(raw: string, typ: string) returns (r: Parsed<Cell>)
    ensures r == CellOf(raw, typ)
  {
    if typ == "int32" {
      r := CellOfNumber(raw, W32);
    } else if typ == "int64" {
      r := CellOfNumber(raw, W64);
    } else if typ == "string" {
      r := Ok(Words(raw));
    } else if typ == "time" {
      r := if Blank(raw) then Err(TimeEmpty(raw)) else Ok(Words(raw));
    } else if typ == "int32[]" || typ == "int64[]" {
      var width := if typ == "int32[]" then W32 else W64;
      var ns := ParseIntArray(raw, width);
      r := if ns.Ok? then Ok(Numbers(width, ns.value)) else Err(ns.error);
    } else if typ == "string[]" {
      var ss := ParseStringArray(raw);
      r := Ok(WordList(ss));
    } else if '=' in typ {
      r := ParseMap(raw, typ);
    } else {
      r := Ok(Words(raw));
    }
  }
}
