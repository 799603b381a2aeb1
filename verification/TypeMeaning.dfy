/** What the Go type of a column is, and what the JSON of a cell holds, entry by entry. */
module TypeMeaning {
  import opened Wrappers
  import opened Text
  import opened CellParser
  import opened CellLaws
  import opened CellMeaning
  import opened TypeAgreement

  // ----- Go types -----

  /** Each known type name has its own field type; other names are strings, and other maps are typed side by side. */
  lemma GoTypeIs(typ: string)
    ensures GoTypeOf("int32") == One(IntType(W32)) && GoTypeOf("int64") == One(IntType(W64))
    ensures GoTypeOf("string") == One(StringType) && GoTypeOf("time") == ConfigTime
    ensures GoTypeOf("int32[]") == Slice(IntType(W32)) && GoTypeOf("int64[]") == Slice(IntType(W64))
    ensures GoTypeOf("string[]") == Slice(StringType)
    ensures typ !in KNOWN && '=' !in typ ==> GoTypeOf(typ) == One(StringType)
    ensures '=' in typ ==> GoTypeOf(typ) == MapOf(SideType(MapSides(typ).0), SideType(MapSides(typ).1))
    ensures SideType("int32") == IntType(W32) && SideType("int64") == IntType(W64)
    ensures typ != "int32" && typ != "int64" ==> SideType(typ) == StringType
  {
    hide MapSides;
  }

  // ----- the JSON of a cell -----

  /** A single value or an array is written element by element, numbers as numbers and strings as strings. */
  lemma ListsWritten(cell: Cell)
    ensures cell.Number? ==> Encoded(cell) == JNum(cell.n)
    ensures cell.Words? ==> Encoded(cell) == JStr(cell.s)
    ensures cell.Numbers? ==>
              && Encoded(cell).JArr? && |Encoded(cell).elements| == |cell.ns|
              && forall i | 0 <= i < |cell.ns| :: Encoded(cell).elements[i] == JNum(cell.ns[i])
    ensures cell.WordList? ==>
              && Encoded(cell).JArr? && |Encoded(cell).elements| == |cell.ss|
              && forall i | 0 <= i < |cell.ss| :: Encoded(cell).elements[i] == JStr(cell.ss[i])
  {}

  /** A string-keyed map is written member by member. */
  lemma WordTablesWritten(cell: Cell)
    ensures cell.WordsToNumber? ==>
              && Encoded(cell).JObj? && Encoded(cell).members.Keys == cell.numbers.Keys
              && forall k | k in cell.numbers :: Encoded(cell).members[k] == JNum(cell.numbers[k])
    ensures cell.WordsToWords? ==>
              && Encoded(cell).JObj? && Encoded(cell).members.Keys == cell.words.Keys
              && forall k | k in cell.words :: Encoded(cell).members[k] == JStr(cell.words[k])
    ensures cell.AnyMap? ==>
              && Encoded(cell).JObj? && Encoded(cell).members.Keys == cell.any.Keys
              && forall k | k in cell.any :: Encoded(cell).members[k] == JStr(cell.any[k])
  {}

  function Printed(ns: set<int>): set<string> {
    set n | n in ns :: DecimalInt(n)
  }

  lemma Pick<T>(ns: set<T>) returns (n: T)
    requires ns != {}
    ensures n in ns
  {
    n :| n in ns;
  }

  /** No two numbers print alike. */
  lemma {:induction false} AsManyPrinted(ns: set<int>)
    ensures |Printed(ns)| == |ns|
  {
    if ns == {} {
      assert Printed(ns) == {};
    } else {
      hide DecimalInt;
      var x := Pick(ns);
      AsManyPrinted(ns - {x});
      DecimalsDiffer();
      assert Printed(ns) == Printed(ns - {x}) + {DecimalInt(x)};
    }
  }

  /** An int-keyed map has one member for each entry, under the decimal its key is printed as. */
  lemma NumberTablesWritten(cell: Cell)
    requires cell.NumberToWords?
    ensures Encoded(cell).JObj? && Encoded(cell).members.Keys == Printed(cell.byNumber.Keys)
    ensures |Encoded(cell).members| == |cell.byNumber|
    ensures forall n | n in cell.byNumber :: Encoded(cell).members[DecimalInt(n)] == JStr(cell.byNumber[n])
  {
    var m, members := cell.byNumber, Encoded(cell).members;
    hide DecimalInt;
    assert members.Keys == Printed(m.Keys);
    AsManyPrinted(m.Keys);
    assert |members.Keys| == |members| && |m.Keys| == |m|;
  }

  /** What the content of a cell says is what its fields say. */
  lemma ContentIs(cell: Cell)
    ensures cell.Number? ==> Content(cell) == Single(Int(cell.n))
    ensures cell.Words? ==> Content(cell) == Single(Str(cell.s))
    ensures cell.Numbers? ==>
              && Content(cell).Many? && |Content(cell).atoms| == |cell.ns|
              && forall i | 0 <= i < |cell.ns| :: Content(cell).atoms[i] == Int(cell.ns[i])
    ensures cell.WordList? ==>
              && Content(cell).Many? && |Content(cell).atoms| == |cell.ss|
              && forall i | 0 <= i < |cell.ss| :: Content(cell).atoms[i] == Str(cell.ss[i])
    ensures cell.NumberToWords? ==>
              && Content(cell).Table?
              && forall a :: a in Content(cell).table <==> a.Int? && a.n in cell.byNumber
    ensures cell.NumberToWords? ==> forall n | n in cell.byNumber ::
              Int(n) in Content(cell).table && Content(cell).table[Int(n)] == Str(cell.byNumber[n])
  {}
}
