/**
  Printing a value as a cell and parsing it back. Strings are printed in single quotes and numbers
  in decimal; elements and entries are joined with `|`; nothing is escaped, because the parser
  undoes no escapes.
 */
module CellRoundTrip {
  import opened Wrappers
  import opened Text
  import opened CellParser
  import opened CellLaws

  function Quoted(s: string): string {
    "'" + s + "'"
  }

  lemma QuotedField(s: string)
    ensures TrimSpace(Quoted(s)) == Quoted(s) && Field(Quoted(s)) == s
  {
    assert !IsSpace('\'');
    TrimSpaceKeeps(Quoted(s));
    assert Quoted(s)[1..|Quoted(s)| - 1] == s;
  }

  lemma DecimalHasNoSpace(n: int)
    ensures TrimSpace(DecimalInt(n)) == DecimalInt(n) != ""
    ensures Field(DecimalInt(n)) == DecimalInt(n)
    ensures forall c | c in DecimalInt(n) :: c != '|' && c != '=' && !IsQuote(c)
  {
    var s := DecimalInt(n);
    assert forall i | 0 <= i < |s| :: !IsSpace(s[i]);
    TrimSpaceKeeps(s);
  }

  /** The printed cell of a list of pieces; no pieces print as the blank cell. */
  function Cells(pieces: seq<string>): string {
    if pieces == [] then "" else Join(pieces, '|')
  }

  predicate Barless(s: string) {
    '|' !in s
  }

  /** A cell printed from a piece that starts with a printing character is not blank. */
  lemma {:induction false} PrintedIsNotBlank(pieces: seq<string>)
    requires pieces != [] && pieces[0] != "" && !IsSpace(pieces[0][0])
    ensures !Blank(Cells(pieces))
  {
    var s := Cells(pieces);
    assert s[0] == pieces[0][0];
    TrimSpaceChars(s);
    assert s[0] in s;
  }

  // ----- arrays -----

  function NumberPieces(ns: seq<int>): (pieces: seq<string>)
    ensures |pieces| == |ns|
  {
    if ns == [] then [] else NumberPieces(ns[..|ns| - 1]) + [DecimalInt(ns[|ns| - 1])]
  }

  lemma NumberPieceParses(n: int, width: Width)
    requires width.Holds(n)
    ensures ParseElement(DecimalInt(n), width) == Ok(n) && PrintsClean(DecimalInt(n))
  {
    DecimalHasNoSpace(n);
    ParsePrinted(n, width);
    assert DecimalInt(n)[0] in DecimalInt(n);
    hide ParseInt;
  }

  /** A piece that is seen when it stands first and that does not split. */
  predicate PrintsClean(p: string) {
    p != "" && !IsSpace(p[0]) && Barless(p)
  }

  lemma {:induction false} NumberPiecesParse(ns: seq<int>, width: Width)
    requires forall i | 0 <= i < |ns| :: width.Holds(ns[i])
    ensures ParseElements(NumberPieces(ns), width) == Ok(ns)
    ensures forall i | 0 <= i < |ns| :: PrintsClean(NumberPieces(ns)[i])
  {
    hide ParseElement;
    hide PrintsClean;
    hide DecimalInt;
    if ns != [] {
      NumberPiecesParse(ns[..|ns| - 1], width);
      NumberPieceParses(ns[|ns| - 1], width);
      assert ns == ns[..|ns| - 1] + [ns[|ns| - 1]];
    }
  }

  /** Splitting a printed cell gives its pieces back when they print clean. */
  lemma CleanPiecesSplit(pieces: seq<string>)
    requires pieces != [] && forall i | 0 <= i < |pieces| :: PrintsClean(pieces[i])
    ensures !Blank(Cells(pieces)) && Split(Cells(pieces), '|') == pieces
  {
    PrintedIsNotBlank(pieces);
    assert forall p | p in pieces :: '|' !in p;
    SplitJoinedClean(pieces, '|');
  }

  function ArrayType(width: Width): string {
    if width.W32? then "int32[]" else "int64[]"
  }

  lemma ArrayDispatch(raw: string, width: Width)
    ensures CellOf(raw, ArrayType(width)) == CellOfNumbers(raw, width)
    ensures CellOf(raw, "string[]") == Ok(CellOfWordList(raw))
  {
    hide CellOfNumbers;
    hide CellOfWordList;
    hide CellOfMap;
    hide CellOfNumber;
  }

  /** Every array of in-range integers prints and parses back. */
  lemma NumberArrayRoundTrip(ns: seq<int>, width: Width)
    requires forall i | 0 <= i < |ns| :: width.Holds(ns[i])
    ensures CellOf(Cells(NumberPieces(ns)), ArrayType(width)) == Ok(Numbers(width, ns))
  {
    ArrayDispatch(Cells(NumberPieces(ns)), width);
    hide CellOf;
    hide ParseElements;
    hide Split;
    hide PrintsClean;
    NumberPiecesParse(ns, width);
    hide NumberPieces;
    if ns != [] {
      CleanPiecesSplit(NumberPieces(ns));
      hide Cells;
      hide Blank;
    } else {
      assert NumberPieces(ns) == [];
    }
  }

  // ----- string arrays -----

  function QuotedPieces(ss: seq<string>): (pieces: seq<string>)
    ensures |pieces| == |ss|
    ensures forall i | 0 <= i < |ss| :: pieces[i] == Quoted(ss[i])
  {
    if ss == [] then [] else QuotedPieces(ss[..|ss| - 1]) + [Quoted(ss[|ss| - 1])]
  }

  lemma {:induction false} QuotedPiecesParse(ss: seq<string>)
    ensures ParseWords(QuotedPieces(ss)) == ss
  {
    hide Field;
    hide Quoted;
    if ss != [] {
      QuotedPiecesParse(ss[..|ss| - 1]);
      QuotedField(ss[|ss| - 1]);
      assert ss == ss[..|ss| - 1] + [ss[|ss| - 1]];
    }
  }

  lemma {:induction false} ParsedWordsAreBarless(parts: seq<string>, i: nat)
    requires i < |parts| && Barless(parts[i])
    ensures Barless(ParseWords(parts)[i])
  {
    if i == |parts| - 1 {
      FieldIsBarless(parts[i]);
      hide Field;
    } else {
      hide Field;
      ParsedWordsAreBarless(parts[..|parts| - 1], i);
    }
  }

  lemma FieldIsBarless(s: string)
    requires Barless(s)
    ensures Barless(Field(s))
  {
    TrimSpaceChars(s);
  }

  lemma QuotedPrintsClean(s: string)
    ensures PrintsClean(Quoted(s)) <==> Barless(s)
  {
    assert !IsSpace('\'');
    assert forall c :: c in Quoted(s) <==> c == '\'' || c in s;
  }

  /** A string array prints and parses back exactly when no element holds a `|`: quotes do not protect it. */
  lemma StringArrayRoundTrip(ss: seq<string>)
    ensures CellOf(Cells(QuotedPieces(ss)), "string[]") == Ok(WordList(ss)) <==>
            forall i | 0 <= i < |ss| :: Barless(ss[i])
  {
    var pieces := QuotedPieces(ss);
    ArrayDispatch(Cells(pieces), W32);
    hide CellOf;
    hide Split;
    hide Barless;
    hide PrintsClean;
    hide ParseWords;
    hide Quoted;
    QuotedPiecesParse(ss);
    hide QuotedPieces;
    if forall i | 0 <= i < |ss| :: Barless(ss[i]) {
      if ss != [] {
        forall i | 0 <= i < |pieces| ensures PrintsClean(pieces[i]) { QuotedPrintsClean(ss[i]); }
        CleanPiecesSplit(pieces);
        hide Cells;
        hide Blank;
      }
    } else if CellOf(Cells(pieces), "string[]") == Ok(WordList(ss)) {
      hide Cells;
      hide Blank;
      var parts := Split(Cells(pieces), '|');
      assert ss == ParseWords(parts);
      forall i | 0 <= i < |ss| ensures Barless(ss[i]) {
        PartsAreBarless(Cells(pieces), i);
        ParsedWordsAreBarless(parts, i);
      }
    }
  }

  lemma PartsAreBarless(raw: string, i: nat)
    requires i < |Split(raw, '|')|
    ensures Barless(Split(raw, '|')[i])
  {
    SplitPieces(raw, '|');
  }

  // ----- map entries -----

  lemma {:induction false} QuoteCountAdds(a: string, b: string)
    ensures QuoteCount(a + b) == QuoteCount(a) + QuoteCount(b)
  {
    if b == "" {
      assert a + b == a;
    } else {
      assert (a + b)[..|a + b| - 1] == a + b[..|b| - 1];
      QuoteCountAdds(a, b[..|b| - 1]);
    }
  }

  lemma {:induction false} NoQuotesCountZero(s: string)
    requires forall c | c in s :: !IsQuote(c)
    ensures QuoteCount(s) == 0
  {
    if s != "" {
      assert s[|s| - 1] in s;
      NoQuotesCountZero(s[..|s| - 1]);
    }
  }

  /**
    A printed entry `head=tail` splits between the two when no `=` in the head is outside quotes and
    either the head's quotes are balanced, or neither the head has an `=` nor the tail one outside quotes.
   */
  ghost predicate Separable(head: string, tail: string) {
    && (forall i: nat :: !BareEquals(head, i))
    && (QuoteCount(head) % 2 == 0 || ('=' !in head && forall j: nat :: !OddEquals(tail, j)))
  }

  /** Position `j` holds an `=` that an odd number of quote characters precede. */
  predicate OddEquals(s: string, j: nat) {
    j < |s| && s[j] == '=' && QuoteCount(s[..j]) % 2 == 1
  }

  lemma HeadEquals(head: string, tail: string, i: nat)
    requires i < |head|
    ensures BareEquals(head + "=" + tail, i) <==> BareEquals(head, i)
  {
    assert (head + "=" + tail)[..i] == head[..i];
  }

  lemma CountPastEquals(head: string, x: string)
    ensures QuoteCount(head + "=" + x) == QuoteCount(head) + QuoteCount(x)
  {
    QuoteCountAdds(head + "=", x);
    QuoteCountAdds(head, "=");
    assert "="[..0] == "";
  }

  lemma TailEquals(head: string, tail: string, j: nat)
    requires j < |tail| && QuoteCount(head) % 2 == 1
    ensures BareEquals(head + "=" + tail, |head| + 1 + j) <==> OddEquals(tail, j)
  {
    hide BareEquals;
    hide OddEquals;
    hide QuoteCount;
    PrefixPastEquals(head, tail, j);
    CountPastEquals(head, tail[..j]);
    ParityPasses(head + "=" + tail, |head| + 1 + j, head + "=" + tail[..j], QuoteCount(head), tail, j);
  }

  lemma ParityPasses(s: string, k: nat, before: string, odd: nat, tail: string, j: nat)
    requires j < |tail| && k < |s| && s[..k] == before && s[k] == tail[j] && odd % 2 == 1
    requires QuoteCount(before) == odd + QuoteCount(tail[..j])
    ensures BareEquals(s, k) <==> OddEquals(tail, j)
  {
    hide QuoteCount;
    ParityOfSum(odd, QuoteCount(tail[..j]));
  }

  lemma PrefixPastEquals(head: string, tail: string, j: nat)
    requires j < |tail|
    ensures (head + "=" + tail)[..|head| + 1 + j] == head + "=" + tail[..j]
    ensures (head + "=" + tail)[|head| + 1 + j] == tail[j]
  {}

  lemma ParityOfSum(a: nat, b: nat)
    requires a % 2 == 1
    ensures (a + b) % 2 == 0 <==> b % 2 == 1
  {}

  /** Where the joined text has an `=` outside quotes. */
  lemma BareInJoined(head: string, tail: string)
    ensures (exists i: nat :: i < |head| && BareEquals(head + "=" + tail, i)) <==> exists i: nat :: BareEquals(head, i)
    ensures BareEquals(head + "=" + tail, |head|) <==> QuoteCount(head) % 2 == 0
    ensures QuoteCount(head) % 2 == 1 ==>
              ((exists i: nat :: i > |head| && BareEquals(head + "=" + tail, i)) <==>
                exists j: nat :: OddEquals(tail, j))
  {
    var s := head + "=" + tail;
    assert s[..|head|] == head;
    forall i: nat | i < |head| ensures BareEquals(s, i) <==> BareEquals(head, i) { HeadEquals(head, tail, i); }
    if QuoteCount(head) % 2 == 1 {
      forall j: nat | j < |tail| ensures BareEquals(s, |head| + 1 + j) <==> OddEquals(tail, j) {
        TailEquals(head, tail, j);
      }
      hide QuoteCount;
      forall i: nat | i > |head| && BareEquals(s, i) ensures OddEquals(tail, i - |head| - 1) {
        assert i == |head| + 1 + (i - |head| - 1);
      }
      forall j: nat | OddEquals(tail, j) ensures BareEquals(s, |head| + 1 + j) {}
    }
  }

  lemma FirstEqualsIsMiddle(head: string, tail: string)
    ensures IndexOf(head + "=" + tail, '=') == |head| <==> '=' !in head
  {
    var s := head + "=" + tail;
    if '=' !in head {
      IndexOfUnique(s, '=', |head|);
    } else {
      var k :| 0 <= k < |head| && head[k] == '=';
      assert s[k] == '=';
    }
  }

  /** Exactly the separable entries split where they were joined. */
  lemma SplitExactly(head: string, tail: string)
    ensures SplitPoint(head + "=" + tail) == |head| <==> Separable(head, tail)
  {
    var s := head + "=" + tail;
    FirstBareEqualsMeaning(s, 0);
    BareInJoined(head, tail);
    FirstEqualsIsMiddle(head, tail);
    hide QuoteCount;
    hide IndexOf;
    hide BareEquals;
    hide OddEquals;
    hide FirstBareEquals;
    match FirstBareEquals(s, 0)
    case None =>
      assert forall i: nat :: !BareEquals(s, i);
    case Some(i) =>
      assert BareEquals(s, i);
  }

  /** A key without quote characters always splits off, whatever the value holds. */
  lemma QuotelessKeySeparates(k: string, tail: string)
    requires forall c | c in k :: !IsQuote(c)
    ensures Separable(Quoted(k), tail)
  {
    NoQuotesCountZero(k);
    QuoteCountAdds("'" + k, "'");
    QuoteCountAdds("'", k);
    assert "'"[..0] == "";
    forall i: nat ensures !BareEquals(Quoted(k), i) {
      if 0 < i <= |k| {
        assert Quoted(k)[..i] == "'" + k[..i - 1];
        NoQuotesCountZero(k[..i - 1]);
        QuoteCountAdds("'", k[..i - 1]);
      }
    }
  }

  lemma NumberSeparates(n: int, tail: string)
    ensures Separable(DecimalInt(n), tail)
  {
    DecimalHasNoSpace(n);
    NoQuotesCountZero(DecimalInt(n));
    hide DecimalInt;
    assert forall i | 0 <= i < |DecimalInt(n)| :: DecimalInt(n)[i] in DecimalInt(n);
  }

  /** A key with a quote in it can fail to: this one breaks at its own `=`. */
  lemma QuotedKeyCanBreak(v: string)
    ensures !Separable(Quoted("'="), Quoted(v))
  {
    var h := Quoted("'=");
    assert h == ['\'', '\'', '=', '\''];
    assert h[..2] == ['\'', '\''] && h[..2][..1] == ['\''] && h[..2][..1][..0] == [];
    assert BareEquals(h, 2);
  }
}
