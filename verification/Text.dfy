/**
  The pieces of Go's `strings` and `strconv` packages that the repository's string
  work rests on: decimal printing and parsing, TrimSpace, Split and Join.
  A string is a sequence of Unicode code points.
 */
module Text {
  import opened Wrappers

  // ----- signed integer widths -----

  datatype Width = W32 | W64 {
    function Bound(): int {
      if W32? then 0x8000_0000 else 0x8000_0000_0000_0000
    }

    predicate Holds(n: int) {
      -Bound() <= n < Bound()
    }
  }

  // ----- decimal text -----

  predicate IsDigit(c: char) {
    '0' <= c <= '9'
  }

  function DigitValue(c: char): nat
    requires IsDigit(c)
  {
    c as int - '0' as int
  }

  function DigitChar(d: nat): (c: char)
    requires d < 10
    ensures IsDigit(c) && DigitValue(c) == d
  {
    ('0' as int + d) as char
  }

  predicate AllDigits(s: string) {
    forall i | 0 <= i < |s| :: IsDigit(s[i])
  }

  /** `%d` of an unsigned number. */
  function Decimal(n: nat): (s: string)
    ensures AllDigits(s) && |s| > 0
  {
    if n < 10 then [DigitChar(n)] else Decimal(n / 10) + [DigitChar(n % 10)]
  }

  /** `%d` of a signed number. */
  function DecimalInt(n: int): (s: string)
    ensures |s| > 0 && (n < 0 <==> s[0] == '-')
    ensures forall i | 0 <= i < |s| :: IsDigit(s[i]) || s[i] == '-'
  {
    if n < 0 then "-" + Decimal(-n) else Decimal(n)
  }

  function DigitsValue(s: string): nat
    requires AllDigits(s)
  {
    if s == "" then 0 else DigitsValue(s[..|s| - 1]) * 10 + DigitValue(s[|s| - 1])
  }

  lemma {:induction false} DecimalValue(n: nat)
    ensures DigitsValue(Decimal(n)) == n
  {
    if n < 10 {
      assert Decimal(n)[..0] == "";
    } else {
      DecimalValue(n / 10);
      var s := Decimal(n);
      assert s[..|s| - 1] == Decimal(n / 10);
    }
  }

  lemma DecimalInjective(m: nat, n: nat)
    requires Decimal(m) == Decimal(n)
    ensures m == n
  {
    DecimalValue(m);
    DecimalValue(n);
  }

  /** strconv.ParseInt(s, 10, width): an optional sign, then at least one digit, then the range check. */
  function ParseInt(s: string, width: Width): (r: Option<int>)
    ensures r.Some? ==> width.Holds(r.value)
  {
    var signed := |s| > 0 && (s[0] == '-' || s[0] == '+');
    var digits := if signed then s[1..] else s;
    if digits == "" || !AllDigits(digits) then None
    else
      var magnitude: int := DigitsValue(digits);
      var n: int := if signed && s[0] == '-' then -magnitude else magnitude;
      if width.Holds(n) then Some(n) else None
  }

  /** Parsing a printed number gives the number back. */
  lemma ParsePrinted(n: int, width: Width)
    requires width.Holds(n)
    ensures ParseInt(DecimalInt(n), width) == Some(n)
  {
    var s := DecimalInt(n);
    if n < 0 {
      DecimalValue(-n);
      assert s[1..] == Decimal(-n);
    } else {
      DecimalValue(n);
      assert IsDigit(s[0]);
    }
  }

  lemma DecimalIntInjective(m: int, n: int)
    requires DecimalInt(m) == DecimalInt(n)
    ensures m == n
  {
    if m < 0 && n < 0 {
      assert DecimalInt(m)[1..] == Decimal(-m) && DecimalInt(n)[1..] == Decimal(-n);
      DecimalInjective(-m, -n);
    } else if m >= 0 && n >= 0 {
      DecimalInjective(m, n);
    }
  }

  // ----- strings.TrimSpace -----

  /** unicode.IsSpace. */
  predicate IsSpace(c: char) {
    || '\t' <= c <= '\r' || c == ' ' || c == '\U{85}' || c == '\U{A0}' || c == '\U{1680}'
    || '\U{2000}' <= c <= '\U{200A}' || '\U{2028}' <= c <= '\U{2029}' || c == '\U{202F}'
    || c == '\U{205F}' || c == '\U{3000}'
  }

  function TrimLeft(s: string): string {
    if s != "" && IsSpace(s[0]) then TrimLeft(s[1..]) else s
  }

  function TrimRight(s: string): string {
    if s != "" && IsSpace(s[|s| - 1]) then TrimRight(s[..|s| - 1]) else s
  }

  function TrimSpace(s: string): string {
    TrimRight(TrimLeft(s))
  }

  predicate Blank(s: string) {
    TrimSpace(s) == ""
  }

  /** Text that neither starts nor ends with a space is left alone. */
  lemma TrimSpaceKeeps(s: string)
    requires s != "" && !IsSpace(s[0]) && !IsSpace(s[|s| - 1])
    ensures TrimSpace(s) == s
  {}

  lemma {:induction false} TrimLeftDrops(s: string) returns (a: string)
    ensures s == a + TrimLeft(s) && forall c | c in a :: IsSpace(c)
  {
    a := "";
    if s != "" && IsSpace(s[0]) {
      var rest := TrimLeftDrops(s[1..]);
      a := [s[0]] + rest;
    }
  }

  lemma {:induction false} TrimRightDrops(s: string) returns (b: string)
    ensures s == TrimRight(s) + b && forall c | c in b :: IsSpace(c)
  {
    b := "";
    if s != "" && IsSpace(s[|s| - 1]) {
      var rest := TrimRightDrops(s[..|s| - 1]);
      b := rest + [s[|s| - 1]];
    }
  }

  /** Trimming removes spaces, and nothing else. */
  lemma TrimSpaceChars(s: string)
    ensures forall c | c in TrimSpace(s) :: c in s
    ensures forall c | c in s && !IsSpace(c) :: c in TrimSpace(s)
  {
    var a := TrimLeftDrops(s);
    var b := TrimRightDrops(TrimLeft(s));
    assert s == a + TrimSpace(s) + b;
  }

  // ----- strings.Split and strings.Join with a one-character separator -----

  /** Position of the first `c`, or the length when there is none. */
  function IndexOf(s: string, c: char): (i: nat)
    ensures i <= |s|
    ensures forall k | 0 <= k < i :: s[k] != c
    ensures i < |s| ==> s[i] == c
  {
    if s == "" || s[0] == c then 0 else 1 + IndexOf(s[1..], c)
  }

  lemma IndexOfUnique(s: string, c: char, i: nat)
    requires i <= |s| && (forall k | 0 <= k < i :: s[k] != c) && (i < |s| ==> s[i] == c)
    ensures IndexOf(s, c) == i
  {
  }

  function Split(s: string, sep: char): (parts: seq<string>)
    ensures |parts| > 0
    decreases |s|
  {
    var i := IndexOf(s, sep);
    if i == |s| then [s] else [s[..i]] + Split(s[i + 1..], sep)
  }

  function Join(parts: seq<string>, sep: char): string
    requires |parts| > 0
  {
    if |parts| == 1 then parts[0] else parts[0] + [sep] + Join(parts[1..], sep)
  }

  lemma SplitWhole(s: string, sep: char)
    requires sep !in s
    ensures Split(s, sep) == [s]
  {
    IndexOfUnique(s, sep, |s|);
  }

  lemma SplitStep(head: string, rest: string, sep: char)
    requires sep !in head
    ensures Split(head + [sep] + rest, sep) == [head] + Split(rest, sep)
  {
    var s := head + [sep] + rest;
    IndexOfUnique(s, sep, |head|);
    hide IndexOf;
    assert s[..|head|] == head && s[|head| + 1..] == rest;
  }

  lemma JoinStep(head: string, rest: seq<string>, sep: char)
    requires rest != []
    ensures Join([head] + rest, sep) == head + [sep] + Join(rest, sep)
  {
    assert ([head] + rest)[1..] == rest;
  }

  /** No piece holds the separator, and joining the pieces gives the text back. */
  lemma {:induction false} SplitPieces(s: string, sep: char)
    ensures forall p | p in Split(s, sep) :: sep !in p
    ensures Join(Split(s, sep), sep) == s
    decreases |s|
  {
    var i := IndexOf(s, sep);
    hide IndexOf;
    if i < |s| {
      var head, rest := s[..i], s[i + 1..];
      assert s == head + [sep] + rest;
      SplitPieces(rest, sep);
      SplitStep(head, rest, sep);
      JoinStep(head, Split(rest, sep), sep);
      hide Split;
      hide Join;
    } else {
      SplitWhole(s, sep);
      hide Split;
    }
  }

  /** Splitting joined pieces gives them back exactly when no piece holds the separator. */
  lemma {:induction false} SplitJoined(parts: seq<string>, sep: char)
    requires |parts| > 0
    ensures Split(Join(parts, sep), sep) == parts <==> forall p | p in parts :: sep !in p
  {
    hide Split;
    hide Join;
    if forall p | p in parts :: sep !in p {
      SplitJoinedClean(parts, sep);
    } else {
      SplitPieces(Join(parts, sep), sep);
    }
  }

  lemma {:induction false} SplitJoinedClean(parts: seq<string>, sep: char)
    requires |parts| > 0 && forall p | p in parts :: sep !in p
    ensures Split(Join(parts, sep), sep) == parts
  {
    hide Split;
    assert sep !in parts[0];
    if |parts| == 1 {
      SplitWhole(parts[0], sep);
    } else {
      var rest := parts[1..];
      assert forall p | p in rest :: p in parts;
      SplitJoinedClean(rest, sep);
      JoinStep(parts[0], rest, sep);
      hide Join;
      assert parts == [parts[0]] + rest;
      SplitStep(parts[0], Join(rest, sep), sep);
    }
  }
}
