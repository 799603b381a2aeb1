/**
  What the pieces of `strings` and `strconv` compute, said without them: which texts are numerals and of
  what number, what is blank, what trimming leaves, and what is printed.
 */
module TextLaws {
  import opened Wrappers
  import opened Text

  const DIGITS := "0123456789"

  /** The code points of unicode.IsSpace. */
  const SPACES :=
    "\t\n\U{B}\U{C}\r \U{85}\U{A0}\U{1680}\U{2000}\U{2001}\U{2002}\U{2003}\U{2004}\U{2005}\U{2006}\U{2007}\U{2008}"
    + "\U{2009}\U{200A}\U{2028}\U{2029}\U{202F}\U{205F}\U{3000}"

  // ----- numerals -----

  function Power(n: nat): nat {
    if n == 0 then 1 else 10 * Power(n - 1)
  }

  predicate OnlyDigits(s: string) {
    forall c | c in s :: c in DIGITS
  }

  /** The place of a digit among the digits. */
  function Digit(c: char): nat {
    IndexOf(DIGITS, c)
  }

  /** Every digit counts by its place in the text. */
  function Positional(s: string): nat {
    if s == "" then 0 else Digit(s[0]) * Power(|s| - 1) + Positional(s[1..])
  }

  /** An optional sign and at least one digit, with `n` as its value. */
  ghost predicate Numeral(s: string, n: int) {
    exists sign: string, digits: string ::
      && s == sign + digits && digits != "" && OnlyDigits(digits)
      && (((sign == "" || sign == "+") && n == Positional(digits)) || (sign == "-" && -n == Positional(digits)))
  }

  predicate InRange(width: Width, n: int) {
    match width
    case W32 => -2147483648 <= n <= 2147483647
    case W64 => -9223372036854775808 <= n <= 9223372036854775807
  }

  lemma DigitIs(c: char)
    ensures IsDigit(c) <==> c in DIGITS
    ensures IsDigit(c) ==> DigitValue(c) == Digit(c)
  {
    if IsDigit(c) {
      var d := c as int - '0' as int;
      assert DIGITS[d] == c;
      IndexOfUnique(DIGITS, c, d);
    }
  }

  lemma DigitsAreDigits(s: string)
    ensures AllDigits(s) <==> OnlyDigits(s)
  {
    forall i | 0 <= i < |s| ensures IsDigit(s[i]) <==> s[i] in DIGITS { DigitIs(s[i]); }
    assert forall i | 0 <= i < |s| :: s[i] in s;
  }

  lemma TenTimes(d: nat, p: nat)
    ensures d * (10 * p) == 10 * (d * p)
  {}

  lemma {:induction false} PositionalAppend(s: string, c: char)
    ensures Positional(s + [c]) == Positional(s) * 10 + Digit(c)
  {
    hide Digit;
    if s == "" {
      assert s + [c] == [c] && [c][1..] == "";
      assert Power(0) == 1 && Positional("") == 0;
    } else {
      PositionalAppend(s[1..], c);
      assert (s + [c])[1..] == s[1..] + [c] && (s + [c])[0] == s[0];
      TenTimes(Digit(s[0]), Power(|s| - 1));
      assert Power(|s|) == 10 * Power(|s| - 1);
    }
  }

  lemma DigitsValueAppend(s: string, c: char)
    requires AllDigits(s + [c])
    ensures AllDigits(s) && DigitsValue(s + [c]) == DigitsValue(s) * 10 + Digit(c)
  {
    var all := s + [c];
    assert all[|s|] == c && all[..|s|] == s;
    assert forall i | 0 <= i < |s| :: s[i] == all[i];
    DigitIs(c);
    hide Digit;
  }

  lemma {:induction false} DigitsValueIsPositional(s: string)
    requires AllDigits(s)
    ensures DigitsValue(s) == Positional(s)
  {
    if s != "" {
      hide AllDigits;
      hide Digit;
      hide Positional;
      hide DigitsValue;
      var before, c := s[..|s| - 1], s[|s| - 1];
      assert s == before + [c];
      DigitsValueAppend(before, c);
      DigitsValueIsPositional(before);
      PositionalAppend(before, c);
    }
  }

  lemma HoldsIsInRange(width: Width, n: int)
    ensures width.Holds(n) <==> InRange(width, n)
  {}

  lemma DigitsMean(s: string)
    ensures AllDigits(s) <==> OnlyDigits(s)
    ensures AllDigits(s) ==> DigitsValue(s) == Positional(s)
    ensures s != "" && OnlyDigits(s) ==> s[0] != '-' && s[0] != '+'
  {
    DigitsAreDigits(s);
    if AllDigits(s) { DigitsValueIsPositional(s); }
    if s != "" && OnlyDigits(s) { assert IsDigit(s[0]); }
  }

  lemma ParsedIsNumeral(s: string, width: Width)
    ensures ParseInt(s, width).Some? ==> Numeral(s, ParseInt(s, width).value)
  {
    var signed := s != "" && (s[0] == '-' || s[0] == '+');
    var sign, digits := if signed then s[..1] else "", if signed then s[1..] else s;
    assert s == sign + digits;
    DigitsMean(digits);
    hide AllDigits;
    hide OnlyDigits;
    hide Positional;
    hide DigitsValue;
  }

  lemma NumeralParses(s: string, width: Width, n: int)
    requires Numeral(s, n) && width.Holds(n)
    ensures ParseInt(s, width) == Some(n)
  {
    hide AllDigits;
    hide OnlyDigits;
    hide Positional;
    hide DigitsValue;
    var sign: string, digits: string :|
      && s == sign + digits && digits != "" && OnlyDigits(digits)
      && (((sign == "" || sign == "+") && n == Positional(digits)) || (sign == "-" && -n == Positional(digits)));
    DigitsMean(digits);
    if sign == "" {
      assert s == digits;
    } else {
      assert s[0] == sign[0] && s[1..] == digits;
    }
  }

  /** A text parses exactly when it is a numeral of a number in range, and to that number. */
  lemma ParseIntExactly(s: string, width: Width, n: int)
    ensures ParseInt(s, width) == Some(n) <==> Numeral(s, n) && InRange(width, n)
  {
    HoldsIsInRange(width, n);
    ParsedIsNumeral(s, width);
    if Numeral(s, n) && width.Holds(n) { NumeralParses(s, width, n); }
    hide ParseInt;
    hide Numeral;
  }

  /** A number is printed as a numeral of it, without a plus sign and without leading zeros. */
  lemma PrintsItsNumeral(n: int)
    ensures Numeral(DecimalInt(n), n)
    ensures n == 0 ==> DecimalInt(n) == "0"
    ensures n > 0 ==> DecimalInt(n)[0] in DIGITS && DecimalInt(n)[0] != '0'
    ensures n < 0 ==> |DecimalInt(n)| > 1 && DecimalInt(n)[0] == '-' && DecimalInt(n)[1] != '0'
  {
    var m: nat := if n < 0 then -n else n;
    var digits := Decimal(m);
    DecimalValue(m);
    DigitsAreDigits(digits);
    DigitsValueIsPositional(digits);
    NoLeadingZero(m);
    var sign := if n < 0 then "-" else "";
    assert DecimalInt(n) == sign + digits;
    DigitIs(digits[0]);
    assert n == 0 ==> digits == "0" by { assert DigitChar(0) == '0'; }
  }

  lemma {:induction false} NoLeadingZero(n: nat)
    ensures n > 0 ==> Decimal(n)[0] != '0'
  {
    if n >= 10 {
      NoLeadingZero(n / 10);
    }
  }

  // ----- blanks and trimming -----

  predicate OnlySpaces(s: string) {
    forall c | c in s :: c in SPACES
  }

  lemma SpaceIs(c: char)
    ensures IsSpace(c) <==> c in SPACES
  {}

  lemma SpacesAre(s: string)
    ensures OnlySpaces(s) <==> forall c | c in s :: IsSpace(c)
  {
    forall c ensures IsSpace(c) <==> c in SPACES { SpaceIs(c); }
  }

  lemma {:induction false} LeftGone(a: string, s: string)
    requires (forall c | c in a :: IsSpace(c)) && (s == "" || !IsSpace(s[0]))
    ensures TrimLeft(a + s) == s
  {
    if a == "" {
      assert a + s == s;
    } else {
      assert a[0] in a && (a + s)[1..] == a[1..] + s;
      LeftGone(a[1..], s);
    }
  }

  lemma {:induction false} RightGone(s: string, b: string)
    requires (forall c | c in b :: IsSpace(c)) && (s == "" || !IsSpace(s[|s| - 1]))
    ensures TrimRight(s + b) == s
  {
    if b == "" {
      assert s + b == s;
    } else {
      assert b[|b| - 1] in b && (s + b)[..|s + b| - 1] == s + b[..|b| - 1];
      RightGone(s, b[..|b| - 1]);
    }
  }

  predicate Tight(t: string) {
    t == "" || (t[0] !in SPACES && t[|t| - 1] !in SPACES)
  }

  /** `t` is `s` without the spaces around it. */
  ghost predicate Trimmed(s: string, t: string) {
    Tight(t) && exists a: string, b: string :: s == a + t + b && OnlySpaces(a) && OnlySpaces(b)
  }

  lemma TrimmedAway(s: string)
    ensures Trimmed(s, TrimSpace(s))
  {
    var a := TrimLeftDrops(s);
    var left := TrimLeft(s);
    var b := TrimRightDrops(left);
    var t := TrimRight(left);
    assert s == a + t + b;
    SpacesAre(a);
    SpacesAre(b);
    TrimLeftTight(s);
    TrimRightTight(left);
    if t != "" {
      assert left[0] == t[0];
      SpaceIs(t[0]);
      SpaceIs(t[|t| - 1]);
    }
  }

  lemma {:induction false} TrimLeftTight(s: string)
    ensures TrimLeft(s) == "" || !IsSpace(TrimLeft(s)[0])
  {
    if s != "" && IsSpace(s[0]) { TrimLeftTight(s[1..]); }
  }

  lemma {:induction false} TrimRightTight(s: string)
    ensures TrimRight(s) == "" || !IsSpace(TrimRight(s)[|TrimRight(s)| - 1])
  {
    if s != "" && IsSpace(s[|s| - 1]) { TrimRightTight(s[..|s| - 1]); }
  }

  /** Trimming leaves exactly the text between the spaces around it. */
  lemma TrimSpaceExactly(s: string, t: string)
    ensures TrimSpace(s) == t <==> Trimmed(s, t)
  {
    TrimmedAway(s);
    if Trimmed(s, t) {
      var a: string, b: string :| s == a + t + b && OnlySpaces(a) && OnlySpaces(b);
      SpacesAre(a);
      SpacesAre(b);
      if t == "" {
        SpacesAre(s);
        assert forall c | c in s :: c in a || c in b;
        assert s + "" == s;
        LeftGone(s, "");
      } else {
        SpaceIs(t[0]);
        SpaceIs(t[|t| - 1]);
        assert s == a + (t + b);
        LeftGone(a, t + b);
        RightGone(t, b);
      }
    }
  }

  /** A text is blank exactly when it holds nothing but spaces. */
  lemma BlankIsSpaces(s: string)
    ensures Blank(s) <==> OnlySpaces(s)
  {
    TrimSpaceExactly(s, "");
    if OnlySpaces(s) {
      var t := "";
      assert s == s + t + t && OnlySpaces(t);
    }
  }
}
