/**
  The edit form for typed database values: a value is printed into a form control, and what
  the control holds is parsed back when the form is saved.
 */
module TypedEdit {
  import opened Basics
  import opened Text
  import Decimal
  import Doubles
  import Escape

  // ---------------------------------------------------------------- numbers in a form

  /** From this magnitude on JavaScript prints a number with an exponent. */
  const EXPONENT_FROM: nat := 1_000_000_000_000_000_000_000

  function StripZeros(digits: string): string {
    if digits != "" && digits[|digits| - 1] == '0' then StripZeros(digits[..|digits| - 1]) else digits
  }

  /** One digit, the other digits that count after a point, and the exponent. */
  function WithExponent(digits: string): string
    requires digits != ""
  {
    var rest := StripZeros(digits[1..]);
    [digits[0]] + (if rest == "" then "" else "." + rest) + "e+" + Decimal.Print(|digits| - 1)
  }

  function ShowMagnitude(p: nat): string {
    Decimal.PrintThenValue(p);
    if p < EXPONENT_FROM then Decimal.Print(p) else WithExponent(Decimal.Print(p))
  }

  /** The text of the whole number `x`, whose digits and zeros are those of `p`. */
  function Show(x: int, p: nat): string {
    if x < 0 then "-" + ShowMagnitude(p) else ShowMagnitude(p)
  }

  function DigitsEnd(s: string, i: nat): (end: nat)
    requires i <= |s|
    ensures i <= end <= |s|
    ensures forall k :: i <= k < end ==> Decimal.IsDigit(s[k])
    ensures end < |s| ==> !Decimal.IsDigit(s[end])
    decreases |s| - i
  {
    if i < |s| && Decimal.IsDigit(s[i]) then DigitsEnd(s, i + 1) else i
  }

  lemma DigitsThen(digits: string, rest: string)
    requires Decimal.AllDigits(digits)
    requires rest == "" || !Decimal.IsDigit(rest[0])
    ensures DigitsEnd(digits + rest, 0) == |digits|
    ensures (digits + rest)[..|digits|] == digits && (digits + rest)[|digits|..] == rest
  {
    var s := digits + rest;
    var end := DigitsEnd(s, 0);
    assert forall k :: 0 <= k < |digits| ==> s[k] == digits[k];
    assert rest != "" ==> s[|digits|] == rest[0];
    assert end == |digits|;
  }

  lemma ShowStartsWithDigit(p: nat)
    ensures ShowMagnitude(p) != "" && Decimal.IsDigit(ShowMagnitude(p)[0])
  {
    Decimal.PrintThenValue(p);
  }

  // ---------------------------------------------------------------- integers

  function Magnitude(n: int): nat {
    if n < 0 then -n else n
  }

  /** What a database integer can be. */
  predicate IsI64(n: int) {
    -0x8000_0000_0000_0000 <= n < 0x8000_0000_0000_0000
  }

  function Signed(negative: bool, m: nat): int {
    if negative then 0 - m else m
  }

  /** The number the page holds after reading the integer `n`. */
  function PageNumber(n: int): int {
    Signed(n < 0, Doubles.Round(Magnitude(n)))
  }

  /** The digits a string starts with; anything after them is ignored. */
  function ParseMagnitude(s: string): Option<nat> {
    var end := DigitsEnd(s, 0);
    if end == 0 then None else Some(Decimal.Value(s[..end]))
  }

  /** `parseInt` on decimal text; `None` is `NaN`. */
  function ParseInteger(raw: string): Option<int> {
    var s := TrimLeft(raw);
    var negative := s != "" && s[0] == '-';
    var m := ParseMagnitude(if s != "" && (s[0] == '-' || s[0] == '+') then s[1..] else s);
    if m.None? then None else Some(PageNumber(Signed(negative, m.value)))
  }

  /** The server reads the digits it is sent exactly, and refuses what is not a 64-bit integer. */
  function ReadI64(json: string): Option<int> {
    var negative := json != "" && json[0] == '-';
    var digits := if negative then json[1..] else json;
    if digits == "" || !Decimal.AllDigits(digits) then None
    else
      var n := Signed(negative, Decimal.Value(digits));
      if IsI64(n) then Some(n) else None
  }

  /**
    Opening the form on the integer `n` and saving it unchanged: what the server stores, or
    `None` when nothing is stored.  The page's number is printed as `p`.
   */
  function SavedUnchanged(n: int, p: nat): Option<int> {
    var held := ParseInteger(Show(PageNumber(n), p));
    if held.None? then None else ReadI64(Show(held.value, p))
  }

  lemma PageNumberKeepsSign(n: int)
    ensures PageNumber(n) < 0 <==> n < 0
    ensures Magnitude(PageNumber(n)) == Doubles.Round(Magnitude(n))
  {
    if Doubles.Round(Magnitude(n)) == 0 {
      Doubles.ZeroIsAlone(Magnitude(n));
    }
  }

  lemma PrintedIsBounded(m: nat, p: nat)
    requires m <= 0x8000_0000_0000_0000 && Doubles.IsPrinted(Doubles.Round(m), p)
    ensures p < EXPONENT_FROM
  {
    Doubles.PrintedIsRead(Doubles.Round(m), p);
    Doubles.RoundIsClose(m);
    Doubles.RoundIsClose(p);
  }

  lemma PrintedIsPlain(n: int, p: nat)
    requires IsI64(n) && Doubles.IsPrinted(Magnitude(PageNumber(n)), p)
    ensures p < EXPONENT_FROM && PageNumber(Signed(n < 0, p)) == PageNumber(n)
    ensures PageNumber(n) < 0 <==> n < 0
  {
    PageNumberKeepsSign(n);
    Doubles.PrintedIsRead(Magnitude(PageNumber(n)), p);
    PrintedIsBounded(Magnitude(n), p);
    if p == 0 {
      assert Doubles.Round(0) == 0;
    }
  }

  lemma PlainIsParsed(x: int, p: nat)
    requires p < EXPONENT_FROM
    ensures ParseInteger(Show(x, p)) == Some(PageNumber(Signed(x < 0, p)))
    ensures ReadI64(Show(x, p)) == if IsI64(Signed(x < 0, p)) then Some(Signed(x < 0, p)) else None
  {
    var digits, text := Decimal.Print(p), Show(x, p);
    Decimal.PrintThenValue(p);
    DigitsThen(digits, "");
    assert digits + "" == digits;
    assert TrimLeft(text) == text;
    assert x < 0 ==> text[1..] == digits;
  }

  /** Printing the page's number into the form and parsing it gives that number back. */
  lemma FormGivesPageNumberBack(n: int, p: nat)
    requires IsI64(n) && Doubles.IsPrinted(Magnitude(PageNumber(n)), p)
    ensures ParseInteger(Show(PageNumber(n), p)) == Some(PageNumber(n))
  {
    PrintedIsPlain(n, p);
    PlainIsParsed(PageNumber(n), p);
  }

  /** The page holds a database integer as it is exactly when it fits into 53 significant bits. */
  lemma PageHoldsExactlyWhen(n: int)
    ensures PageNumber(n) == n <==> Doubles.FitsDouble(Magnitude(n))
  {
    Doubles.HeldExactlyWhen(Magnitude(n));
  }

  /** The server stores the integer with the printed digits, if it has 64 bits. */
  lemma SavedIsPrinted(n: int, p: nat)
    requires IsI64(n) && Doubles.IsPrinted(Magnitude(PageNumber(n)), p)
    ensures SavedUnchanged(n, p) == if IsI64(Signed(n < 0, p)) then Some(Signed(n < 0, p)) else None
  {
    FormGivesPageNumberBack(n, p);
    PrintedIsPlain(n, p);
    PlainIsParsed(PageNumber(n), p);
  }

  /**
    Saving an unchanged integer keeps it in the database exactly when the page prints its own
    reading of it with the same digits, which is tested on at most four neighbours of the reading.
   */
  lemma IntegerSurvivesExactlyWhen(n: int, p: nat)
    requires IsI64(n) && Doubles.IsPrinted(Magnitude(PageNumber(n)), p)
    ensures SavedUnchanged(n, p) == Some(n) <==> Doubles.IsOwnPrint(Magnitude(n))
  {
    Doubles.OwnPrintExactlyWhen(Magnitude(n));
    SavedIsPrinted(n, p);
    PageNumberKeepsSign(n);
    SignedIs(n, p);
    PrintedIs(Doubles.Round(Magnitude(n)), p, Magnitude(n));
  }

  lemma SignedIs(n: int, p: nat)
    ensures Signed(n < 0, p) == n <==> p == Magnitude(n)
  {
  }

  lemma PrintedIs(x: nat, p: nat, m: nat)
    requires Doubles.IsPrinted(x, p)
    ensures p == m <==> Doubles.IsPrinted(x, m)
  {
    if Doubles.IsPrinted(x, m) {
      Doubles.PrintedIsUnique(x, p, m);
    }
  }

  /** Every integer up to two to the power of 53 survives. */
  lemma SafeIntegersSurvive(n: int, p: nat)
    requires Magnitude(n) <= Doubles.LIMIT && Doubles.IsPrinted(Magnitude(PageNumber(n)), p)
    ensures PageNumber(n) == n && SavedUnchanged(n, p) == Some(n)
  {
    Doubles.SmallIsHeld(Magnitude(n));
    Doubles.SmallIsPrinted(Magnitude(n), p);
    SavedIsPrinted(n, p);
    SignedIs(n, p);
  }

  /** Two to the power of 53 plus one is not held, and its neighbour is saved in its place. */
  lemma FirstIntegerLost(p: nat)
    requires Doubles.IsPrinted(Magnitude(PageNumber(9_007_199_254_740_993)), p)
    ensures SavedUnchanged(9_007_199_254_740_993, p) == Some(9_007_199_254_740_992)
  {
    Doubles.FirstNotHeld();
    Doubles.SmallIsPrinted(Doubles.LIMIT, p);
    SavedIsPrinted(9_007_199_254_740_993, p);
  }

  /** If another number of the page is as near to an integer as its reading, the reading is the even one. */
  lemma PageNumberBreaksTies(n: int, d: nat)
    requires Doubles.FitsDouble(d) && d != Magnitude(PageNumber(n))
    requires Doubles.Distance(d, Magnitude(n)) == Doubles.Distance(Magnitude(PageNumber(n)), Magnitude(n))
    ensures Magnitude(PageNumber(n)) % (2 * Doubles.Unit(Magnitude(n))) == 0
  {
    PageNumberKeepsSign(n);
    Doubles.TieIsEven(Magnitude(n), d);
  }

  /** Two to the power of 53 plus three lies half way, and is read as the upper neighbour. */
  lemma TieIsReadUp()
    ensures PageNumber(9_007_199_254_740_995) == 9_007_199_254_740_996
    ensures PageNumber(-9_007_199_254_740_995) == -9_007_199_254_740_996
  {
    Doubles.TieGoesUp();
  }

  /** Two to the power of 60 is held as it is, and still another integer is saved. */
  lemma HeldIntegerChanged(p: nat)
    requires Doubles.IsPrinted(Magnitude(PageNumber(Doubles.TWO_TO_60)), p)
    ensures PageNumber(Doubles.TWO_TO_60) == Doubles.TWO_TO_60
    ensures SavedUnchanged(Doubles.TWO_TO_60, p) == Some(1_152_921_504_606_847_000)
  {
    Doubles.TwoTo60IsPrinted();
    Doubles.PrintedIsUnique(Doubles.TWO_TO_60, p, Doubles.PRINTED_60);
    SavedIsPrinted(Doubles.TWO_TO_60, p);
  }

  /** The largest database integer cannot be saved unchanged at all. */
  lemma LargestIntegerRefused(p: nat)
    requires Doubles.IsPrinted(Magnitude(PageNumber(0x7FFF_FFFF_FFFF_FFFF)), p)
    ensures SavedUnchanged(0x7FFF_FFFF_FFFF_FFFF, p) == None
  {
    Doubles.ReadsAsTwoTo63();
    Doubles.TwoTo63IsPrinted();
    Doubles.PrintedIsUnique(Doubles.TWO_TO_63, p, Doubles.PRINTED_63);
    SavedIsPrinted(0x7FFF_FFFF_FFFF_FFFF, p);
  }

  // ---------------------------------------------------------------- booleans

  /** The option that is selected when the form opens. */
  function PrintBool(b: bool): string {
    if b then "true" else "false"
  }

  function ParseBool(raw: string): bool {
    raw == "true"
  }

  lemma BoolSurvives(b: bool)
    ensures ParseBool(PrintBool(b)) == b && PrintBool(true) == "true" && PrintBool(false) == "false"
  {
    assert "true"[0] != "false"[0];
  }

  // ---------------------------------------------------------------- vectors

  function Texts<T>(xs: seq<T>, show: T -> string): seq<string> {
    seq(|xs|, i requires 0 <= i < |xs| => show(xs[i]))
  }

  /** What the textarea holds after the escaped text went through the HTML parser. */
  function PrintVector<T>(xs: seq<T>, show: T -> string): string {
    Escape.Decode(Escape.Esc(Join(Texts(xs, show), ", ")))
  }

  /** The pieces that are numbers; the others are dropped without a word. */
  function Numbers<T>(pieces: seq<string>, parse: string -> Option<T>): seq<T> {
    if pieces == [] then []
    else
      var n := parse(Trim(pieces[0]));
      (if n.Some? then [n.value] else []) + Numbers(pieces[1..], parse)
  }

  function ParseVector<T>(raw: string, parse: string -> Option<T>): Option<seq<T>> {
    var nums := Numbers(Split(raw, ','), parse);
    if nums == [] then None else Some(nums)
  }

  /** How a number is printed: readable again, without commas, and without spaces around it. */
  predicate PrintsCleanly<T(==)>(x: T, show: T -> string, parse: string -> Option<T>) {
    && parse(show(x)) == Some(x)
    && ',' !in show(x)
    && Trim(show(x)) == show(x)
  }

  lemma {:induction false} NumbersOfTexts<T>(xs: seq<T>, pieces: seq<string>, show: T -> string, parse: string -> Option<T>)
    requires |pieces| == |xs|
    requires forall i :: 0 <= i < |xs| ==> PrintsCleanly(xs[i], show, parse) && Trim(pieces[i]) == show(xs[i])
    ensures Numbers(pieces, parse) == xs
  {
    if xs != [] {
      NumbersOfTexts(xs[1..], pieces[1..], show, parse);
      assert PrintsCleanly(xs[0], show, parse);
      assert xs == [xs[0]] + xs[1..];
    }
  }

  /** A vector of cleanly printed numbers survives the edit form exactly when it is not empty. */
  lemma VectorSurvivesExactlyWhen<T>(xs: seq<T>, show: T -> string, parse: string -> Option<T>)
    requires parse("") == None
    requires forall i :: 0 <= i < |xs| ==> PrintsCleanly(xs[i], show, parse)
    ensures ParseVector(PrintVector(xs, show), parse) == Some(xs) <==> xs != []
  {
    var texts := Texts(xs, show);
    Escape.DecodeUndoesEsc(Join(texts, ", "));
    if xs == [] {
      assert Trim("") == "";
    } else {
      forall i | 0 <= i < |texts|
        ensures ',' !in texts[i]
      {
        assert PrintsCleanly(xs[i], show, parse);
      }
      SplitOfJoin(texts);
      forall i | 0 <= i < |xs|
        ensures Trim(Padded(texts)[i]) == show(xs[i])
      {
        assert PrintsCleanly(xs[i], show, parse);
        TrimSkipsSpace(' ', texts[i]);
      }
      NumbersOfTexts(xs, Padded(texts), show, parse);
    }
  }

  /** What one piece contributes. */
  function NumberOf<T>(piece: string, parse: string -> Option<T>): seq<T> {
    var n := parse(Trim(piece));
    if n.Some? then [n.value] else []
  }

  lemma NumbersCons<T>(piece: string, rest: seq<string>, parse: string -> Option<T>)
    ensures Numbers([piece] + rest, parse) == NumberOf(piece, parse) + Numbers(rest, parse)
  {
    assert ([piece] + rest)[1..] == rest;
  }

  lemma {:induction false} NumbersJoin<T>(a: seq<string>, b: seq<string>, parse: string -> Option<T>)
    ensures Numbers(a + b, parse) == Numbers(a, parse) + Numbers(b, parse)
  {
    if a == [] {
      assert a + b == b;
    } else {
      NumbersJoin(a[1..], b, parse);
      assert a == [a[0]] + a[1..] && a + b == [a[0]] + (a[1..] + b);
      NumbersCons(a[0], a[1..], parse);
      NumbersCons(a[0], a[1..] + b, parse);
      SumsRegroup(NumberOf(a[0], parse), Numbers(a[1..], parse), Numbers(b, parse));
    }
  }

  lemma SumsRegroup<T>(a: seq<T>, b: seq<T>, c: seq<T>)
    ensures a + (b + c) == a + b + c
  {
  }

  /** A piece that is no number is left out, and a piece that is one takes its place among the others. */
  lemma PieceCounts<T>(a: seq<string>, piece: string, b: seq<string>, parse: string -> Option<T>)
    ensures var n := parse(Trim(piece));
      Numbers(a + [piece] + b, parse) == Numbers(a, parse) + (if n.Some? then [n.value] else []) + Numbers(b, parse)
  {
    NumbersJoin(a + [piece], b, parse);
    NumbersJoin(a, [piece], parse);
    NumbersCons(piece, [], parse);
    assert [piece] + [] == [piece];
  }

  /** Text without any number is refused. */
  lemma JunkIsRefused<T>(raw: string, parse: string -> Option<T>)
    ensures ParseVector(raw, parse).None? <==> forall piece :: piece in Split(raw, ',') ==> parse(Trim(piece)).None?
  {
    NoNumbersExactlyWhen(Split(raw, ','), parse);
  }

  lemma {:induction false} NoNumbersExactlyWhen<T>(pieces: seq<string>, parse: string -> Option<T>)
    ensures Numbers(pieces, parse) == [] <==> forall piece :: piece in pieces ==> parse(Trim(piece)).None?
  {
    if pieces != [] {
      NoNumbersExactlyWhen(pieces[1..], parse);
      assert pieces == [pieces[0]] + pieces[1..];
    }
  }

  /** Numbers are printed with an exponent from ten to the power of 21 on, and not before. */
  lemma ExponentBeginsAt(p: nat)
    ensures 'e' in ShowMagnitude(p) <==> p >= 1_000_000_000_000_000_000_000
  {
    var digits := Decimal.Print(p);
    Decimal.PrintThenValue(p);
    if p >= EXPONENT_FROM {
      var middle := if StripZeros(digits[1..]) == "" then "" else "." + StripZeros(digits[1..]);
      JoinedRight([digits[0]], middle, "e+", Decimal.Print(|digits| - 1));
      assert ("e+")[0] in [digits[0]] + middle + "e+";
    }
  }

  lemma {:induction false} NoSpacesNoTrim(s: string)
    requires forall i :: 0 <= i < |s| ==> !IsSpace(s[i])
    ensures Trim(s) == s
  {
  }

  function TakeDigits(s: string): (digits: string)
    ensures Decimal.AllDigits(digits)
  {
    s[..DigitsEnd(s, 0)]
  }

  function DropDigits(s: string): string {
    s[DigitsEnd(s, 0)..]
  }

  /** The digits after a point, and the text after them. */
  function Fraction(s: string): (r: (string, string))
    ensures Decimal.AllDigits(r.0)
  {
    if s != "" && s[0] == '.' then (TakeDigits(s[1..]), DropDigits(s[1..])) else ("", s)
  }

  function Exponent(s: string): nat {
    if |s| >= 2 && s[0] == 'e' && s[1] == '+' then Decimal.Value(TakeDigits(s[2..])) else 0
  }

  /** The digits before the point, the digits after it, and the exponent. */
  function Parts(s: string): (r: (string, string, nat))
    ensures Decimal.AllDigits(r.0) && Decimal.AllDigits(r.1)
  {
    var (places, rest) := Fraction(DropDigits(s));
    (TakeDigits(s), places, Exponent(rest))
  }

  /** The whole number that the digits stand for, with the point moved. */
  function Scaled(whole: string, places: string, e: nat): nat
    requires Decimal.AllDigits(whole) && Decimal.AllDigits(places) && |places| <= e
  {
    Decimal.Value(whole + places) * Doubles.Pow10(e - |places|)
  }

  /** The whole number of at least zero that the text denotes exactly; `None` for other text. */
  function Denoted(s: string): Option<nat> {
    var (whole, places, e) := Parts(s);
    if whole == "" || |places| > e then None else Some(Scaled(whole, places, e))
  }

  /** Whether the text is negative, and the text without white space before it and without the sign. */
  function SplitSign(raw: string): (bool, string) {
    var s := TrimLeft(raw);
    if s != "" && s[0] == '-' then (true, s[1..]) else (false, s)
  }

  /** `parseFloat` on text that denotes a whole number; `None` for other text. */
  function ParseWhole(raw: string): Option<int> {
    var (negative, body) := SplitSign(raw);
    var m := Denoted(body);
    if m.None? then None else Some(Signed(negative, Doubles.Round(m.value)))
  }

  /** What is left without the final zeros, and the value those zeros stand for. */
  lemma {:induction false} ValueWithZeros(front: string, whole: string)
    requires Decimal.AllDigits(front) && Decimal.AllDigits(whole)
    ensures var kept := StripZeros(whole);
      && |kept| <= |whole| && Decimal.AllDigits(kept)
      && Decimal.Value(front + whole) == Decimal.Value(front + kept) * Doubles.Pow10(|whole| - |kept|)
  {
    if whole != "" && whole[|whole| - 1] == '0' {
      var shorter, kept := whole[..|whole| - 1], StripZeros(whole);
      ValueWithZeros(front, shorter);
      assert (front + whole)[..|front + whole| - 1] == front + shorter;
      TimesTen(Decimal.Value(front + kept), Doubles.Pow10(|shorter| - |kept|));
    }
  }

  lemma TimesTen(a: nat, b: nat)
    ensures a * b * 10 == a * (10 * b)
  {
  }

  lemma ExponentIsRead(n: nat)
    ensures Exponent("e+" + Decimal.Print(n)) == n
  {
    Decimal.PrintThenValue(n);
    assert ("e+" + Decimal.Print(n))[2..] == Decimal.Print(n);
    DigitsThen(Decimal.Print(n), "");
    assert Decimal.Print(n) + "" == Decimal.Print(n);
  }

  lemma FractionIsRead(places: string, rest: string)
    requires Decimal.AllDigits(places) && rest != "" && rest[0] == 'e'
    ensures Fraction((if places == "" then "" else "." + places) + rest) == (places, rest)
  {
    if places == "" {
      assert "" + rest == rest;
    } else {
      assert ("." + places + rest)[1..] == places + rest;
      DigitsThen(places, rest);
    }
  }

  lemma TailIsParsed(first: string, tail: string, places: string, rest: string)
    requires Decimal.AllDigits(first) && tail != "" && !Decimal.IsDigit(tail[0]) && Fraction(tail) == (places, rest)
    ensures Parts(first + tail) == (first, places, Exponent(rest))
  {
    DigitsThen(first, tail);
  }

  lemma PartsAreParsed(first: string, places: string, n: nat)
    requires Decimal.AllDigits(first) && Decimal.AllDigits(places)
    ensures Parts(first + (if places == "" then "" else "." + places) + "e+" + Decimal.Print(n)) == (first, places, n)
  {
    var middle, power := if places == "" then "" else "." + places, "e+" + Decimal.Print(n);
    ExponentIsRead(n);
    FractionIsRead(places, power);
    TailIsParsed(first, middle + power, places, power);
    JoinedRight(first, middle, "e+", Decimal.Print(n));
  }

  lemma JoinedRight(a: string, b: string, c: string, d: string)
    ensures a + b + c + d == a + (b + (c + d))
  {
  }

  lemma ScaledIsValue(first: string, whole: string)
    requires Decimal.AllDigits(first) && Decimal.AllDigits(whole)
    ensures var kept := StripZeros(whole);
      Decimal.AllDigits(kept) && |kept| <= |whole| && Scaled(first, kept, |whole|) == Decimal.Value(first + whole)
  {
    ValueWithZeros(first, whole);
  }

  /** A number shown with an exponent still denotes itself. */
  lemma ExponentIsDenoted(p: nat)
    requires p >= EXPONENT_FROM
    ensures Denoted(ShowMagnitude(p)) == Some(p)
  {
    var digits := Decimal.Print(p);
    Decimal.PrintThenValue(p);
    var first, rest := [digits[0]], digits[1..];
    ScaledIsValue(first, rest);
    assert digits == first + rest;
    PartsAreParsed(first, StripZeros(rest), |rest|);
    assert ShowMagnitude(p) == WithExponent(digits);
  }

  lemma PlainIsDenoted(p: nat)
    requires p < EXPONENT_FROM
    ensures Denoted(ShowMagnitude(p)) == Some(p)
  {
    var digits := Decimal.Print(p);
    Decimal.PrintThenValue(p);
    DigitsThen(digits, "");
    assert digits + "" == digits;
    assert Parts(digits) == (digits, "", 0);
    assert Scaled(digits, "", 0) == p by {
      assert Doubles.Pow10(0) == 1;
    }
  }

  predicate IsNumberChar(c: char) {
    Decimal.IsDigit(c) || c == '-' || c == '.' || c == 'e' || c == '+'
  }

  predicate IsClean(s: string) {
    forall i :: 0 <= i < |s| ==> IsNumberChar(s[i])
  }

  lemma CleanJoins(a: string, b: string)
    requires IsClean(a) && IsClean(b)
    ensures IsClean(a + b)
  {
  }

  lemma ShowIsClean(p: nat)
    ensures IsClean(ShowMagnitude(p))
  {
    var digits := Decimal.Print(p);
    Decimal.PrintThenValue(p);
    if p >= EXPONENT_FROM {
      var places, n := StripZeros(digits[1..]), |digits| - 1;
      ValueWithZeros("", digits[1..]);
      Decimal.PrintThenValue(n);
      var middle := if places == "" then "" else "." + places;
      CleanJoins([digits[0]], middle);
      CleanJoins([digits[0]] + middle, "e+");
      CleanJoins([digits[0]] + middle + "e+", Decimal.Print(n));
    }
  }

  lemma CleanNeedsNoTrim(s: string)
    requires IsClean(s)
    ensures ',' !in s && Trim(s) == s
  {
    NoSpacesNoTrim(s);
  }

  lemma SignIsSplit(x: int, p: nat)
    ensures SplitSign(Show(x, p)) == (x < 0, ShowMagnitude(p))
  {
    var text := Show(x, p);
    ShowStartsWithDigit(p);
    assert TrimLeft(text) == text;
    assert x < 0 ==> text[1..] == ShowMagnitude(p);
  }

  lemma ShowIsDenoted(p: nat)
    ensures Denoted(ShowMagnitude(p)) == Some(p)
  {
    if p < EXPONENT_FROM {
      PlainIsDenoted(p);
    } else {
      ExponentIsDenoted(p);
    }
  }

  lemma TextIsClean(x: int, p: nat)
    ensures IsClean(Show(x, p))
  {
    ShowIsClean(p);
    CleanJoins("-", ShowMagnitude(p));
  }

  /** A whole number that the page holds is read back from its text, however large it is. */
  lemma WholeIsParsed(x: int, p: nat)
    requires Doubles.IsPrinted(Magnitude(x), p)
    ensures ParseWhole(Show(x, p)) == Some(x)
  {
    Doubles.PrintedIsRead(Magnitude(x), p);
    SignIsSplit(x, p);
    ShowIsDenoted(p);
  }

  lemma WholePrintsCleanly(x: int, printed: nat -> nat)
    requires Doubles.IsPrinted(Magnitude(x), printed(Magnitude(x)))
    ensures PrintsCleanly(x, (y: int) => Show(y, printed(Magnitude(y))), ParseWhole)
  {
    WholeIsParsed(x, printed(Magnitude(x)));
    TextIsClean(x, printed(Magnitude(x)));
    CleanNeedsNoTrim(Show(x, printed(Magnitude(x))));
  }

  /** Vectors with whole entries, of any size, come back exactly when they are not empty. */
  lemma WholeVectorSurvivesExactlyWhen(xs: seq<int>, printed: nat -> nat)
    requires forall i :: 0 <= i < |xs| ==> Doubles.IsPrinted(Magnitude(xs[i]), printed(Magnitude(xs[i])))
    ensures var show := (y: int) => Show(y, printed(Magnitude(y)));
      ParseVector(PrintVector(xs, show), ParseWhole) == Some(xs) <==> xs != []
  {
    var show := (y: int) => Show(y, printed(Magnitude(y)));
    forall i | 0 <= i < |xs|
      ensures PrintsCleanly(xs[i], show, ParseWhole)
    {
      WholePrintsCleanly(xs[i], printed);
    }
    assert DigitsEnd("", 0) == 0;
    VectorSurvivesExactlyWhen(xs, show, ParseWhole);
  }

  // ---------------------------------------------------------------- text

  /** The HTML parser puts the replacement character in the place of U+0000. */
  function WithoutNul(s: string): (r: string)
    ensures |r| == |s| && forall i :: 0 <= i < |s| ==> r[i] == if s[i] == '\0' then '\U{FFFD}' else s[i]
  {
    seq(|s|, i requires 0 <= i < |s| => if s[i] == '\0' then '\U{FFFD}' else s[i])
  }

  /** It also drops a line feed right after the opening tag of a textarea. */
  function Textarea(content: string): string {
    var lines := WithoutNul(Lines(content));
    if lines != "" && lines[0] == '\n' then lines[1..] else lines
  }

  /** What the textarea of a text value holds when the form opens. */
  function PrintText(s: string): string {
    Textarea(Escape.Decode(Escape.Esc(s)))
  }

  lemma NulIsReplaced(s: string)
    ensures '\0' !in WithoutNul(s)
    ensures '\r' !in s ==> '\r' !in WithoutNul(s)
    ensures '\0' !in s ==> WithoutNul(s) == s
  {
  }

  /**
    Opening and saving a text value unchanged keeps it exactly when it has no carriage return,
    no U+0000 and no line feed at its start.
   */
  lemma TextSurvivesExactlyWhen(s: string)
    ensures PrintText(s) == s <==> '\r' !in s && '\0' !in s && (s == "" || s[0] != '\n')
  {
    Escape.DecodeUndoesEsc(s);
    LinesHasNoReturn(s);
    NulIsReplaced(Lines(s));
    if '\r' in s {
      assert '\r' !in Textarea(s);
    } else if '\0' in s {
      assert '\0' !in Textarea(s);
    } else if s != "" && s[0] == '\n' {
      assert |Textarea(s)| < |s|;
    }
  }
}
