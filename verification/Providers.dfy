/**
  The lists of providers whose keys are missing, recovered either from the body of an API
  error or from its message.
 */
module Providers {
  import opened Basics
  import opened Text

  function Normal(name: string): string {
    Lower(Trim(name))
  }

  /** What inserting the elements into a JavaScript `Set` one by one leaves. */
  function Distinct(xs: seq<string>): seq<string> {
    if xs == [] then []
    else
      var rest, last := Distinct(xs[..|xs| - 1]), xs[|xs| - 1];
      if last in rest then rest else rest + [last]
  }

  /** The normal forms, without the empty ones. */
  function Normals(names: seq<string>): seq<string> {
    if names == [] then []
    else
      var rest, last := Normals(names[..|names| - 1]), Normal(names[|names| - 1]);
      if last == "" then rest else rest + [last]
  }

  function ParseArray(names: seq<string>): seq<string> {
    Distinct(Normals(names))
  }

  function ParseString(s: string): seq<string> {
    ParseArray(Split(s, ','))
  }

  // ---------------------------------------------------------------- what a parsed list is

  predicate NoRepeats(xs: seq<string>) {
    forall i, j :: 0 <= i < j < |xs| ==> xs[i] != xs[j]
  }

  /** `x` comes up in `xs` before `y` does. */
  predicate FirstBefore(xs: seq<string>, x: string, y: string) {
    exists i :: 0 <= i < |xs| && xs[i] == x && y !in xs[..i + 1]
  }

  /** The elements of `xs` in the order of their first occurrence. */
  ghost predicate IsFirstOccurrences(xs: seq<string>, ys: seq<string>) {
    && NoRepeats(ys)
    && (forall x :: x in xs <==> x in ys)
    && (forall i, j :: 0 <= i < j < |ys| ==> FirstBefore(xs, ys[i], ys[j]))
  }

  lemma FirstBeforeExtends(xs: seq<string>, more: string, x: string, y: string)
    requires FirstBefore(xs, x, y)
    ensures FirstBefore(xs + [more], x, y)
  {
    var i :| 0 <= i < |xs| && xs[i] == x && y !in xs[..i + 1];
    assert (xs + [more])[..i + 1] == xs[..i + 1];
  }

  lemma NewComesLast(xs: seq<string>, x: string, y: string)
    requires x in xs && y !in xs
    ensures FirstBefore(xs + [y], x, y)
  {
    var i :| 0 <= i < |xs| && xs[i] == x;
    assert (xs + [y])[..i + 1] == xs[..i + 1];
    assert forall k :: 0 <= k <= i ==> xs[k] in xs;
  }

  lemma {:induction false} DistinctKeepsFirsts(xs: seq<string>)
    ensures IsFirstOccurrences(xs, Distinct(xs))
  {
    if xs != [] {
      var rest, last := xs[..|xs| - 1], xs[|xs| - 1];
      assert xs == rest + [last];
      DistinctKeepsFirsts(rest);
      var ys := Distinct(xs);
      forall i, j | 0 <= i < j < |ys|
        ensures FirstBefore(xs, ys[i], ys[j])
      {
        if j < |Distinct(rest)| {
          FirstBeforeExtends(rest, last, ys[i], ys[j]);
        } else {
          assert ys[i] in Distinct(rest);
          NewComesLast(rest, ys[i], last);
        }
      }
    }
  }

  lemma {:induction false} DistinctOfDistinct(xs: seq<string>)
    requires NoRepeats(xs)
    ensures Distinct(xs) == xs
  {
    if xs != [] {
      var rest, last := xs[..|xs| - 1], xs[|xs| - 1];
      assert xs == rest + [last];
      DistinctOfDistinct(rest);
      assert last !in rest;
    }
  }

  /** A name in normal form: trimmed, lower case and not empty. */
  predicate IsNormal(x: string) {
    x != "" && Normal(x) == x
  }

  lemma {:induction false} LowerKeepsTrimLeft(s: string)
    ensures TrimLeft(Lower(s)) == Lower(TrimLeft(s))
  {
    if s != "" && IsSpace(s[0]) {
      LowerKeepsTrimLeft(s[1..]);
      assert Lower(s)[1..] == Lower(s[1..]);
    }
  }

  lemma {:induction false} LowerKeepsTrimRight(s: string)
    ensures TrimRight(Lower(s)) == Lower(TrimRight(s))
  {
    if s != "" && IsSpace(s[|s| - 1]) {
      LowerKeepsTrimRight(s[..|s| - 1]);
      assert Lower(s)[..|s| - 1] == Lower(s[..|s| - 1]);
    }
  }

  lemma {:induction false} TrimLeftTwice(s: string)
    ensures TrimLeft(TrimLeft(s)) == TrimLeft(s)
  {
    if s != "" && IsSpace(s[0]) {
      TrimLeftTwice(s[1..]);
    }
  }

  lemma {:induction false} TrimRightTwice(s: string)
    ensures TrimRight(TrimRight(s)) == TrimRight(s)
  {
    if s != "" && IsSpace(s[|s| - 1]) {
      TrimRightTwice(s[..|s| - 1]);
    }
  }

  lemma TrimTwice(s: string)
    ensures Trim(Trim(s)) == Trim(s)
  {
    TrimsCommute(s);
    TrimsCommute(TrimLeft(s));
    TrimLeftTwice(s);
    TrimRightTwice(TrimLeft(s));
  }

  lemma NormalTwice(name: string)
    ensures Normal(Normal(name)) == Normal(name)
  {
    var t := Trim(name);
    LowerKeepsTrimLeft(t);
    LowerKeepsTrimRight(TrimLeft(t));
    TrimTwice(name);
    assert Trim(Lower(t)) == Lower(t);
    assert Lower(Lower(t)) == Lower(t);
  }

  lemma {:induction false} NormalsAreNormal(names: seq<string>)
    ensures forall i :: 0 <= i < |Normals(names)| ==> IsNormal(Normals(names)[i])
  {
    if names != [] {
      NormalsAreNormal(names[..|names| - 1]);
      NormalTwice(names[|names| - 1]);
    }
  }

  lemma NormalsOfOneMore(xs: seq<string>, x: string)
    requires IsNormal(x)
    ensures Normals(xs + [x]) == Normals(xs) + [x]
  {
    assert (xs + [x])[..|xs|] == xs;
  }

  lemma {:induction false} NormalsOfNormal(xs: seq<string>)
    requires forall i :: 0 <= i < |xs| ==> IsNormal(xs[i])
    ensures Normals(xs) == xs
  {
    if xs != [] {
      var rest, last := xs[..|xs| - 1], xs[|xs| - 1];
      assert xs == rest + [last];
      NormalsOfNormal(rest);
      NormalsOfOneMore(rest, last);
    }
  }

  lemma NormalsStep(names: seq<string>, name: string)
    ensures Normals(names + [name]) == Normals(names) + if Normal(name) == "" then [] else [Normal(name)]
  {
    assert (names + [name])[..|names|] == names;
  }

  predicate IsNormalOf(names: seq<string>, x: string, k: nat) {
    k < |names| && Normal(names[k]) == x && x != ""
  }

  lemma {:induction false} NormalsHave(names: seq<string>, x: string)
    ensures x in Normals(names) <==> exists k: nat :: IsNormalOf(names, x, k)
  {
    if names != [] {
      var rest, last := names[..|names| - 1], names[|names| - 1];
      NormalsHave(rest, x);
      assert names == rest + [last];
      NormalsStep(rest, last);
      if k: nat :| IsNormalOf(rest, x, k) {
        assert IsNormalOf(names, x, k);
      }
      if Normal(last) == x && x != "" {
        assert IsNormalOf(names, x, |rest|);
      }
      if k: nat :| IsNormalOf(names, x, k) && k < |rest| {
        assert IsNormalOf(rest, x, k);
      }
    }
  }

  lemma ParseArrayHas(names: seq<string>, x: string)
    ensures x in ParseArray(names) <==> exists i :: 0 <= i < |names| && Normal(names[i]) == x && x != ""
  {
    DistinctKeepsFirsts(Normals(names));
    NormalsHave(names, x);
    if i :| 0 <= i < |names| && Normal(names[i]) == x && x != "" {
      assert IsNormalOf(names, x, i);
    }
  }

  /** A parsed list holds the normal forms of the names, each once, in order of first occurrence. */
  lemma ParsedListIsNormal(names: seq<string>)
    ensures IsFirstOccurrences(Normals(names), ParseArray(names))
    ensures forall i :: 0 <= i < |ParseArray(names)| ==> IsNormal(ParseArray(names)[i])
    ensures ParseArray(ParseArray(names)) == ParseArray(names)
    ensures forall x :: x in ParseArray(names) <==>
      x != "" && exists k :: 0 <= k < |names| && Lower(Trim(names[k])) == x
  {
    forall x
      ensures x in ParseArray(names) <==> x != "" && exists k :: 0 <= k < |names| && Lower(Trim(names[k])) == x
    {
      ParseArrayHas(names, x);
      assert forall k :: 0 <= k < |names| ==> Normal(names[k]) == Lower(Trim(names[k]));
    }
    DistinctKeepsFirsts(Normals(names));
    NormalsAreNormal(names);
    var xs := ParseArray(names);
    forall i | 0 <= i < |xs|
      ensures IsNormal(xs[i])
    {
      assert xs[i] in Normals(names);
    }
    NormalsOfNormal(xs);
    DistinctOfDistinct(xs);
  }

  // ---------------------------------------------------------------- string against array

  predicate CommaFree(names: seq<string>) {
    forall i :: 0 <= i < |names| ==> ',' !in names[i]
  }

  lemma {:induction false} NormalsOfSame(a: seq<string>, b: seq<string>)
    requires |a| == |b| && forall i :: 0 <= i < |a| ==> Normal(a[i]) == Normal(b[i])
    ensures Normals(a) == Normals(b)
  {
    if a != [] {
      NormalsOfSame(a[..|a| - 1], b[..|b| - 1]);
    }
  }

  lemma JoinedParsesLikeArray(names: seq<string>)
    requires CommaFree(names)
    ensures ParseString(Join(names, ", ")) == ParseArray(names)
  {
    if names == [] {
      assert Normal("") == "";
      assert [""][..0] == [];
    } else {
      SplitOfJoin(names);
      forall i | 0 <= i < |names|
        ensures Normal(Padded(names)[i]) == Normal(names[i])
      {
        TrimSkipsSpace(' ', names[i]);
      }
      NormalsOfSame(Padded(names), names);
    }
  }

  lemma {:induction false} TrimLeftKeepsChar(s: string, c: char)
    requires !IsSpace(c)
    ensures c in TrimLeft(s) <==> c in s
  {
    if s != "" && IsSpace(s[0]) {
      TrimLeftKeepsChar(s[1..], c);
    }
  }

  lemma {:induction false} TrimRightKeepsChar(s: string, c: char)
    requires !IsSpace(c)
    ensures c in TrimRight(s) <==> c in s
  {
    if s != "" && IsSpace(s[|s| - 1]) {
      TrimRightKeepsChar(s[..|s| - 1], c);
    }
  }

  lemma NormalKeepsComma(name: string)
    ensures ',' in Normal(name) <==> ',' in name
  {
    TrimLeftKeepsChar(name, ',');
    TrimRightKeepsChar(TrimLeft(name), ',');
    var t := Trim(name);
    assert forall i :: 0 <= i < |t| ==> (Lower(t)[i] == ',' <==> t[i] == ',');
    if ',' in t {
      var i :| 0 <= i < |t| && t[i] == ',';
      assert Lower(t)[i] == ',';
    }
  }

  /** Joining a list and parsing the string gives what parsing the list gives, exactly when no name has a comma. */
  lemma JoinAgreesExactlyWithoutCommas(names: seq<string>)
    ensures ParseString(Join(names, ", ")) == ParseArray(names) <==> CommaFree(names)
  {
    if CommaFree(names) {
      JoinedParsesLikeArray(names);
    } else {
      var i :| 0 <= i < |names| && ',' in names[i];
      var x := Normal(names[i]);
      NormalKeepsComma(names[i]);
      ParseArrayHas(names, x);
      var pieces := Split(Join(names, ", "), ',');
      ParseArrayHas(pieces, x);
      SplitHasNoSeparator(Join(names, ", "), ',');
      forall k | 0 <= k < |pieces|
        ensures Normal(pieces[k]) != x
      {
        NormalKeepsComma(pieces[k]);
      }
      assert x in ParseArray(names) && x !in ParseString(Join(names, ", "));
    }
  }

  /** Parsing the joined result of parsing a string changes nothing. */
  lemma ParsingIsIdempotent(s: string)
    ensures ParseString(Join(ParseString(s), ", ")) == ParseString(s)
  {
    var pieces := Split(s, ',');
    var xs := ParseString(s);
    ParsedListIsNormal(pieces);
    SplitHasNoSeparator(s, ',');
    forall i | 0 <= i < |xs|
      ensures ',' !in xs[i]
    {
      assert xs[i] in xs;
      ParseArrayHas(pieces, xs[i]);
      var k :| 0 <= k < |pieces| && Normal(pieces[k]) == xs[i] && xs[i] != "";
      NormalKeepsComma(pieces[k]);
    }
    JoinedParsesLikeArray(xs);
  }

  // ---------------------------------------------------------------- error messages

  predicate IsLineBreak(c: char) {
    c == '\n' || c == '\r' || c == '\U{2028}' || c == '\U{2029}'
  }

  predicate OneLine(s: string) {
    forall i :: 0 <= i < |s| ==> !IsLineBreak(s[i])
  }

  /**
    The tail of the pattern `\s*(.+)$`: spaces are skipped as far as possible, but one
    character must be left, and what is left must be one line.
   */
  function Tail(s: string): Option<string> {
    var rest := TrimLeft(s);
    if rest != "" then (if OneLine(rest) then Some(rest) else None)
    else if s != "" && OneLine(s[|s| - 1..]) then Some(s[|s| - 1..])
    else None
  }

  const INTRO := "missing api key"

  /** The pattern tried at one position of the message. */
  function KeysAt(message: string, i: nat): Option<string>
    requires i <= |message|
  {
    var m := message[i..];
    if !StartsWith(Lower(m), INTRO) then None
    else
      var r := m[|INTRO|..];
      var r' := if r != "" && LowerChar(r[0]) == 's' then r[1..] else r;
      if r' == "" || r'[0] != ':' then None else Tail(r'[1..])
  }

  /** The leftmost place where the pattern fits. */
  function KeysInMessage(message: string, i: nat): Option<string>
    requires i <= |message|
    decreases |message| - i
  {
    var here := KeysAt(message, i);
    if here.Some? || i == |message| then here else KeysInMessage(message, i + 1)
  }

  /** The providers named by an error without a usable body. */
  function ProvidersFromMessage(message: string): Option<seq<string>> {
    var keys := KeysInMessage(message, 0);
    if keys.Some? then Some(ParseString(keys.value)) else None
  }

  const HEAD := "missing API keys: "

  function MessageFor(names: seq<string>): string {
    HEAD + Join(names, ", ")
  }

  lemma {:induction false} ParseSkipsLeadingSpace(s: string)
    ensures ParseString(TrimLeft(s)) == ParseString(s)
  {
    if s != "" && IsSpace(s[0]) {
      ParseSkipsLeadingSpace(s[1..]);
      var rest := Split(s[1..], ',');
      var whole := Split(s, ',');
      assert whole == [[s[0]] + rest[0]] + rest[1..];
      TrimSkipsSpace(s[0], rest[0]);
      NormalsOfSame(whole, rest);
    }
  }

  lemma {:induction false} BlankParsesToNothing(s: string)
    requires TrimLeft(s) == ""
    ensures ParseString(s) == []
  {
    ParseSkipsLeadingSpace(s);
    assert Split("", ',') == [""];
    assert Normal("") == "";
    assert [""][..0] == [];
  }

  /** Whatever the tail of the pattern leaves parses like the whole text. */
  lemma TailParsesAlike(s: string)
    requires Tail(s).Some?
    ensures ParseString(Tail(s).value) == ParseString(s)
  {
    TrimLeftEmpty(s);
    if TrimLeft(s) != "" {
      ParseSkipsLeadingSpace(s);
    } else {
      BlankParsesToNothing(s);
      var last := s[|s| - 1..];
      TrimLeftEmpty(last);
      BlankParsesToNothing(last);
    }
  }

  lemma IntroStarts(rest: string)
    ensures StartsWith(Lower("missing API key" + rest), INTRO)
    ensures ("missing API key" + rest)[|INTRO|..] == rest
  {
    var intro := "missing API key";
    assert Lower(intro) == INTRO;
    LowerOfSum(intro, rest);
  }

  /** What is read behind the words, where an "s" may follow and a colon must. */
  function KeysBehind(r: string): Option<string> {
    var r' := if r != "" && LowerChar(r[0]) == 's' then r[1..] else r;
    if r' == "" || r'[0] != ':' then None else Tail(r'[1..])
  }

  lemma KeysAfterIntro(r: string)
    ensures KeysAt("missing API key" + r, 0) == KeysBehind(r)
  {
    var message := "missing API key" + r;
    assert message[0..] == message;
    IntroStarts(r);
  }

  lemma ColonIsSkipped(list: string)
    ensures KeysBehind(": " + list) == Tail(" " + list) && KeysBehind("s: " + list) == Tail(" " + list)
  {
    assert (": " + list)[1..] == " " + list;
    assert ("s: " + list)[1..] == ": " + list;
  }

  lemma JoinsRight(a: string, b: string, c: string)
    ensures a + b + c == a + (b + c)
  {
  }

  lemma IntroFits(list: string)
    ensures KeysAt("missing API keys: " + list, 0) == Tail(" " + list)
  {
    KeysAfterIntro("s: " + list);
    ColonIsSkipped(list);
    assert "missing API keys: " == "missing API key" + "s: ";
    JoinsRight("missing API key", "s: ", list);
  }

  /** One missing key is announced in the singular, and read alike. */
  lemma SingularReadsAlike(list: string)
    ensures KeysAt("missing API key: " + list, 0) == Tail(" " + list)
  {
    KeysAfterIntro(": " + list);
    ColonIsSkipped(list);
    assert "missing API key: " == "missing API key" + ": ";
    JoinsRight("missing API key", ": ", list);
  }

  lemma {:induction false} JoinIsOneLine(names: seq<string>)
    requires forall i :: 0 <= i < |names| ==> OneLine(names[i])
    ensures OneLine(Join(names, ", "))
  {
    if |names| > 1 {
      JoinIsOneLine(names[1..]);
      assert OneLine(", ");
    }
  }

  lemma OneLineFits(s: string)
    requires s != "" && OneLine(s)
    ensures Tail(s).Some?
  {
    TrimLeftEmpty(s);
    var n :| 0 <= n <= |s| && TrimLeft(s) == s[n..];
  }

  /** The joined names, without white space before them, are on one line. */
  predicate FitsPattern(names: seq<string>) {
    Tail(" " + Join(names, ", ")).Some?
  }

  /** No name has the words in it by which the list is found. */
  predicate HasNoIntro(names: seq<string>) {
    forall i :: 0 <= i < |names| ==> !Contains(Lower(names[i]), INTRO)
  }

  lemma IntroChars()
    ensures |INTRO| == 15 && INTRO[0] == 'm' && ',' !in INTRO
  {
  }

  lemma OccursChar(s: string, i: nat, k: nat)
    requires OccursAt(s, INTRO, i) && k < |INTRO|
    ensures i + |INTRO| <= |s| && s[i + k] == INTRO[k]
  {
    assert s[i..][..|INTRO|][k] == s[i + k];
  }

  lemma OccursInside(before: string, s: string, after: string, i: nat)
    requires |before| <= i && i + |INTRO| <= |before| + |s| && OccursAt(before + s + after, INTRO, i)
    ensures Contains(s, INTRO)
  {
    var whole, j := before + s + after, i - |before|;
    assert s[j..][..|INTRO|] == whole[i..][..|INTRO|];
    assert OccursAt(s, INTRO, j);
  }

  /** The words have no comma in them, so they do not reach from one name into the next. */
  lemma {:induction false} NoIntroInJoin(names: seq<string>)
    requires HasNoIntro(names)
    ensures !Contains(Lower(Join(names, ", ")), INTRO)
    decreases |names|
  {
    if |names| > 1 {
      var a, b := Lower(names[0]), Lower(Join(names[1..], ", "));
      NoIntroInJoin(names[1..]);
      LowerOfSum(names[0], ", ");
      LowerOfSum(names[0] + ", ", Join(names[1..], ", "));
      assert Lower(", ") == ", ";
      NoIntroBetween(a, b);
    } else if names == [] {
      assert |INTRO| > 0;
    }
  }

  lemma NoIntroBetween(a: string, b: string)
    requires !Contains(a, INTRO) && !Contains(b, INTRO)
    ensures !Contains(a + ", " + b, INTRO)
  {
    var s := a + ", " + b;
    assert s[|a|] == ',';
    IntroChars();
    if i :| 0 <= i <= |s| && OccursAt(s, INTRO, i) {
      OccursChar(s, i, 0);
      if i + |INTRO| <= |a| {
        assert s == "" + a + (", " + b);
        OccursInside("", a, ", " + b, i);
      } else if i > |a| + 1 {
        assert s == (a + ", ") + b + "";
        OccursInside(a + ", ", b, "", i);
      }
    }
  }

  lemma HeadChars(k: nat)
    requires 0 < k < |HEAD|
    ensures LowerChar(HEAD[k]) != 'm'
  {
  }

  /** The words do not begin inside the head again. */
  lemma NoneInHead(list: string, i: nat)
    requires 0 < i < |HEAD|
    ensures KeysAt(HEAD + list, i) == None
  {
    var rest := (HEAD + list)[i..];
    HeadChars(i);
    IntroChars();
    assert rest[0] == HEAD[i];
    DifferAt(Lower(rest), INTRO, 0);
  }

  lemma {:induction false} SkipToList(list: string, i: nat)
    requires i <= |HEAD| && forall k :: i <= k < |HEAD| ==> KeysAt(HEAD + list, k) == None
    ensures KeysInMessage(HEAD + list, i) == KeysInMessage(HEAD + list, |HEAD|)
    decreases |HEAD| - i
  {
    if i < |HEAD| {
      assert KeysAt(HEAD + list, i) == None;
      SkipToList(list, i + 1);
    }
  }

  lemma {:induction false} LaterIsList(list: string, j: nat)
    requires j <= |list|
    ensures KeysInMessage(HEAD + list, |HEAD| + j) == KeysInMessage(list, j)
    decreases |list| - j
  {
    assert (HEAD + list)[|HEAD| + j..] == list[j..];
    if j < |list| {
      LaterIsList(list, j + 1);
    }
  }

  /** A list that does not fit the pattern is searched for a message of its own. */
  lemma SearchedFurther(list: string)
    requires Tail(" " + list) == None
    ensures KeysInMessage(HEAD + list, 0) == KeysInMessage(list, 0)
  {
    IntroFits(list);
    forall k | 0 <= k < |HEAD|
      ensures KeysAt(HEAD + list, k) == None
    {
      if k > 0 {
        NoneInHead(list, k);
      }
    }
    SkipToList(list, 0);
    LaterIsList(list, 0);
  }

  /**
    A message whose list is on one line yields the same providers as the list in the error body
    exactly when no name has a comma; names on one line always make such a list.
   */
  lemma MessageAgreesWithBody(names: seq<string>)
    ensures FitsPattern(names) ==>
      && ProvidersFromMessage(MessageFor(names)).Some?
      && (ProvidersFromMessage(MessageFor(names)) == Some(ParseArray(names)) <==> CommaFree(names))
    ensures (forall i :: 0 <= i < |names| ==> OneLine(names[i])) ==> FitsPattern(names)
  {
    var list := Join(names, ", ");
    if FitsPattern(names) {
      IntroFits(list);
      TailParsesAlike(" " + list);
      ParseSkipsLeadingSpace(" " + list);
      ParseSkipsLeadingSpace(list);
      assert (" " + list)[1..] == list;
      assert TrimLeft(" " + list) == TrimLeft(list);
      JoinAgreesExactlyWithoutCommas(names);
    }
    if forall i :: 0 <= i < |names| ==> OneLine(names[i]) {
      JoinIsOneLine(names);
      OneLineFits(" " + list);
    }
  }

  lemma {:induction false} NoIntroNoKeys(list: string, i: nat)
    requires i <= |list| && !Contains(Lower(list), INTRO)
    ensures KeysInMessage(list, i) == None
    decreases |list| - i
  {
    assert Lower(list[i..]) == Lower(list)[i..];
    assert !OccursAt(Lower(list), INTRO, i);
    if i < |list| {
      NoIntroNoKeys(list, i + 1);
    }
  }

  /**
    The pattern finds something in the message exactly when the list is on one line or the
    list itself holds such a message; without the words in any name only the former remains.
   */
  lemma MessageIsFoundExactlyWhen(names: seq<string>)
    ensures ProvidersFromMessage(HEAD + Join(names, ", ")).None? <==>
            Tail(" " + Join(names, ", ")).None? && KeysInMessage(Join(names, ", "), 0).None?
    ensures HasNoIntro(names) ==> KeysInMessage(Join(names, ", "), 0).None?
  {
    MessageAgreesWithBody(names);
    var list := Join(names, ", ");
    if Tail(" " + list).None? {
      SearchedFurther(list);
    }
    if HasNoIntro(names) {
      NoIntroInJoin(names);
      NoIntroNoKeys(list, 0);
    }
  }
}
