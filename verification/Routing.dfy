/**
  Lines typed into a chat panel: a line that starts with `@LETTER` goes to the agent with
  that letter, everything else goes to the panel's own agent.
 */
module Routing {
  import opened Basics
  import opened Text
  import opened Letters
  import Decimal

  predicate IsAlpha(c: char) {
    'A' <= c <= 'Z' || 'a' <= c <= 'z'
  }

  predicate IsWord(c: char) {
    IsAlpha(c) || Decimal.IsDigit(c)
  }

  /** `[A-Z][A-Z0-9]*` without regard to case. */
  predicate IsLetterName(s: string) {
    s != "" && IsAlpha(s[0]) && forall i :: 0 <= i < |s| ==> IsWord(s[i])
  }

  function WordEnd(s: string, i: nat): (end: nat)
    requires i <= |s|
    ensures i <= end <= |s|
    decreases |s| - i
  {
    if i < |s| && IsWord(s[i]) then WordEnd(s, i + 1) else i
  }

  function SpaceEnd(s: string, i: nat): (end: nat)
    requires i <= |s|
    ensures i <= end <= |s|
    decreases |s| - i
  {
    if i < |s| && IsSpace(s[i]) then SpaceEnd(s, i + 1) else i
  }

  /**
    What the pattern finds: the name is as long as possible, then the spaces are, except that
    one character has to be left for the message.
   */
  function Match(value: string): Option<(string, string)> {
    if value == "" || value[0] != '@' then None
    else
      var e := WordEnd(value, 1);
      var f := SpaceEnd(value, e);
      if e == 1 || !IsAlpha(value[1]) || f == e then None
      else if f < |value| then Some((value[1..e], value[f..]))
      else if f >= e + 2 then Some((value[1..e], value[f - 1..]))
      else None
  }

  /** A blank line is ignored. */
  datatype Destination = Ignored | OwnAgent | NoSuchLetter(letter: string) | Routed(session: string, message: string)

  /** The composer's submit handler for a line that is no visual or skill command. */
  function Submit(r: Registry, raw: string): Destination {
    var found := Match(Trim(raw));
    if Trim(raw) == "" then Ignored
    else if found.None? then OwnAgent
    else
      var target := Upper(found.value.0);
      var session := Holder(r.letters, target);
      if session.Some? then Routed(session.value, found.value.1) else NoSuchLetter(target)
  }

  // ---------------------------------------------------------------- the pattern

  /** `value` is an at sign, a letter name, at least one space, and a nonempty message. */
  ghost predicate IsLetteredLine(value: string, name: string, spaces: string, message: string) {
    && value == "@" + name + spaces + message
    && IsLetterName(name)
    && spaces != "" && (forall i :: 0 <= i < |spaces| ==> IsSpace(spaces[i]))
    && message != ""
  }

  lemma {:induction false} WordEndAt(s: string, i: nat, j: nat)
    requires i <= j <= |s| && (forall k :: i <= k < j ==> IsWord(s[k])) && (j < |s| ==> !IsWord(s[j]))
    ensures WordEnd(s, i) == j
    decreases |s| - i
  {
    if i < j {
      WordEndAt(s, i + 1, j);
    }
  }

  lemma {:induction false} WordEndRun(s: string, i: nat)
    requires i <= |s|
    ensures forall k :: i <= k < WordEnd(s, i) ==> IsWord(s[k])
    decreases |s| - i
  {
    if i < |s| && IsWord(s[i]) {
      WordEndRun(s, i + 1);
    }
  }

  lemma {:induction false} SpaceEndRun(s: string, i: nat)
    requires i <= |s|
    ensures forall k :: i <= k < SpaceEnd(s, i) ==> IsSpace(s[k])
    decreases |s| - i
  {
    if i < |s| && IsSpace(s[i]) {
      SpaceEndRun(s, i + 1);
    }
  }

  lemma {:induction false} SpaceEndTrims(s: string, i: nat)
    requires i <= |s|
    ensures s[SpaceEnd(s, i)..] == TrimLeft(s[i..])
    decreases |s| - i
  {
    if i < |s| && IsSpace(s[i]) {
      SpaceEndTrims(s, i + 1);
      assert s[i..][1..] == s[i + 1..];
    }
  }

  lemma {:induction false} SpaceEndReaches(s: string, i: nat, j: nat)
    requires i <= j <= |s| && forall k :: i <= k < j ==> IsSpace(s[k])
    ensures SpaceEnd(s, i) >= j
    decreases |s| - i
  {
    if i < j {
      SpaceEndReaches(s, i + 1, j);
    }
  }

  lemma NamePart(value: string, name: string, spaces: string, message: string)
    requires IsLetteredLine(value, name, spaces, message)
    ensures value != "" && value[0] == '@' && WordEnd(value, 1) == 1 + |name| && value[1..1 + |name|] == name
    ensures IsAlpha(value[1])
    ensures SpaceEnd(value, 1 + |name|) >= 1 + |name| + |spaces|
  {
    var e := 1 + |name|;
    assert forall k :: 1 <= k < e ==> value[k] == name[k - 1];
    assert forall k :: e <= k < e + |spaces| ==> value[k] == spaces[k - e];
    WordEndAt(value, 1, e);
    SpaceEndReaches(value, e, e + |spaces|);
  }

  lemma MatchIsSound(value: string) returns (spaces: string)
    requires Match(value).Some?
    ensures IsLetteredLine(value, Match(value).value.0, spaces, Match(value).value.1)
  {
    var e := WordEnd(value, 1);
    var f := SpaceEnd(value, e);
    WordEndRun(value, 1);
    SpaceEndRun(value, e);
    var g := if f < |value| then f else f - 1;
    spaces := value[e..g];
    CutIsWhole(value, e, g);
  }

  lemma CutIsWhole(value: string, e: nat, g: nat)
    requires 1 < e < g < |value| && value[0] == '@' && IsAlpha(value[1])
    requires forall k :: 1 <= k < e ==> IsWord(value[k])
    requires forall k :: e <= k < g ==> IsSpace(value[k])
    ensures IsLetteredLine(value, value[1..e], value[e..g], value[g..])
  {
    assert value == "@" + value[1..e] + value[e..g] + value[g..];
  }

  /** The pattern finds something exactly in the lettered lines, and finds their name. */
  lemma MatchIsExact(value: string)
    ensures Match(value).Some? <==>
            exists name, spaces, message :: IsLetteredLine(value, name, spaces, message)
    ensures Match(value).Some? ==>
            exists spaces :: IsLetteredLine(value, Match(value).value.0, spaces, Match(value).value.1)
  {
    if Match(value).Some? {
      var spaces := MatchIsSound(value);
    }
    if name, spaces, message :| IsLetteredLine(value, name, spaces, message) {
      NamePart(value, name, spaces, message);
    }
  }

  // ---------------------------------------------------------------- what arrives

  lemma LetterNameFromUpper(name: string, k: nat)
    requires Upper(name) == Letter(k)
    ensures IsLetterName(name)
  {
    Decimal.PrintThenValue(k / 26);
    var l := Letter(k);
    assert forall i :: 0 <= i < |name| ==> UpperChar(name[i]) == l[i];
    assert forall i :: 0 < i < |l| ==> l[i] == Decimal.Print(k / 26)[i - 1];
  }

  lemma TrimmedLine(name: string, text: string)
    requires IsLetterName(name)
    ensures Trim("@" + name + " " + text) ==
            if TrimRight(text) == "" then "@" + name else "@" + name + " " + TrimRight(text)
  {
    var head := "@" + name;
    var line := head + " " + text;
    assert line[0] == '@';
    assert TrimLeft(line) == line;
    TrimRightOfSum(head + " ", text);
    TrimRightOfSum(head, " ");
    assert " "[..0] == "";
    assert head[|head| - 1] == name[|name| - 1];
  }

  lemma MatchOfBareName(name: string)
    requires IsLetterName(name)
    ensures Match("@" + name) == None
  {
    var value := "@" + name;
    assert forall k :: 1 <= k < |value| ==> value[k] == name[k - 1];
    WordEndAt(value, 1, |value|);
  }

  lemma TextAfterName(value: string, e: nat, kept: string)
    requires e <= |value| && value[e..] == " " + kept
    ensures value[SpaceEnd(value, e)..] == TrimLeft(kept)
  {
    SpaceEndTrims(value, e);
    assert (" " + kept)[1..] == kept;
  }

  lemma TrimLeftKeepsLast(kept: string)
    requires kept != "" && !IsSpace(kept[|kept| - 1])
    ensures TrimLeft(kept) != ""
  {
    TrimLeftEmpty(kept);
  }

  lemma MatchFromParts(value: string, e: nat)
    requires value != "" && value[0] == '@' && 1 < e <= |value| && IsAlpha(value[1])
    requires WordEnd(value, 1) == e && e < SpaceEnd(value, e) < |value|
    ensures Match(value) == Some((value[1..e], value[SpaceEnd(value, e)..]))
  {
  }

  lemma MatchOfParts(value: string, name: string, kept: string)
    requires IsLetteredLine(value, name, " ", kept) && value[1 + |name|..] == " " + kept
    requires !IsSpace(kept[|kept| - 1])
    ensures Match(value) == Some((name, TrimLeft(kept)))
  {
    NamePart(value, name, " ", kept);
    TextAfterName(value, 1 + |name|, kept);
    TrimLeftKeepsLast(kept);
    MatchFromParts(value, 1 + |name|);
  }

  lemma MatchOfText(name: string, kept: string)
    requires IsLetterName(name) && kept != "" && !IsSpace(kept[|kept| - 1])
    ensures Match("@" + name + " " + kept) == Some((name, TrimLeft(kept)))
  {
    LineParts(name, kept);
    MatchOfParts("@" + name + " " + kept, name, kept);
  }

  lemma LineParts(name: string, kept: string)
    requires IsLetterName(name) && kept != ""
    ensures ("@" + name + " " + kept)[1 + |name|..] == " " + kept
    ensures IsLetteredLine("@" + name + " " + kept, name, " ", kept)
  {
    var head, tail := "@" + name, " " + kept;
    assert head + " " + kept == head + tail;
    assert (head + tail)[|head|..] == tail;
  }

  lemma MatchOfLine(name: string, text: string)
    requires IsLetterName(name)
    ensures Match(Trim("@" + name + " " + text)) == if Trim(text) == "" then None else Some((name, Trim(text)))
  {
    TrimmedLine(name, text);
    TrimIsEmpty(text);
    TrimRightEmpty(text);
    if TrimRight(text) == "" {
      MatchOfBareName(name);
    } else {
      MatchOfText(name, TrimRight(text));
    }
  }

  lemma LineIsNotBlank(line: string)
    requires line != "" && line[0] == '@'
    ensures Trim(line) != ""
  {
    TrimIsEmpty(line);
    TrimRightEmpty(line);
  }

  /**
    For every session, every spelling of its letter and every text: the line `@letter text`
    reaches that session with exactly the trimmed text, and goes to the panel's own agent
    only when there is no text.
   */
  lemma LetteredLineArrives(r: Registry, id: string, name: string, text: string)
    requires Consistent(r) && Lookup(r.letters, id) == Some(Upper(name))
    ensures Submit(r, "@" + name + " " + text) == if Trim(text) == "" then OwnAgent else Routed(id, Trim(text))
  {
    LineIsNotBlank("@" + name + " " + text);
    LookupFinds(r.letters, id);
    var i :| 0 <= i < |r.letters| && r.letters[i] == (id, Upper(name));
    var k :| 0 <= k < r.next && r.letters[i].1 == Letter(k);
    LetterNameFromUpper(name, k);
    MatchOfLine(name, text);
    LetterIsUpper(k);
    FindIsInverse(r, id, Upper(name));
  }

  /** A line for a letter that nobody has is reported with that letter, and sent to nobody. */
  lemma UnknownLetterIsReported(r: Registry, name: string, text: string)
    requires IsLetterName(name) && Trim(text) != ""
    requires forall i :: 0 <= i < |r.letters| ==> r.letters[i].1 != Upper(name)
    ensures Submit(r, "@" + name + " " + text) == NoSuchLetter(Upper(name))
  {
    MatchOfLine(name, text);
    UpperTwice(name);
    HolderFinds(r.letters, Upper(name));
  }

  lemma UpperTwice(s: string)
    ensures Upper(Upper(s)) == Upper(s)
  {
  }

  /** Every other line goes to the panel's own agent, except a blank one. */
  lemma OtherLinesStay(r: Registry, raw: string)
    ensures Submit(r, raw) == Ignored <==> Trim(raw) == ""
    ensures Submit(r, raw) == OwnAgent <==>
      Trim(raw) != "" && !exists name, spaces, message :: IsLetteredLine(Trim(raw), name, spaces, message)
  {
    MatchIsExact(Trim(raw));
  }
}
