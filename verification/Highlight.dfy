/**
  Marking the hits of a search inside text that is escaped already: `highlightMatch`
  replaces, from the left and without overlap, each case-insensitive occurrence of the
  query by itself between mark tags.
 */
module Highlight {
  import opened Text
  import Escape

  predicate HitAt(text: string, query: string, i: nat) {
    i + |query| <= |text| && Lower(text[i..i + |query|]) == Lower(query)
  }

  /** A hit has the query's characters one by one, each in either case. */
  lemma HitIsFolded(text: string, query: string, i: nat)
    ensures HitAt(text, query, i) <==>
      i + |query| <= |text| && forall k :: 0 <= k < |query| ==> LowerChar(text[i + k]) == LowerChar(query[k])
  {
    if i + |query| <= |text| {
      var hit := text[i..i + |query|];
      assert forall k :: 0 <= k < |query| ==> hit[k] == text[i + k];
      if HitAt(text, query, i) {
        assert forall k :: 0 <= k < |query| ==> Lower(hit)[k] == Lower(query)[k];
      }
    }
  }

  /** The result of the replacement from position `i` on. */
  function Mark(text: string, query: string, i: nat): string
    requires query != "" && i <= |text|
    decreases |text| - i
  {
    if i == |text| then ""
    else if HitAt(text, query, i) then
      "<mark>" + text[i..i + |query|] + "</mark>" + Mark(text, query, i + |query|)
    else [text[i]] + Mark(text, query, i + 1)
  }

  function HighlightMatch(text: string, query: string): string {
    if query == "" then text else Mark(text, query, 0)
  }

  // ---------------------------------------------------------------- reading marked text

  /** The characters of marked text without its tags, each with whether it lies inside a mark. */
  function Read(html: string, on: bool): seq<(char, bool)> {
    if html == "" then []
    else if StartsWith(html, "<mark>") then Read(html[6..], true)
    else if StartsWith(html, "</mark>") then Read(html[7..], false)
    else [(html[0], on)] + Read(html[1..], on)
  }

  function Plain(text: string, on: bool): seq<(char, bool)> {
    seq(|text|, i requires 0 <= i < |text| => (text[i], on))
  }

  function Erase(html: string): string {
    var read := Read(html, false);
    seq(|read|, i requires 0 <= i < |read| => read[i].0)
  }

  /** Whether the replacement from `i` on puts the character at `k` inside a mark. */
  predicate IsMarked(text: string, query: string, i: nat, k: nat)
    requires query != "" && i <= k < |text|
    decreases |text| - i
  {
    if HitAt(text, query, i) then k < i + |query| || IsMarked(text, query, i + |query|, k)
    else k > i && IsMarked(text, query, i + 1, k)
  }

  function MarkedText(text: string, query: string, i: nat): seq<(char, bool)>
    requires query != "" && i <= |text|
  {
    seq(|text| - i, j requires 0 <= j < |text| - i => (text[i + j], IsMarked(text, query, i, i + j)))
  }

  lemma ReadChar(c: char, rest: string, on: bool)
    requires c != '<'
    ensures Read([c] + rest, on) == [(c, on)] + Read(rest, on)
  {
    DifferAt([c] + rest, "<mark>", 0);
    DifferAt([c] + rest, "</mark>", 0);
    assert ([c] + rest)[1..] == rest;
  }

  lemma PlainCons(c: char, text: string, on: bool)
    ensures Plain([c] + text, on) == [(c, on)] + Plain(text, on)
  {
  }

  lemma {:induction false} ReadPlain(text: string, rest: string, on: bool)
    requires '<' !in text
    ensures Read(text + rest, on) == Plain(text, on) + Read(rest, on)
    decreases |text|
  {
    if text == "" {
      assert text + rest == rest;
    } else {
      var c, tail := text[0], text[1..];
      ReadPlain(tail, rest, on);
      PlainStep(c, tail, rest, on);
      assert text == [c] + tail;
    }
  }

  lemma PlainStep(c: char, tail: string, rest: string, on: bool)
    requires c != '<' && Read(tail + rest, on) == Plain(tail, on) + Read(rest, on)
    ensures Read([c] + tail + rest, on) == Plain([c] + tail, on) + Read(rest, on)
  {
    assert [c] + tail + rest == [c] + (tail + rest);
    ReadChar(c, tail + rest, on);
    PlainCons(c, tail, on);
    Regroup((c, on), Plain(tail, on), Read(rest, on));
  }

  lemma Regroup<T>(x: T, a: seq<T>, b: seq<T>)
    ensures [x] + (a + b) == [x] + a + b
  {
  }

  lemma ReadClose(rest: string, on: bool)
    ensures Read("</mark>" + rest, on) == Read(rest, false)
  {
    var html := "</mark>" + rest;
    assert html[..7] == "</mark>" && html[7..] == rest;
    DifferAt(html, "<mark>", 1);
  }

  lemma ReadOpen(rest: string, on: bool)
    ensures Read("<mark>" + rest, on) == Read(rest, true)
  {
    var html := "<mark>" + rest;
    assert html[..6] == "<mark>" && html[6..] == rest;
  }

  lemma ReadTagged(hit: string, rest: string, on: bool)
    requires '<' !in hit
    ensures Read("<mark>" + hit + "</mark>" + rest, on) == Plain(hit, true) + Read(rest, false)
  {
    assert "<mark>" + hit + "</mark>" + rest == "<mark>" + (hit + ("</mark>" + rest));
    ReadOpen(hit + ("</mark>" + rest), on);
    ReadPlain(hit, "</mark>" + rest, true);
    ReadClose(rest, true);
  }

  lemma MarkedTextHit(text: string, query: string, i: nat)
    requires query != "" && HitAt(text, query, i)
    ensures MarkedText(text, query, i) == Plain(text[i..i + |query|], true) + MarkedText(text, query, i + |query|)
  {
    var next := i + |query|;
    forall k | next <= k < |text|
      ensures IsMarked(text, query, i, k) == IsMarked(text, query, next, k)
    {
    }
    forall k | i <= k < next
      ensures IsMarked(text, query, i, k)
    {
    }
  }

  lemma MarkedTextMiss(text: string, query: string, i: nat)
    requires query != "" && i < |text| && !HitAt(text, query, i)
    ensures MarkedText(text, query, i) == Plain([text[i]], false) + MarkedText(text, query, i + 1)
  {
    forall k | i < k < |text|
      ensures IsMarked(text, query, i, k) == IsMarked(text, query, i + 1, k)
    {
    }
    assert !IsMarked(text, query, i, i);
  }

  lemma ReadMarkHit(text: string, query: string, i: nat)
    requires query != "" && HitAt(text, query, i) && '<' !in text
    requires Read(Mark(text, query, i + |query|), false) == MarkedText(text, query, i + |query|)
    ensures Read(Mark(text, query, i), false) == MarkedText(text, query, i)
  {
    var hit, rest := text[i..i + |query|], Mark(text, query, i + |query|);
    assert Mark(text, query, i) == "<mark>" + hit + "</mark>" + rest;
    ReadTagged(hit, rest, false);
    MarkedTextHit(text, query, i);
  }

  lemma ReadMarkMiss(text: string, query: string, i: nat)
    requires query != "" && i < |text| && !HitAt(text, query, i) && '<' !in text
    requires Read(Mark(text, query, i + 1), false) == MarkedText(text, query, i + 1)
    ensures Read(Mark(text, query, i), false) == MarkedText(text, query, i)
  {
    var rest := Mark(text, query, i + 1);
    assert Mark(text, query, i) == [text[i]] + rest;
    ReadChar(text[i], rest, false);
    MarkedTextMiss(text, query, i);
  }

  lemma {:induction false} ReadMark(text: string, query: string, i: nat)
    requires query != "" && i <= |text| && '<' !in text
    ensures Read(Mark(text, query, i), false) == MarkedText(text, query, i)
    decreases |text| - i
  {
    if i < |text| {
      if HitAt(text, query, i) {
        ReadMark(text, query, i + |query|);
        ReadMarkHit(text, query, i);
      } else {
        ReadMark(text, query, i + 1);
        ReadMarkMiss(text, query, i);
      }
    }
  }

  /** Taking the tags out of a highlighted result gives back the escaped text, for every text and query. */
  lemma EraseUndoesHighlight(raw: string, query: string)
    ensures Erase(HighlightMatch(Escape.Esc(raw), query)) == Escape.Esc(raw)
  {
    var text := Escape.Esc(raw);
    Escape.EscIsInert(raw);
    if query == "" {
      assert text + "" == text;
      ReadPlain(text, "", false);
    } else {
      ReadMark(text, query, 0);
      assert text[0..] == text;
    }
  }

  // ---------------------------------------------------------------- which characters are marked

  /** Position `k` lies in an occurrence of the query that is marked throughout. */
  ghost predicate InMarkedHit(text: string, query: string, i: nat, k: nat)
    requires query != ""
  {
    exists s: nat ::
      && i <= s <= k < s + |query|
      && HitAt(text, query, s)
      && forall m :: s <= m < s + |query| ==> IsMarked(text, query, i, m)
  }

  /** An occurrence of the query at `h` has a marked character. */
  ghost predicate IsTouched(text: string, query: string, i: nat, h: nat)
    requires query != ""
  {
    exists k: nat :: i <= k && h <= k < h + |query| && k < |text| && IsMarked(text, query, i, k)
  }

  function NextStart(text: string, query: string, i: nat): nat {
    if HitAt(text, query, i) then i + |query| else i + 1
  }

  lemma {:induction false} MarksAreHits(text: string, query: string, i: nat, k: nat)
    requires query != "" && i <= k < |text| && IsMarked(text, query, i, k)
    ensures InMarkedHit(text, query, i, k)
    decreases |text| - i
  {
    if !(HitAt(text, query, i) && k < i + |query|) {
      var next := NextStart(text, query, i);
      MarksAreHits(text, query, next, k);
      var s: nat :| next <= s <= k < s + |query| && HitAt(text, query, s)
        && forall m :: s <= m < s + |query| ==> IsMarked(text, query, next, m);
      forall m | s <= m < s + |query|
        ensures IsMarked(text, query, i, m)
      {
        assert IsMarked(text, query, next, m);
      }
    } else {
      assert forall m :: i <= m < i + |query| ==> IsMarked(text, query, i, m);
    }
  }

  lemma {:induction false} HitsAreTouched(text: string, query: string, i: nat, h: nat)
    requires query != "" && i <= h && HitAt(text, query, h)
    ensures IsTouched(text, query, i, h)
    decreases |text| - i
  {
    if HitAt(text, query, i) && h < i + |query| {
      assert IsMarked(text, query, i, h);
    } else {
      var next := NextStart(text, query, i);
      HitsAreTouched(text, query, next, h);
      var k: nat :| next <= k && h <= k < h + |query| && k < |text| && IsMarked(text, query, next, k);
      assert IsMarked(text, query, i, k);
    }
  }

  /** From any point of the scan on, the first hit is marked throughout, and nothing before it. */
  lemma {:induction false} FirstHitIsMarked(text: string, query: string, i: nat, h: nat)
    requires query != "" && i <= h && HitAt(text, query, h) && forall j :: i <= j < h ==> !HitAt(text, query, j)
    ensures forall k :: i <= k < h + |query| ==> (IsMarked(text, query, i, k) <==> k >= h)
    decreases h - i
  {
    if i < h {
      FirstHitIsMarked(text, query, i + 1, h);
    }
  }

  /**
    A reader of a highlighted result sees, at each position, the escaped text's character and
    whether it is marked; marks lie on whole occurrences of the query and on nothing else, and
    every occurrence is at least touched by a mark.
   */
  lemma MarksAreExactlyHits(raw: string, query: string)
    requires query != ""
    ensures var text := Escape.Esc(raw);
      && Read(HighlightMatch(text, query), false) == MarkedText(text, query, 0)
      && (forall k :: 0 <= k < |text| && IsMarked(text, query, 0, k) ==> InMarkedHit(text, query, 0, k))
      && (forall h: nat :: HitAt(text, query, h) ==> IsTouched(text, query, 0, h))
  {
    var text := Escape.Esc(raw);
    Escape.EscIsInert(raw);
    ReadMark(text, query, 0);
    forall k | 0 <= k < |text| && IsMarked(text, query, 0, k)
      ensures InMarkedHit(text, query, 0, k)
    {
      MarksAreHits(text, query, 0, k);
    }
    forall h: nat | HitAt(text, query, h)
      ensures IsTouched(text, query, 0, h)
    {
      HitsAreTouched(text, query, 0, h);
    }
  }
}
