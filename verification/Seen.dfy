/**
  What a reader sees of a highlighted search result.  The query is looked for in text that is
  escaped already, so a mark can begin or end inside an entity and break it.
 */
module Seen {
  import opened Basics
  import opened Text
  import Escape
  import opened Highlight

  // ---------------------------------------------------------------- the browser

  /**
    The pieces of markup that show something other than themselves, in the order in which they
    are tried.  A reference that is cut off before its semicolon is still read as one, as far as
    its name or its number goes.
   */
  const PIECES: seq<(string, string)> := [
    ("<mark>", ""), ("</mark>", ""),
    ("&amp;", "&"), ("&lt;", "<"), ("&gt;", ">"), ("&quot;", "\""), ("&#39;", "'"),
    ("&amp", "&"), ("&lt", "<"), ("&gt", ">"), ("&quot", "\""), ("&#39", "'"), ("&#3", "\U{3}")]

  type Pieces = seq<(string, string)>

  /** What the markup starts with from the `i`-th piece on: its length, and what it shows. */
  function Token(pieces: Pieces, html: string, i: nat): (nat, string)
    requires html != ""
    decreases |pieces| - i
  {
    if i >= |pieces| then (1, html[..1])
    else if pieces[i].0 != "" && StartsWith(html, pieces[i].0) then (|pieces[i].0|, pieces[i].1)
    else Token(pieces, html, i + 1)
  }

  lemma {:induction false} TokenIsPiece(pieces: Pieces, html: string, from: nat)
    requires html != ""
    ensures Token(pieces, html, from) == (1, html[..1]) ||
      exists i :: from <= i < |pieces| && pieces[i].0 != "" && StartsWith(html, pieces[i].0)
        && Token(pieces, html, from) == (|pieces[i].0|, pieces[i].1)
    decreases |pieces| - from
  {
    if from < |pieces| {
      TokenIsPiece(pieces, html, from + 1);
    }
  }

  function Shown(pieces: Pieces, html: string): string
    decreases |html|
  {
    if html == "" then ""
    else
      TokenIsPiece(pieces, html, 0);
      var (n, s) := Token(pieces, html, 0);
      s + Shown(pieces, html[n..])
  }

  /** First the two tags, then references that show one character. */
  predicate IsShaped(pieces: Pieces) {
    && |pieces| > 6 && pieces[0] == ("<mark>", "") && pieces[1] == ("</mark>", "")
    && forall i :: 2 <= i < |pieces| ==> IsReference(pieces[i])
  }

  predicate IsReference(piece: (string, string)) {
    |piece.0| >= 3 && piece.0[0] == '&' && '<' !in piece.0 && |piece.1| == 1
  }

  function EntityIndex(c: char): nat {
    if c == '&' then 2 else if c == '<' then 3 else if c == '>' then 4 else if c == '"' then 5 else 6
  }

  /** The next five are the entities that escaping makes, and tell apart by their second character. */
  predicate HasEntity(pieces: Pieces, c: char) {
    Escape.EscChar(c) != [c] ==>
      && EntityIndex(c) < |pieces|
      && pieces[EntityIndex(c)] == (Escape.EscChar(c), [c])
      && forall j :: 2 <= j < EntityIndex(c) ==> |pieces[j].0| > 1 && pieces[j].0[1] != Escape.EscChar(c)[1]
  }

  ghost predicate IsBrowser(pieces: Pieces) {
    IsShaped(pieces) && forall c :: HasEntity(pieces, c)
  }

  lemma PiecesAreShaped()
    ensures IsShaped(PIECES)
  {
    forall i | 2 <= i < |PIECES|
      ensures IsReference(PIECES[i])
    {
    }
  }

  lemma PiecesHaveEntity(c: char)
    ensures HasEntity(PIECES, c)
  {
  }

  lemma PiecesAreBrowser()
    ensures IsBrowser(PIECES)
  {
    PiecesAreShaped();
    forall c
      ensures HasEntity(PIECES, c)
    {
      PiecesHaveEntity(c);
    }
  }

  lemma {:induction false} TokenFinds(pieces: Pieces, html: string, from: nat, i: nat)
    requires html != "" && from <= i < |pieces| && pieces[i].0 != "" && StartsWith(html, pieces[i].0)
    requires forall j :: from <= j < i ==> !StartsWith(html, pieces[j].0)
    ensures Token(pieces, html, from) == (|pieces[i].0|, pieces[i].1)
    decreases i - from
  {
    if from < i {
      TokenFinds(pieces, html, from + 1, i);
    }
  }

  lemma {:induction false} TokenIsPlain(pieces: Pieces, html: string, from: nat)
    requires html != "" && forall j :: from <= j < |pieces| ==> !StartsWith(html, pieces[j].0)
    ensures Token(pieces, html, from) == (1, html[..1])
    decreases |pieces| - from
  {
    if from < |pieces| {
      TokenIsPlain(pieces, html, from + 1);
    }
  }

  lemma ShownToken(pieces: Pieces, html: string, n: nat, s: string, rest: string)
    requires html != "" && Token(pieces, html, 0) == (n, s) && n <= |html| && html[n..] == rest
    ensures Shown(pieces, html) == s + Shown(pieces, rest)
  {
  }

  lemma ShownTag(pieces: Pieces, tag: string, rest: string)
    requires IsShaped(pieces) && (tag == "<mark>" || tag == "</mark>")
    ensures Shown(pieces, tag + rest) == Shown(pieces, rest)
  {
    var html := tag + rest;
    assert html[..|tag|] == tag && html[|tag|..] == rest;
    if tag == "</mark>" {
      DifferAt(html, "<mark>", 1);
      TokenFinds(pieces, html, 0, 1);
    } else {
      TokenFinds(pieces, html, 0, 0);
    }
    ShownToken(pieces, html, |tag|, "", rest);
  }

  lemma ShownPlain(pieces: Pieces, c: char, rest: string)
    requires IsShaped(pieces) && c != '<' && c != '&'
    ensures Shown(pieces, [c] + rest) == [c] + Shown(pieces, rest)
  {
    var html := [c] + rest;
    forall j | 0 <= j < |pieces|
      ensures !StartsWith(html, pieces[j].0)
    {
      assert j >= 2 ==> IsReference(pieces[j]);
      DifferAt(html, pieces[j].0, 0);
    }
    TokenIsPlain(pieces, html, 0);
    ShownToken(pieces, html, 1, [c], rest);
  }

  /** A whole entity shows the character it stands for. */
  lemma ShownEntity(pieces: Pieces, c: char, rest: string)
    requires IsBrowser(pieces)
    ensures Shown(pieces, Escape.EscChar(c) + rest) == [c] + Shown(pieces, rest)
  {
    var entity := Escape.EscChar(c);
    if entity == [c] {
      ShownPlain(pieces, c, rest);
    } else {
      var html := entity + rest;
      assert html[..|entity|] == entity && html[|entity|..] == rest;
      assert HasEntity(pieces, c);
      forall j | 0 <= j < EntityIndex(c)
        ensures !StartsWith(html, pieces[j].0)
      {
        DifferAt(html, pieces[j].0, if j < 2 then 0 else 1);
      }
      TokenFinds(pieces, html, 0, EntityIndex(c));
      ShownToken(pieces, html, |entity|, [c], rest);
    }
  }

  // ---------------------------------------------------------------- broken entities

  lemma StopsBeforeTag(html: string, piece: string, m: nat)
    requires StartsWith(html, piece) && m < |html| && html[m] == '<' && '<' !in piece
    ensures |piece| <= m
  {
    assert forall j :: 0 <= j < |piece| ==> html[..|piece|][j] == html[j];
  }

  /** A reference does not reach over a tag, and shows one character. */
  lemma ReferenceStops(pieces: Pieces, html: string, m: nat)
    requires IsShaped(pieces) && html != "" && html[0] == '&' && 0 < m < |html| && html[m] == '<'
    ensures 1 <= Token(pieces, html, 0).0 <= m && |Token(pieces, html, 0).1| == 1
  {
    TokenIsPiece(pieces, html, 0);
    if Token(pieces, html, 0) != (1, html[..1]) {
      var i :| 0 <= i < |pieces| && pieces[i].0 != "" && StartsWith(html, pieces[i].0)
        && Token(pieces, html, 0) == (|pieces[i].0|, pieces[i].1);
      if i < 2 {
        DifferAt(html, pieces[i].0, 0);
      } else {
        assert IsReference(pieces[i]);
        StopsBeforeTag(html, pieces[i].0, m);
      }
    }
  }

  lemma {:induction false} ShownRun(pieces: Pieces, plain: string, rest: string)
    requires IsShaped(pieces) && '<' !in plain && '&' !in plain
    ensures Shown(pieces, plain + rest) == plain + Shown(pieces, rest)
    decreases |plain|
  {
    if plain == "" {
      assert plain + rest == rest;
    } else {
      var c, tail := plain[0], plain[1..];
      ShownRun(pieces, tail, rest);
      assert plain + rest == [c] + (tail + rest);
      ShownPlain(pieces, c, tail + rest);
      Regroup(c, tail, Shown(pieces, rest));
      assert plain == [c] + tail;
    }
  }

  /** The front of a broken entity shows at least one character. */
  lemma BrokenFrontShows(pieces: Pieces, front: string, rest: string)
    requires IsShaped(pieces) && front != "" && front[0] == '&' && '&' !in front[1..] && '<' !in front
    requires rest != "" && rest[0] == '<'
    ensures |Shown(pieces, front + rest)| >= 1 + |Shown(pieces, rest)|
  {
    var html := front + rest;
    assert html[|front|] == '<';
    ReferenceStops(pieces, html, |front|);
    var (n, s) := Token(pieces, html, 0);
    assert html[n..] == front[n..] + rest;
    ShownToken(pieces, html, n, s, front[n..] + rest);
    assert forall c :: c in front[n..] ==> c in front[1..];
    ShownRun(pieces, front[n..], rest);
  }

  // ---------------------------------------------------------------- where the tags are

  /** The end of the mark that has to be opened at `k`, or is open there. */
  function After(text: string, query: string, k: nat, open: Option<nat>): Option<nat> {
    var here := if open == Some(k) then None else open;
    if here.None? && HitAt(text, query, k) then Some(k + |query|) else here
  }

  /** The end of the mark that is open right before position `k`. */
  function OpenBefore(text: string, query: string, k: nat): Option<nat> {
    if k == 0 then None else After(text, query, k - 1, OpenBefore(text, query, k - 1))
  }

  /** A mark begins or ends right before the character at `k`. */
  predicate TagBefore(text: string, query: string, k: nat) {
    After(text, query, k, OpenBefore(text, query, k)) != OpenBefore(text, query, k)
  }

  /** The markup from position `k` on, when a mark is open until `open`. */
  function From(text: string, query: string, k: nat, open: Option<nat>): string
    requires query != "" && k <= |text| && (open.Some? ==> k <= open.value <= |text|)
  {
    if open.None? then Mark(text, query, k) else text[k..open.value] + "</mark>" + Mark(text, query, open.value)
  }

  lemma {:induction false} OpenIsAhead(text: string, query: string, k: nat)
    requires query != "" && k <= |text|
    ensures var open := OpenBefore(text, query, k); open.Some? ==> k <= open.value <= |text|
  {
    if k > 0 {
      OpenIsAhead(text, query, k - 1);
    }
  }

  function Rest(text: string, query: string, k: nat): string
    requires query != "" && k <= |text|
  {
    OpenIsAhead(text, query, k);
    From(text, query, k, OpenBefore(text, query, k))
  }

  lemma FromHit(text: string, query: string, k: nat)
    requires query != "" && k < |text| && HitAt(text, query, k)
    ensures From(text, query, k, None) == "<mark>" + From(text, query, k, Some(k + |query|))
  {
    var e := k + |query|;
    assert Mark(text, query, k) == "<mark>" + text[k..e] + "</mark>" + Mark(text, query, e);
    TagFirst("<mark>", text[k..e], "</mark>", Mark(text, query, e));
  }

  lemma TagFirst(a: string, b: string, c: string, d: string)
    ensures a + b + c + d == a + (b + c + d)
  {
  }

  lemma FromEnd(text: string, query: string, k: nat)
    requires query != "" && k <= |text|
    ensures From(text, query, k, Some(k)) == "</mark>" + From(text, query, k, None)
  {
    assert text[k..k] == "";
    assert "" + "</mark>" + Mark(text, query, k) == "</mark>" + Mark(text, query, k);
  }

  /** Behind its tags, the markup goes on with the character at `k`. */
  lemma FromStep(text: string, query: string, k: nat, open: Option<nat>)
    requires query != "" && k < |text| && (open.Some? ==> k < open.value <= |text|)
    requires open.None? ==> !HitAt(text, query, k)
    ensures From(text, query, k, open) == [text[k]] + From(text, query, k + 1, open)
  {
    if open.Some? {
      assert text[k..open.value] == [text[k]] + text[k + 1..open.value];
      Regroup(text[k], text[k + 1..open.value], "</mark>");
      Regroup(text[k], text[k + 1..open.value] + "</mark>", Mark(text, query, open.value));
    }
  }

  /** The markup at `k`: perhaps tags that show nothing, and then the character. */
  lemma RestStep(pieces: Pieces, text: string, query: string, k: nat)
    requires IsShaped(pieces) && query != "" && k < |text|
    ensures Shown(pieces, Rest(text, query, k)) == Shown(pieces, [text[k]] + Rest(text, query, k + 1))
    ensures !TagBefore(text, query, k) ==> Rest(text, query, k) == [text[k]] + Rest(text, query, k + 1)
    ensures TagBefore(text, query, k) ==> Rest(text, query, k) != "" && Rest(text, query, k)[0] == '<'
  {
    OpenIsAhead(text, query, k);
    OpenIsAhead(text, query, k + 1);
    var open := OpenBefore(text, query, k);
    var here := if open == Some(k) then None else open;
    var after := After(text, query, k, open);
    if open == Some(k) {
      FromEnd(text, query, k);
      ShownTag(pieces, "</mark>", From(text, query, k, None));
    }
    if here.None? && HitAt(text, query, k) {
      FromHit(text, query, k);
      ShownTag(pieces, "<mark>", From(text, query, k, after));
    }
    FromStep(text, query, k, after);
  }

  lemma RestAtEnd(pieces: Pieces, text: string, query: string)
    requires IsShaped(pieces) && query != ""
    ensures Shown(pieces, Rest(text, query, |text|)) == ""
  {
    OpenIsAhead(text, query, |text|);
    if OpenBefore(text, query, |text|).Some? {
      FromEnd(text, query, |text|);
      ShownTag(pieces, "</mark>", From(text, query, |text|, None));
    }
  }

  /** At every position: the markup from there on, whether a tag stands there, and what is shown from there on. */
  datatype Trace = Trace(rests: seq<string>, tags: seq<bool>, shown: seq<string>)

  /** A tag shows nothing and a plain character itself; without a tag the markup goes on with the character. */
  ghost predicate IsTrace(pieces: Pieces, text: string, t: Trace) {
    && |t.rests| == |text| + 1 && |t.tags| == |text| + 1 && |t.shown| == |text| + 1
    && (forall k :: 0 <= k < |text| ==> StepsAt(pieces, text, t, k))
    && t.shown[|text|] == ""
  }

  ghost predicate StepsAt(pieces: Pieces, text: string, t: Trace, k: nat)
    requires k < |text| && |t.rests| == |text| + 1 && |t.tags| == |text| + 1 && |t.shown| == |text| + 1
  {
    && t.shown[k] == Shown(pieces, t.rests[k])
    && t.shown[k] == Shown(pieces, [text[k]] + t.rests[k + 1])
    && (!t.tags[k] ==> t.rests[k] == [text[k]] + t.rests[k + 1])
    && (t.tags[k] ==> t.rests[k] != "" && t.rests[k][0] == '<')
    && t.shown[k + 1] == Shown(pieces, t.rests[k + 1])
  }

  ghost function TraceOf(pieces: Pieces, text: string, query: string): (t: Trace)
    requires IsBrowser(pieces) && query != ""
    ensures IsTrace(pieces, text, t)
    ensures t.rests[0] == Mark(text, query, 0) && t.shown[0] == Shown(pieces, Mark(text, query, 0))
    ensures forall k :: 0 <= k <= |text| ==> t.tags[k] == TagBefore(text, query, k)
  {
    var t := Trace(
      seq(|text| + 1, k requires 0 <= k <= |text| => Rest(text, query, k)),
      seq(|text| + 1, k requires 0 <= k <= |text| => TagBefore(text, query, k)),
      seq(|text| + 1, k requires 0 <= k <= |text| => Shown(pieces, Rest(text, query, k))));
    assert IsTrace(pieces, text, t) by {
      forall k | 0 <= k < |text|
        ensures StepsAt(pieces, text, t, k)
      {
        RestStep(pieces, text, query, k);
      }
      RestAtEnd(pieces, text, query);
    }
    t
  }

  /** Without a tag inside, a stretch of text stays in one piece. */
  lemma {:induction false} Unbroken(pieces: Pieces, text: string, t: Trace, k: nat, n: nat)
    requires IsTrace(pieces, text, t) && k + n <= |text|
    requires forall m :: k <= m < k + n ==> !t.tags[m]
    ensures t.rests[k] == text[k..k + n] + t.rests[k + n]
    decreases n
  {
    if n == 0 {
      assert text[k..k] == "";
    } else {
      assert StepsAt(pieces, text, t, k);
      Unbroken(pieces, text, t, k + 1, n - 1);
      assert text[k..k + n] == [text[k]] + text[k + 1..k + n];
      Regroup(text[k], text[k + 1..k + n], t.rests[k + n]);
    }
  }

  lemma UnbrokenStretch(pieces: Pieces, text: string, t: Trace, k: nat, n: nat)
    requires IsTrace(pieces, text, t) && k + n <= |text| && n > 0
    requires forall m :: k < m < k + n ==> !t.tags[m]
    ensures t.shown[k] == Shown(pieces, text[k..k + n] + t.rests[k + n])
  {
    assert StepsAt(pieces, text, t, k);
    Unbroken(pieces, text, t, k + 1, n - 1);
    assert text[k..k + n] == [text[k]] + text[k + 1..k + n];
    Regroup(text[k], text[k + 1..k + n], t.rests[k + n]);
  }

  /** Characters other than `&` and `<` show as they are, tags or not. */
  lemma {:induction false} PlainStretch(pieces: Pieces, text: string, t: Trace, k: nat, n: nat)
    requires IsShaped(pieces) && IsTrace(pieces, text, t) && k + n <= |text|
    requires forall m :: k <= m < k + n ==> text[m] != '&' && text[m] != '<'
    ensures |t.shown[k]| == n + |t.shown[k + n]|
    decreases n
  {
    if n > 0 {
      assert StepsAt(pieces, text, t, k);
      ShownPlain(pieces, text[k], t.rests[k + 1]);
      PlainStretch(pieces, text, t, k + 1, n - 1);
    }
  }

  // ---------------------------------------------------------------- the result

  /** No tag stands inside an entity of the escaped `raw`, which begins at `k`. */
  predicate EntitiesWhole(tags: seq<bool>, raw: string, k: nat)
    decreases |raw|
  {
    raw == "" ||
    (var n := |Escape.EscChar(raw[0])|; IsWhole(tags, k, n) && EntitiesWhole(tags, raw[1..], k + n))
  }

  predicate IsWhole(tags: seq<bool>, k: nat, n: nat) {
    forall m :: k < m < k + n && m < |tags| ==> !tags[m]
  }

  lemma EntityShape(c: char)
    ensures var entity := Escape.EscChar(c);
      && entity != ""
      && (|entity| > 1 ==> entity[0] == '&' && '&' !in entity[1..] && '<' !in entity)
  {
  }

  /** The entity of `c` stands at `k`. */
  predicate StandsAt(text: string, c: char, k: nat) {
    k + |Escape.EscChar(c)| <= |text| && text[k..k + |Escape.EscChar(c)|] == Escape.EscChar(c)
  }

  lemma WholeEntityShows(pieces: Pieces, text: string, t: Trace, c: char, k: nat)
    requires IsBrowser(pieces) && IsTrace(pieces, text, t) && StandsAt(text, c, k)
    requires IsWhole(t.tags, k, |Escape.EscChar(c)|)
    ensures t.shown[k] == [c] + t.shown[k + |Escape.EscChar(c)|]
  {
    var n := |Escape.EscChar(c)|;
    EntityShape(c);
    UnbrokenStretch(pieces, text, t, k, n);
    ShownEntity(pieces, c, t.rests[k + n]);
    assert StepsAt(pieces, text, t, k + n - 1);
  }

  lemma FirstTag(tags: seq<bool>, k: nat, n: nat) returns (m: nat)
    requires !IsWhole(tags, k, n)
    ensures k < m < k + n && m < |tags| && tags[m] && forall j :: k < j < m ==> !tags[j]
  {
    var last :| k < last < k + n && last < |tags| && tags[last];
    m := k + 1;
    while !tags[m]
      invariant k < m <= last
      invariant forall j :: k < j < m ==> !tags[j]
      decreases last - m
    {
      m := m + 1;
    }
  }

  lemma EntityParts(text: string, c: char, k: nat, m: nat)
    requires StandsAt(text, c, k) && k < m < k + |Escape.EscChar(c)|
    ensures var front := text[k..m]; front[0] == '&' && '&' !in front[1..] && '<' !in front
    ensures forall j :: m <= j < k + |Escape.EscChar(c)| ==> text[j] != '&' && text[j] != '<'
  {
    var entity, end := Escape.EscChar(c), k + |Escape.EscChar(c)|;
    EntityShape(c);
    assert forall j :: k <= j < end ==> text[j] == text[k..end][j - k];
    assert forall j :: 0 < j < |entity| ==> entity[j] == entity[1..][j - 1];
  }

  lemma BrokenEntityShows(pieces: Pieces, text: string, t: Trace, c: char, k: nat)
    requires IsBrowser(pieces) && IsTrace(pieces, text, t) && StandsAt(text, c, k)
    requires !IsWhole(t.tags, k, |Escape.EscChar(c)|)
    ensures |t.shown[k]| >= 2 + |t.shown[k + |Escape.EscChar(c)|]|
  {
    var end := k + |Escape.EscChar(c)|;
    var m := FirstTag(t.tags, k, |Escape.EscChar(c)|);
    EntityParts(text, c, k, m);
    UnbrokenStretch(pieces, text, t, k, m - k);
    assert StepsAt(pieces, text, t, m);
    BrokenFrontShows(pieces, text[k..m], t.rests[m]);
    PlainStretch(pieces, text, t, m, end - m);
  }

  lemma EntityStands(text: string, raw: string, k: nat)
    requires k <= |text| && raw != "" && text[k..] == Escape.EscOnce(raw)
    ensures var n := |Escape.EscChar(raw[0])|; StandsAt(text, raw[0], k) && text[k + n..] == Escape.EscOnce(raw[1..])
  {
    var n := |Escape.EscChar(raw[0])|;
    assert text[k..][..n] == text[k..k + n] && text[k..][n..] == text[k + n..];
  }

  /** What is shown at an entity of `c`, compared with what is shown behind it. */
  predicate EntityShows(c: char, whole: bool, here: string, behind: string) {
    if whole then here == [c] + behind else |here| >= 2 + |behind|
  }

  lemma EntityStep(pieces: Pieces, text: string, t: Trace, c: char, k: nat)
    requires IsBrowser(pieces) && IsTrace(pieces, text, t) && StandsAt(text, c, k)
    ensures var n := |Escape.EscChar(c)|; EntityShows(c, IsWhole(t.tags, k, n), t.shown[k], t.shown[k + n])
  {
    if IsWhole(t.tags, k, |Escape.EscChar(c)|) {
      WholeEntityShows(pieces, text, t, c, k);
    } else {
      BrokenEntityShows(pieces, text, t, c, k);
    }
  }

  /** What is shown is `raw` if nothing is broken, and longer otherwise. */
  predicate ShowsRaw(raw: string, whole: bool, shown: string) {
    if whole then shown == raw else |shown| > |raw|
  }

  lemma StepShows(c: char, raw: string, whole: bool, rest: bool, here: string, behind: string)
    requires EntityShows(c, whole, here, behind) && ShowsRaw(raw, rest, behind)
    ensures ShowsRaw([c] + raw, whole && rest, here)
  {
  }

  lemma WholeCons(tags: seq<bool>, raw: string, k: nat)
    requires raw != ""
    ensures var n := |Escape.EscChar(raw[0])|;
      EntitiesWhole(tags, raw, k) == (IsWhole(tags, k, n) && EntitiesWhole(tags, raw[1..], k + n))
  {
  }

  lemma SuffixStep(pieces: Pieces, text: string, t: Trace, raw: string, k: nat)
    requires IsBrowser(pieces) && IsTrace(pieces, text, t) && raw != "" && StandsAt(text, raw[0], k)
    requires var n := |Escape.EscChar(raw[0])|; ShowsRaw(raw[1..], EntitiesWhole(t.tags, raw[1..], k + n), t.shown[k + n])
    ensures ShowsRaw(raw, EntitiesWhole(t.tags, raw, k), t.shown[k])
  {
    var c, n := raw[0], |Escape.EscChar(raw[0])|;
    EntityStep(pieces, text, t, c, k);
    StepShows(c, raw[1..], IsWhole(t.tags, k, n), EntitiesWhole(t.tags, raw[1..], k + n), t.shown[k], t.shown[k + n]);
    WholeCons(t.tags, raw, k);
    assert raw == [c] + raw[1..];
  }

  lemma {:induction false} SuffixShows(pieces: Pieces, text: string, t: Trace, raw: string, k: nat)
    requires IsBrowser(pieces) && IsTrace(pieces, text, t) && k <= |text| && text[k..] == Escape.EscOnce(raw)
    ensures ShowsRaw(raw, EntitiesWhole(t.tags, raw, k), t.shown[k])
    decreases |raw|
  {
    if raw != "" {
      EntityStands(text, raw, k);
      SuffixShows(pieces, text, t, raw[1..], k + |Escape.EscChar(raw[0])|);
      SuffixStep(pieces, text, t, raw, k);
    }
  }

  /** Where the highlighted text has tags. */
  function Tags(text: string, query: string): (tags: seq<bool>)
    ensures |tags| == |text| + 1 && forall k :: 0 <= k <= |text| ==> tags[k] == TagBefore(text, query, k)
  {
    seq(|text| + 1, k requires 0 <= k <= |text| => TagBefore(text, query, k))
  }

  // ---------------------------------------------------------------- line ends and U+0000

  /** In the text of a page U+0000 is dropped. */
  function DropNul(s: string): string {
    if s == "" then "" else (if s[0] == '\0' then "" else [s[0]]) + DropNul(s[1..])
  }

  /** What a reader sees of markup put into the page. */
  function Displayed(html: string): string {
    DropNul(Shown(PIECES, Lines(html)))
  }

  lemma {:induction false} DropNulDrops(s: string)
    ensures '\0' !in DropNul(s) && (forall c :: c in DropNul(s) ==> c in s)
    ensures '\0' !in s ==> DropNul(s) == s
  {
    if s != "" {
      DropNulDrops(s[1..]);
      assert s == [s[0]] + s[1..];
    }
  }

  /** No piece of markup shows this character. */
  predicate NeverShown(pieces: Pieces, c: char) {
    forall i :: 0 <= i < |pieces| ==> c !in pieces[i].1
  }

  lemma ReturnIsNeverShown()
    ensures NeverShown(PIECES, '\r') && NeverShown(PIECES, '\0')
  {
  }

  lemma {:induction false} ShownOnlyIfThere(pieces: Pieces, html: string, c: char)
    requires NeverShown(pieces, c) && c !in html
    ensures c !in Shown(pieces, html)
    decreases |html|
  {
    if html != "" {
      TokenIsPiece(pieces, html, 0);
      var (n, s) := Token(pieces, html, 0);
      assert forall d :: d in html[n..] ==> d in html;
      ShownOnlyIfThere(pieces, html[n..], c);
      assert c !in s;
    }
  }

  lemma {:induction false} EscKeepsAway(raw: string, c: char)
    requires c !in raw && (c == '\r' || c == '\0')
    ensures c !in Escape.EscOnce(raw)
  {
    if raw != "" {
      EscKeepsAway(raw[1..], c);
      assert raw == [raw[0]] + raw[1..];
      assert c !in Escape.EscChar(raw[0]);
    }
  }

  lemma {:induction false} MarkKeepsAway(text: string, query: string, i: nat, c: char)
    requires query != "" && i <= |text| && c !in text && (c == '\r' || c == '\0')
    ensures c !in Mark(text, query, i)
    decreases |text| - i
  {
    if i < |text| {
      if HitAt(text, query, i) {
        MarkKeepsAway(text, query, i + |query|, c);
        var hit := text[i..i + |query|];
        assert c !in hit && c !in "<mark>" && c !in "</mark>";
      } else {
        MarkKeepsAway(text, query, i + 1, c);
      }
    }
  }

  /** A character that the text lacks is not in its highlighted markup. */
  lemma HighlightKeepsAway(raw: string, query: string, c: char)
    requires query != "" && c !in raw && (c == '\r' || c == '\0')
    ensures c !in HighlightMatch(Escape.Esc(raw), query)
  {
    Escape.EscIsOnePass(raw);
    EscKeepsAway(raw, c);
    MarkKeepsAway(Escape.Esc(raw), query, 0, c);
  }

  lemma DisplayedHasNoReturn(html: string)
    ensures '\r' !in Displayed(html) && '\0' !in Displayed(html)
  {
    LinesHasNoReturn(html);
    ReturnIsNeverShown();
    ShownOnlyIfThere(PIECES, Lines(html), '\r');
    DropNulDrops(Shown(PIECES, Lines(html)));
  }

  lemma DisplayedIsShown(html: string)
    requires '\r' !in html && '\0' !in html
    ensures Displayed(html) == Shown(PIECES, html)
  {
    LinesHasNoReturn(html);
    ReturnIsNeverShown();
    ShownOnlyIfThere(PIECES, html, '\0');
    DropNulDrops(Shown(PIECES, html));
  }

  /**
    A highlighted result reads like the text that was searched exactly when the text has no
    carriage return and no U+0000, and no mark cuts into an entity.
   */
  lemma ReaderSeesTextExactlyWhen(raw: string, query: string)
    requires query != ""
    ensures Displayed(HighlightMatch(Escape.Esc(raw), query)) == raw <==>
            '\r' !in raw && '\0' !in raw && EntitiesWhole(Tags(Escape.Esc(raw), query), raw, 0)
  {
    var html := HighlightMatch(Escape.Esc(raw), query);
    DisplayedHasNoReturn(html);
    if '\r' !in raw && '\0' !in raw {
      HighlightKeepsAway(raw, query, '\r');
      HighlightKeepsAway(raw, query, '\0');
      DisplayedIsShown(html);
      PiecesAreBrowser();
      SeesTextExactlyWhen(PIECES, raw, query);
    }
  }

  lemma SeesTextExactlyWhen(pieces: Pieces, raw: string, query: string)
    requires IsBrowser(pieces) && query != ""
    ensures Shown(pieces, HighlightMatch(Escape.Esc(raw), query)) == raw <==>
            EntitiesWhole(Tags(Escape.Esc(raw), query), raw, 0)
  {
    var text := Escape.Esc(raw);
    var t := TraceOf(pieces, text, query);
    Escape.EscIsOnePass(raw);
    assert text[0..] == text;
    assert t.tags == Tags(text, query);
    SuffixShows(pieces, text, t, raw, 0);
  }

  /** Searching for `amp` in `a&b` shows something else. */
  lemma SearchForAmp()
    ensures Displayed(HighlightMatch(Escape.Esc("a&b"), "amp")) != "a&b"
  {
    Escape.EscIsOnePass("a&b");
    AmpEscaped();
    MarkInsideEntity();
    ReaderSeesTextExactlyWhen("a&b", "amp");
  }

  lemma EscCons(c: char, rest: string)
    ensures Escape.EscOnce([c] + rest) == Escape.EscChar(c) + Escape.EscOnce(rest)
  {
    assert ([c] + rest)[1..] == rest;
  }

  lemma AmpEscaped()
    ensures Escape.EscOnce("a&b") == "a&amp;b"
  {
    EscCons('b', "");
    EscCons('&', "b");
    EscCons('a', "&b");
    assert ['b'] + "" == "b" && ['&'] + "b" == "&b" && ['a'] + "&b" == "a&b";
    assert Escape.EscOnce("&b") == "&amp;b";
  }

  lemma MissAt(text: string, query: string, i: nat, k: nat)
    requires i + |query| <= |text| && k < |query| && LowerChar(text[i + k]) != LowerChar(query[k])
    ensures !HitAt(text, query, i)
  {
    assert Lower(text[i..i + |query|])[k] == LowerChar(text[i + k]);
  }

  lemma AmpIsMarked()
    ensures TagBefore("a&amp;b", "amp", 2)
  {
    var text := "a&amp;b";
    MissAt(text, "amp", 0, 1);
    MissAt(text, "amp", 1, 0);
    assert text[2..5] == "amp";
    assert OpenBefore(text, "amp", 0) == None;
    assert OpenBefore(text, "amp", 1) == None;
    assert OpenBefore(text, "amp", 2) == None;
  }

  lemma MarkInsideEntity()
    ensures !EntitiesWhole(Tags("a&amp;b", "amp"), "a&b", 0)
  {
    AmpIsMarked();
    var tags := Tags("a&amp;b", "amp");
    assert tags[2];
    assert "a&b"[1..] == "&b" && |Escape.EscChar('&')| == 5 && |Escape.EscChar('a')| == 1;
    assert !IsWhole(tags, 1, 5);
    assert !EntitiesWhole(tags, "&b", 1);
  }
}
