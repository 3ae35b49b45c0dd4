/** HTML escaping, written as five replacements one after the other. */
module Escape {
  import opened Text

  /** Replaces every occurrence of one character. */
  function Replace(s: string, c: char, entity: string): string {
    if s == "" then "" else (if s[0] == c then entity else [s[0]]) + Replace(s[1..], c, entity)
  }

  function Esc(s: string): string {
    Replace(Replace(Replace(Replace(Replace(s, '&', "&amp;"), '<', "&lt;"), '>', "&gt;"), '"', "&quot;"), '\'', "&#39;")
  }

  function EscChar(c: char): string {
    match c
    case '&' => "&amp;"
    case '<' => "&lt;"
    case '>' => "&gt;"
    case '"' => "&quot;"
    case '\'' => "&#39;"
    case _ => [c]
  }

  /** The simple form: every character is substituted on its own, in one pass. */
  function EscOnce(s: string): string {
    if s == "" then "" else EscChar(s[0]) + EscOnce(s[1..])
  }

  lemma {:induction false} ReplaceSplits(a: string, b: string, c: char, entity: string)
    ensures Replace(a + b, c, entity) == Replace(a, c, entity) + Replace(b, c, entity)
  {
    if a == "" {
      assert a + b == b;
    } else {
      assert (a + b)[1..] == a[1..] + b;
      ReplaceSplits(a[1..], b, c, entity);
    }
  }

  lemma {:induction false} ReplaceAbsent(s: string, c: char, entity: string)
    requires c !in s
    ensures Replace(s, c, entity) == s
  {
    if s != "" {
      ReplaceAbsent(s[1..], c, entity);
    }
  }

  lemma ReplaceOne(c: char, d: char, entity: string)
    ensures Replace([c], d, entity) == if c == d then entity else [c]
  {
    assert [c][1..] == "";
    assert Replace("", d, entity) == "";
  }

  // The passes, one after the other.

  const SPECIALS: string := "&<>\"'"

  /** The pass that replaces `c`; characters that are never replaced come after the last pass. */
  function Pass(c: char): nat {
    match c
    case '&' => 0
    case '<' => 1
    case '>' => 2
    case '"' => 3
    case '\'' => 4
    case _ => 5
  }

  function CharAfter(c: char, k: nat): string {
    if Pass(c) < k then EscChar(c) else [c]
  }

  /** What the first `k` passes have made of a string. */
  function After(s: string, k: nat): string {
    if s == "" then "" else CharAfter(s[0], k) + After(s[1..], k)
  }

  lemma EntityIsInert(c: char)
    requires Pass(c) < 5
    ensures forall k :: 1 <= k < 5 ==> SPECIALS[k] !in EscChar(c)
  {
  }

  /** A pass leaves the entities made by the passes before it alone. */
  lemma CharPass(c: char, k: nat)
    requires k < 5
    ensures Replace(CharAfter(c, k), SPECIALS[k], EscChar(SPECIALS[k])) == CharAfter(c, k + 1)
  {
    if Pass(c) < k {
      EntityIsInert(c);
      ReplaceAbsent(EscChar(c), SPECIALS[k], EscChar(SPECIALS[k]));
    } else {
      ReplaceOne(c, SPECIALS[k], EscChar(SPECIALS[k]));
    }
  }

  lemma {:induction false} OnePass(s: string, k: nat)
    requires k < 5
    ensures Replace(After(s, k), SPECIALS[k], EscChar(SPECIALS[k])) == After(s, k + 1)
  {
    if s != "" {
      ReplaceSplits(CharAfter(s[0], k), After(s[1..], k), SPECIALS[k], EscChar(SPECIALS[k]));
      CharPass(s[0], k);
      OnePass(s[1..], k);
    }
  }

  lemma {:induction false} AfterBounds(s: string)
    ensures After(s, 0) == s && After(s, 5) == EscOnce(s)
  {
    if s != "" {
      AfterBounds(s[1..]);
    }
  }

  /** The five sequential replacements equal one substitution per character. */
  lemma EscIsOnePass(s: string)
    ensures Esc(s) == EscOnce(s)
  {
    AfterBounds(s);
    OnePass(s, 0);
    OnePass(s, 1);
    OnePass(s, 2);
    OnePass(s, 3);
    OnePass(s, 4);
  }

  lemma {:induction false} EscOnceSplits(a: string, b: string)
    ensures EscOnce(a + b) == EscOnce(a) + EscOnce(b)
  {
    if a == "" {
      assert a + b == b;
    } else {
      assert (a + b)[1..] == a[1..] + b;
      EscOnceSplits(a[1..], b);
    }
  }

  lemma EscSplits(a: string, b: string)
    ensures Esc(a + b) == Esc(a) + Esc(b)
  {
    EscIsOnePass(a);
    EscIsOnePass(b);
    EscIsOnePass(a + b);
    EscOnceSplits(a, b);
  }

  /** Reads escaped text back, one entity or one character at a time. */
  function Decode(s: string): string {
    if s == "" then ""
    else if StartsWith(s, "&amp;") then "&" + Decode(s[5..])
    else if StartsWith(s, "&lt;") then "<" + Decode(s[4..])
    else if StartsWith(s, "&gt;") then ">" + Decode(s[4..])
    else if StartsWith(s, "&quot;") then "\"" + Decode(s[6..])
    else if StartsWith(s, "&#39;") then "'" + Decode(s[5..])
    else [s[0]] + Decode(s[1..])
  }

  lemma DecodeOne(c: char, rest: string)
    ensures Decode(EscChar(c) + rest) == [c] + Decode(rest)
  {
    var e := EscChar(c);
    var s := e + rest;
    assert s[|e|..] == rest;
    assert s[..|e|] == e;
    if c == '<' || c == '>' || c == '"' || c == '\'' {
      DifferAt(s, "&amp;", 1);
      if c != '<' {
        DifferAt(s, "&lt;", 1);
        if c != '>' {
          DifferAt(s, "&gt;", 1);
          if c != '"' {
            DifferAt(s, "&quot;", 1);
          }
        }
      }
    } else if c != '&' {
      NoEntityAt(s);
    }
  }

  lemma NoEntityAt(s: string)
    requires s != "" && s[0] != '&'
    ensures !StartsWith(s, "&amp;") && !StartsWith(s, "&lt;") && !StartsWith(s, "&gt;")
    ensures !StartsWith(s, "&quot;") && !StartsWith(s, "&#39;")
  {
    DifferAt(s, "&amp;", 0);
    DifferAt(s, "&lt;", 0);
    DifferAt(s, "&gt;", 0);
    DifferAt(s, "&quot;", 0);
    DifferAt(s, "&#39;", 0);
  }

  lemma {:induction false} DecodeUndoesEscOnce(s: string)
    ensures Decode(EscOnce(s)) == s
  {
    if s != "" {
      DecodeOne(s[0], EscOnce(s[1..]));
      DecodeUndoesEscOnce(s[1..]);
    }
  }

  /** Escaping loses nothing: the decoder gives back every string. */
  lemma DecodeUndoesEsc(s: string)
    ensures Decode(Esc(s)) == s
  {
    EscIsOnePass(s);
    DecodeUndoesEscOnce(s);
  }

  lemma EscIsInjective(a: string, b: string)
    requires Esc(a) == Esc(b)
    ensures a == b
  {
    DecodeUndoesEsc(a);
    DecodeUndoesEsc(b);
  }

  predicate Inert(s: string) {
    forall c :: c in s ==> c != '<' && c != '>' && c != '"' && c != '\''
  }

  lemma {:induction false} EscOnceIsInert(s: string)
    ensures Inert(EscOnce(s))
  {
    if s != "" {
      EscOnceIsInert(s[1..]);
      assert Inert(EscChar(s[0]));
    }
  }

  /** No character that could open or close a tag or an attribute survives. */
  lemma EscIsInert(s: string)
    ensures Inert(Esc(s))
  {
    EscIsOnePass(s);
    EscOnceIsInert(s);
  }
}
