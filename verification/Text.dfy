/** The string operations the dashboard uses, with case folding on the Latin letters only. */
module Text {

  function LowerChar(c: char): char {
    if 'A' <= c <= 'Z' then c - 'A' + 'a' else c
  }

  function UpperChar(c: char): char {
    if 'a' <= c <= 'z' then c - 'a' + 'A' else c
  }

  function Lower(s: string): (r: string)
    ensures |r| == |s| && forall i :: 0 <= i < |s| ==> r[i] == LowerChar(s[i])
  {
    seq(|s|, i requires 0 <= i < |s| => LowerChar(s[i]))
  }

  function Upper(s: string): (r: string)
    ensures |r| == |s| && forall i :: 0 <= i < |s| ==> r[i] == UpperChar(s[i])
  {
    seq(|s|, i requires 0 <= i < |s| => UpperChar(s[i]))
  }

  predicate StartsWith(s: string, prefix: string) {
    |prefix| <= |s| && s[..|prefix|] == prefix
  }

  lemma DifferAt(s: string, prefix: string, k: nat)
    requires k < |s| && k < |prefix| && s[k] != prefix[k]
    ensures !StartsWith(s, prefix)
  {
    assert |prefix| <= |s| ==> s[..|prefix|][k] == s[k];
  }

  predicate OccursAt(s: string, part: string, i: nat) {
    i <= |s| && StartsWith(s[i..], part)
  }

  predicate Contains(s: string, part: string) {
    exists i :: 0 <= i <= |s| && OccursAt(s, part, i)
  }

  lemma ContainsExtends(before: string, s: string, after: string, part: string)
    requires Contains(s, part)
    ensures Contains(before + s + after, part)
  {
    var i :| 0 <= i <= |s| && OccursAt(s, part, i);
    var whole := before + s + after;
    assert whole[|before| + i..][..|part|] == s[i..][..|part|];
    assert OccursAt(whole, part, |before| + i);
  }

  lemma OccursChars(s: string, part: string, i: nat)
    requires OccursAt(s, part, i)
    ensures i + |part| <= |s| && forall k :: 0 <= k < |part| ==> s[i + k] == part[k]
  {
    assert forall k :: 0 <= k < |part| ==> s[i..][..|part|][k] == s[i + k];
  }

  /** What lacks the separator is in the whole exactly when it is in one of the two parts. */
  lemma ContainsSplits(a: string, c: char, b: string, part: string)
    requires part != "" && c !in part
    ensures Contains(a + [c] + b, part) <==> Contains(a, part) || Contains(b, part)
  {
    var s := a + [c] + b;
    if Contains(a, part) {
      ContainsExtends("", a, [c] + b, part);
      assert "" + a + ([c] + b) == s;
    }
    if Contains(b, part) {
      ContainsExtends(a + [c], b, "", part);
      assert a + [c] + b + "" == s;
    }
    assert s[|a|] == c;
    if i :| 0 <= i <= |s| && OccursAt(s, part, i) {
      OccursChars(s, part, i);
      if i + |part| <= |a| {
        assert a[i..][..|part|] == s[i..][..|part|];
        assert OccursAt(a, part, i);
      } else if i > |a| {
        assert b[i - |a| - 1..][..|part|] == s[i..][..|part|];
        assert OccursAt(b, part, i - |a| - 1);
      }
    }
  }

  /** Two characters are folded to one exactly when they are the same, or the two cases of a Latin letter. */
  lemma CaseFolding(c: char, d: char)
    ensures LowerChar(c) == LowerChar(d) <==>
      c == d || ('A' <= c <= 'Z' && d as int == c as int + 32) || ('A' <= d <= 'Z' && c as int == d as int + 32)
    ensures UpperChar(c) == UpperChar(d) <==> LowerChar(c) == LowerChar(d)
    ensures LowerChar(LowerChar(c)) == LowerChar(c) && !('A' <= LowerChar(c) <= 'Z') && !('a' <= UpperChar(c) <= 'z')
  {
  }

  lemma LowerOfSum(a: string, b: string)
    ensures Lower(a + b) == Lower(a) + Lower(b)
  {
  }

  /** What JavaScript's `trim` and `\s` take for white space. */
  predicate IsSpace(c: char) {
    || c == ' ' || '\t' <= c <= '\r' || c == '\U{A0}' || c == '\U{1680}' || '\U{2000}' <= c <= '\U{200A}'
    || c == '\U{2028}' || c == '\U{2029}' || c == '\U{202F}' || c == '\U{205F}' || c == '\U{3000}' || c == '\U{FEFF}'
  }

  function TrimLeft(s: string): string {
    if s != "" && IsSpace(s[0]) then TrimLeft(s[1..]) else s
  }

  function TrimRight(s: string): string {
    if s != "" && IsSpace(s[|s| - 1]) then TrimRight(s[..|s| - 1]) else s
  }

  function Trim(s: string): string {
    TrimRight(TrimLeft(s))
  }

  lemma {:induction false} TrimRightOfSum(a: string, b: string)
    ensures TrimRight(a + b) == if TrimRight(b) != "" then a + TrimRight(b) else TrimRight(a)
    decreases |b|
  {
    if b == "" {
      assert a + b == a;
    } else if IsSpace(b[|b| - 1]) {
      assert (a + b)[..|a + b| - 1] == a + b[..|b| - 1];
      TrimRightOfSum(a, b[..|b| - 1]);
    }
  }

  /** It does not matter which end is trimmed first. */
  lemma {:induction false} TrimsCommute(s: string)
    ensures TrimLeft(TrimRight(s)) == TrimRight(TrimLeft(s))
  {
    if s != "" {
      var c, t := s[0], s[1..];
      assert s == [c] + t;
      TrimRightOfSum([c], t);
      assert [c][..0] == "";
      if IsSpace(c) {
        TrimsCommute(t);
        assert ([c] + TrimRight(t))[1..] == TrimRight(t);
      }
    }
  }

  lemma {:induction false} TrimLeftEmpty(s: string)
    ensures TrimLeft(s) == "" <==> forall i :: 0 <= i < |s| ==> IsSpace(s[i])
    ensures TrimLeft(s) != "" ==> !IsSpace(TrimLeft(s)[0])
    ensures exists n :: 0 <= n <= |s| && TrimLeft(s) == s[n..]
  {
    if s != "" && IsSpace(s[0]) {
      TrimLeftEmpty(s[1..]);
      assert forall i :: 0 < i < |s| ==> s[i] == s[1..][i - 1];
      var n :| 0 <= n <= |s[1..]| && TrimLeft(s[1..]) == s[1..][n..];
      assert s[1..][n..] == s[n + 1..];
    } else {
      assert s[0..] == s;
    }
  }

  lemma {:induction false} TrimRightEmpty(s: string)
    ensures TrimRight(s) == "" <==> forall i :: 0 <= i < |s| ==> IsSpace(s[i])
    ensures TrimRight(s) != "" ==> !IsSpace(TrimRight(s)[|TrimRight(s)| - 1])
    ensures exists n :: 0 <= n <= |s| && TrimRight(s) == s[..n]
  {
    if s != "" && IsSpace(s[|s| - 1]) {
      TrimRightEmpty(s[..|s| - 1]);
      var n :| 0 <= n <= |s[..|s| - 1]| && TrimRight(s[..|s| - 1]) == s[..|s| - 1][..n];
      assert s[..|s| - 1][..n] == s[..n];
    } else {
      assert s[..|s|] == s;
    }
  }

  lemma TrimIsEmpty(text: string)
    ensures Trim(text) == TrimLeft(TrimRight(text))
    ensures Trim(text) == "" <==> TrimRight(text) == ""
  {
    TrimsCommute(text);
    TrimRightEmpty(text);
    TrimLeftEmpty(TrimRight(text));
  }

  lemma TrimSkipsSpace(c: char, s: string)
    requires IsSpace(c)
    ensures Trim([c] + s) == Trim(s)
  {
    assert ([c] + s)[1..] == s;
  }

  // ---------------------------------------------------------------- lists in strings

  /** The pieces between the separators; a string without one is a single piece. */
  function Split(s: string, sep: char): (pieces: seq<string>)
    ensures pieces != []
  {
    if s == "" then [""]
    else
      var rest := Split(s[1..], sep);
      if s[0] == sep then [""] + rest else [[s[0]] + rest[0]] + rest[1..]
  }

  function Join(pieces: seq<string>, sep: string): string {
    if pieces == [] then "" else if |pieces| == 1 then pieces[0] else pieces[0] + sep + Join(pieces[1..], sep)
  }

  lemma {:induction false} SplitPiece(piece: string, rest: string, sep: char)
    requires sep !in piece
    ensures Split(piece, sep) == [piece]
    ensures Split(piece + [sep] + rest, sep) == [piece] + Split(rest, sep)
  {
    var whole := piece + [sep] + rest;
    if piece == "" {
      assert whole[1..] == rest;
    } else {
      SplitPiece(piece[1..], rest, sep);
      assert whole[1..] == piece[1..] + [sep] + rest;
      assert piece == [piece[0]] + piece[1..];
    }
  }

  lemma {:induction false} SplitHasNoSeparator(s: string, sep: char)
    ensures forall i :: 0 <= i < |Split(s, sep)| ==> sep !in Split(s, sep)[i]
  {
    if s != "" {
      SplitHasNoSeparator(s[1..], sep);
    }
  }

  /** Joining with a separator and a space and splitting again pads every piece but the first. */
  function Padded(pieces: seq<string>): seq<string> {
    seq(|pieces|, i requires 0 <= i < |pieces| => if i == 0 then pieces[0] else " " + pieces[i])
  }

  lemma SplitSpace(rest: string)
    ensures Split(" " + rest, ',') == [" " + Split(rest, ',')[0]] + Split(rest, ',')[1..]
  {
    assert (" " + rest)[1..] == rest;
  }

  lemma PaddedCons(piece: string, pieces: seq<string>)
    requires pieces != []
    ensures Padded([piece] + pieces) == [piece] + ([" " + Padded(pieces)[0]] + Padded(pieces)[1..])
  {
  }

  lemma {:induction false} SplitOfJoin(pieces: seq<string>)
    requires pieces != [] && forall i :: 0 <= i < |pieces| ==> ',' !in pieces[i]
    ensures Split(Join(pieces, ", "), ',') == Padded(pieces)
    decreases |pieces|
  {
    if |pieces| == 1 {
      SplitPiece(pieces[0], "", ',');
    } else {
      var tail := Join(pieces[1..], ", ");
      SplitOfJoin(pieces[1..]);
      assert Join(pieces, ", ") == pieces[0] + [','] + (" " + tail);
      SplitPiece(pieces[0], " " + tail, ',');
      SplitSpace(tail);
      PaddedCons(pieces[0], pieces[1..]);
      assert pieces == [pieces[0]] + pieces[1..];
    }
  }

  // ---------------------------------------------------------------- lines in markup

  /** What an HTML parser makes of line ends: carriage returns, with or without a line feed after them, become line feeds. */
  function Lines(s: string): string {
    if s == "" then ""
    else if s[0] == '\r' && |s| > 1 && s[1] == '\n' then "\n" + Lines(s[2..])
    else if s[0] == '\r' then "\n" + Lines(s[1..])
    else [s[0]] + Lines(s[1..])
  }

  lemma {:induction false} LinesHasNoReturn(s: string)
    ensures '\r' !in Lines(s)
    ensures '\r' !in s ==> Lines(s) == s
  {
    if s != "" {
      if s[0] == '\r' && |s| > 1 && s[1] == '\n' {
        LinesHasNoReturn(s[2..]);
      } else {
        LinesHasNoReturn(s[1..]);
      }
    }
  }
}
