/** The command palette: scoring a query against a label, and the list of results. */
module Palette {
  import opened Text
  import StableSort

  /** What is left of `q` after the greedy walk over `s` has crossed off what it could. */
  function Unmatched(q: string, s: string): string
    decreases |s|
  {
    if q == "" || s == "" then q
    else if s[0] == q[0] then Unmatched(q[1..], s[1..])
    else Unmatched(q, s[1..])
  }

  function Score(query: string, caption: string): int {
    var q, lower := Lower(query), Lower(caption);
    if q == "" then 100
    else if Contains(lower, q) then (if StartsWith(lower, q) then 100 else 50)
    else if Unmatched(q, lower) == "" then 30
    else 0
  }

  method FuzzyMatch(query: string, caption: string) returns (score: int)
    ensures score == Score(query, caption)
  {
    var lower, q := Lower(caption), Lower(query);
    if q == "" {
      return 100;
    }
    if Contains(lower, q) {
      return if StartsWith(lower, q) then 100 else 50;
    }
    var qi, i := 0, 0;
    while i < |lower| && qi < |q|
      invariant 0 <= i <= |lower| && 0 <= qi <= |q|
      invariant Unmatched(q, lower) == Unmatched(q[qi..], lower[i..])
    {
      assert lower[i..][1..] == lower[i + 1..] && q[qi..][1..] == q[qi + 1..];
      if lower[i] == q[qi] {
        qi := qi + 1;
      }
      i := i + 1;
    }
    assert Unmatched(q[qi..], lower[i..]) == q[qi..];
    score := if qi == |q| then 30 else 0;
  }

  // ---------------------------------------------------------------- matching

  /** `q` can be read off `s` from left to right, skipping characters of `s` at will. */
  predicate IsSubsequence(q: string, s: string)
    decreases |s|
  {
    || q == ""
    || (s != "" && q[0] == s[0] && IsSubsequence(q[1..], s[1..]))
    || (s != "" && IsSubsequence(q, s[1..]))
  }

  lemma {:induction false} SubsequenceTail(q: string, s: string)
    requires q != "" && IsSubsequence(q, s)
    ensures s != "" && IsSubsequence(q[1..], s)
    ensures q[0] == s[0] ==> IsSubsequence(q[1..], s[1..])
    decreases |s|
  {
    if IsSubsequence(q, s[1..]) {
      SubsequenceTail(q, s[1..]);
    }
  }

  /** Crossing characters off as early as possible misses nothing. */
  lemma {:induction false} GreedyIsExact(q: string, s: string)
    ensures Unmatched(q, s) == "" <==> IsSubsequence(q, s)
    decreases |s|
  {
    if q != "" && s != "" {
      if s[0] == q[0] {
        GreedyIsExact(q[1..], s[1..]);
        if IsSubsequence(q, s) {
          SubsequenceTail(q, s);
        }
      } else {
        GreedyIsExact(q, s[1..]);
      }
    }
  }

  lemma {:induction false} PrefixIsSubsequence(q: string, s: string)
    requires StartsWith(s, q)
    ensures IsSubsequence(q, s)
    decreases |s|
  {
    if q != "" {
      assert s[..|q|][1..] == s[1..][..|q| - 1];
      assert q[0] == s[..|q|][0];
      PrefixIsSubsequence(q[1..], s[1..]);
    }
  }

  lemma {:induction false} SubsequenceOfSuffix(q: string, s: string, i: nat)
    requires i <= |s| && IsSubsequence(q, s[i..])
    ensures IsSubsequence(q, s)
    decreases |s|
  {
    if i == 0 {
      assert s[0..] == s;
    } else {
      assert s[1..][i - 1..] == s[i..];
      SubsequenceOfSuffix(q, s[1..], i - 1);
    }
  }

  /**
    Without regard to case, a label is listed exactly when the query is a subsequence of it,
    scores at least 50 exactly when it contains the query, and 100 exactly when it starts with it.
   */
  lemma ScoresExactlySubsequences(query: string, caption: string)
    ensures Score(query, caption) > 0 <==> IsSubsequence(Lower(query), Lower(caption))
    ensures Score(query, caption) == 100 <==> StartsWith(Lower(caption), Lower(query))
    ensures Score(query, caption) >= 50 <==> Contains(Lower(caption), Lower(query))
    ensures Score(query, caption) in {0, 30, 50, 100}
  {
    var q, s := Lower(query), Lower(caption);
    GreedyIsExact(q, s);
    assert s[0..] == s;
    assert StartsWith(s, q) ==> OccursAt(s, q, 0);
    if q != "" && Contains(s, q) {
      var i :| 0 <= i <= |s| && OccursAt(s, q, i);
      PrefixIsSubsequence(q, s[i..]);
      SubsequenceOfSuffix(q, s, i);
    }
  }

  lemma {:induction false} SubsequencePrefix(q: string, s: string, n: nat)
    requires n <= |q| && IsSubsequence(q, s)
    ensures IsSubsequence(q[..n], s)
    decreases |s|
  {
    if n > 0 {
      if q[0] == s[0] && IsSubsequence(q[1..], s[1..]) {
        SubsequencePrefix(q[1..], s[1..], n - 1);
        assert q[..n][1..] == q[1..][..n - 1];
      } else {
        SubsequencePrefix(q, s[1..], n);
      }
    }
  }

  /** While a query is typed, a label once gone does not come back. */
  lemma TypingOnlyNarrows(query: string, n: nat, caption: string)
    requires n <= |query| && Score(query, caption) > 0
    ensures Score(query[..n], caption) > 0
  {
    ScoresExactlySubsequences(query, caption);
    ScoresExactlySubsequences(query[..n], caption);
    assert Lower(query[..n]) == Lower(query)[..n];
    SubsequencePrefix(Lower(query), Lower(caption), n);
  }

  // ---------------------------------------------------------------- results

  datatype Command = Command(caption: string, category: string, action: nat)
  datatype Scored = Scored(command: Command, score: int)

  function Matching(commands: seq<Command>, query: string): seq<Scored> {
    if commands == [] then []
    else
      var s := Score(query, commands[0].caption);
      (if s > 0 then [Scored(commands[0], s)] else []) + Matching(commands[1..], query)
  }

  function ScoreOf(): Scored -> int {
    (s: Scored) => s.score
  }

  function Results(commands: seq<Command>, input: string): seq<Scored> {
    StableSort.SortDescending(Matching(commands, Trim(input)), ScoreOf())
  }

  lemma {:induction false} MatchingIsExact(commands: seq<Command>, query: string, x: Scored)
    ensures x in Matching(commands, query) <==>
            x.command in commands && x.score == Score(query, x.command.caption)
            && IsSubsequence(Lower(query), Lower(x.command.caption))
  {
    if commands != [] {
      MatchingIsExact(commands[1..], query, x);
      ScoresExactlySubsequences(query, x.command.caption);
      assert commands == [commands[0]] + commands[1..];
    }
  }

  /** The results are the matching commands with their scores, best first, and otherwise in command order. */
  lemma ResultsAreRankedMatches(commands: seq<Command>, input: string)
    ensures var found, results := Matching(commands, Trim(input)), Results(commands, input);
      && multiset(results) == multiset(found)
      && StableSort.Descending(results, ScoreOf())
      && StableSort.StableRearrangement(found, results, ScoreOf())
      && forall x :: x in results <==>
           x.command in commands && x.score == Score(Trim(input), x.command.caption)
           && IsSubsequence(Lower(Trim(input)), Lower(x.command.caption))
  {
    var found, results := Matching(commands, Trim(input)), Results(commands, input);
    StableSort.SortIsStable(found, ScoreOf());
    forall x
      ensures x in results <==>
        x.command in commands && x.score == Score(Trim(input), x.command.caption)
        && IsSubsequence(Lower(Trim(input)), Lower(x.command.caption))
    {
      MatchingIsExact(commands, Trim(input), x);
      assert x in results <==> x in multiset(results);
      assert x in found <==> x in multiset(found);
    }
  }
}
