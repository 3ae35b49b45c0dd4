/**
  The file explorer: the rows of the expanded tree, with or without a filter, and the git
  status a directory takes over from the files below it.
 */
module Explorer {
  import opened Text

  /** A file or directory; `children` is what the server lists below the path, hidden names removed. */
  datatype Entry = Entry(name: string, path: string, isDir: bool, children: seq<Entry>)

  /** A rendered line of the tree. */
  datatype Row = Row(entry: Entry, depth: nat, git: string, expanded: bool)

  /** The expanded paths, and the changed paths with their status in map order, at one moment. */
  datatype Snapshot = Snapshot(expanded: set<string>, statuses: seq<(string, string)>)

  /**
    The state in which the builder finds each path.  Building a tree waits for listings, and
    meanwhile directories are toggled and statuses are refreshed, so it may be another for each.
   */
  datatype Context = Context(at: string -> Snapshot)

  // ---------------------------------------------------------------- git status

  function Priority(status: string): nat {
    if status == "D" then 4 else if status == "A" then 3 else if status == "M" then 2 else if status == "R" then 1 else 0
  }

  predicate IsBelow(path: string, dir: string) {
    StartsWith(path, dir + "/")
  }

  /** The most severe status below `dir`, going through the map from its first entry to its last. */
  function Rollup(statuses: seq<(string, string)>, dir: string): string {
    if statuses == [] then ""
    else
      var best, last := Rollup(statuses[..|statuses| - 1], dir), statuses[|statuses| - 1];
      if IsBelow(last.0, dir) && Priority(last.1) > Priority(best) then last.1 else best
  }

  /** No status below `dir` is more severe than `best`, and `best` is one of them or none counts. */
  predicate MostSevereBelow(statuses: seq<(string, string)>, dir: string, best: string) {
    && (forall s :: s in statuses && IsBelow(s.0, dir) ==> Priority(s.1) <= Priority(best))
    && (best == "" || (Priority(best) > 0 && exists s :: s in statuses && IsBelow(s.0, dir) && s.1 == best))
  }

  lemma {:induction false} RollupIsMostSevere(statuses: seq<(string, string)>, dir: string)
    ensures MostSevereBelow(statuses, dir, Rollup(statuses, dir))
  {
    if statuses != [] {
      var rest, last := statuses[..|statuses| - 1], statuses[|statuses| - 1];
      RollupIsMostSevere(rest, dir);
      assert forall s :: s in statuses <==> s in rest || s == last;
      var best := Rollup(rest, dir);
      if Rollup(statuses, dir) == best && best != "" {
        var s :| s in rest && IsBelow(s.0, dir) && s.1 == best;
        assert s in statuses;
      }
    }
  }

  /** Only one status can be the most severe one, so the order of the map does not matter. */
  lemma MostSevereIsUnique(a: seq<(string, string)>, b: seq<(string, string)>, dir: string, s: string, t: string)
    requires forall x :: x in a <==> x in b
    requires MostSevereBelow(a, dir, s) && MostSevereBelow(b, dir, t)
    ensures s == t
  {
    assert Priority(s) <= Priority(t) && Priority(t) <= Priority(s);
  }

  lemma RollupIgnoresOrder(a: seq<(string, string)>, b: seq<(string, string)>, dir: string)
    requires forall x :: x in a <==> x in b
    ensures Rollup(a, dir) == Rollup(b, dir)
  {
    RollupIsMostSevere(a, dir);
    RollupIsMostSevere(b, dir);
    MostSevereIsUnique(a, b, dir, Rollup(a, dir), Rollup(b, dir));
  }

  /** A directory is never shown as less severe than a directory inside it. */
  lemma RollupGrowsTowardsRoot(statuses: seq<(string, string)>, parent: string, inner: string)
    ensures Priority(Rollup(statuses, parent + "/" + inner)) <= Priority(Rollup(statuses, parent))
  {
    var dir := parent + "/" + inner;
    RollupIsMostSevere(statuses, dir);
    RollupIsMostSevere(statuses, parent);
    if Rollup(statuses, dir) != "" {
      var s :| s in statuses && IsBelow(s.0, dir) && s.1 == Rollup(statuses, dir);
      assert s.0[..|parent + "/"|] == s.0[..|dir + "/"|][..|parent + "/"|] == parent + "/";
    }
  }

  lemma {:induction false} MaximumIsFinal(statuses: seq<(string, string)>, dir: string, i: nat)
    requires i <= |statuses| && Priority(Rollup(statuses[..i], dir)) >= 4
    ensures Rollup(statuses, dir) == Rollup(statuses[..i], dir)
    decreases |statuses|
  {
    if i < |statuses| {
      var rest := statuses[..|statuses| - 1];
      assert rest[..i] == statuses[..i];
      MaximumIsFinal(rest, dir, i);
    } else {
      assert statuses[..i] == statuses;
    }
  }

  /** The loop over the status map, which stops at the first deletion it meets. */
  method DirHasGitStatus(statuses: seq<(string, string)>, dir: string) returns (best: string)
    ensures best == Rollup(statuses, dir)
    ensures MostSevereBelow(statuses, dir, best)
  {
    RollupIsMostSevere(statuses, dir);
    var bestP := 0;
    best := "";
    for i := 0 to |statuses|
      invariant best == Rollup(statuses[..i], dir) && bestP == Priority(best)
    {
      var (p, st) := statuses[i];
      assert statuses[..i + 1][..i] == statuses[..i];
      if StartsWith(p, dir + "/") {
        var prio := Priority(st);
        if prio > bestP {
          best, bestP := st, prio;
        }
        if bestP >= 4 {
          MaximumIsFinal(statuses, dir, i + 1);
          return;
        }
      }
    }
    assert statuses[..|statuses|] == statuses;
  }

  function StatusOf(statuses: seq<(string, string)>, path: string): string {
    if statuses == [] then ""
    else if statuses[0].0 == path then statuses[0].1 else StatusOf(statuses[1..], path)
  }

  function GitStatus(statuses: seq<(string, string)>, path: string): string {
    var own := StatusOf(statuses, path);
    if own != "" then own else Rollup(statuses, path)
  }

  /** Some path inside the directory has the status. */
  predicate HasInside(statuses: seq<(string, string)>, dir: string, st: string) {
    exists k :: 0 <= k < |statuses| && IsInside(statuses[k].0, dir) && statuses[k].1 == st
  }

  predicate IsInside(path: string, dir: string) {
    |path| > |dir| && path[..|dir|] == dir && path[|dir|] == '/'
  }

  lemma InsideIsBelow(path: string, dir: string)
    ensures IsInside(path, dir) <==> IsBelow(path, dir)
    ensures IsInside(path, dir) ==> path == dir + "/" + path[|dir| + 1..]
  {
    var d := dir + "/";
    if |d| <= |path| {
      assert path[..|d|] == path[..|dir|] + [path[|dir|]];
      assert d[|dir|] == '/' && d[..|dir|] == dir;
    }
  }

  lemma HasInsideHas(statuses: seq<(string, string)>, dir: string, st: string)
    ensures HasInside(statuses, dir, st) <==> exists s :: s in statuses && IsBelow(s.0, dir) && s.1 == st
  {
    if HasInside(statuses, dir, st) {
      var k :| 0 <= k < |statuses| && IsInside(statuses[k].0, dir) && statuses[k].1 == st;
      InsideIsBelow(statuses[k].0, dir);
      assert statuses[k] in statuses;
    }
    if s :| s in statuses && IsBelow(s.0, dir) && s.1 == st {
      var k :| 0 <= k < |statuses| && statuses[k] == s;
      InsideIsBelow(s.0, dir);
    }
  }

  /** A deletion inside a directory outdoes an addition, an addition a modification, and that a renaming. */
  lemma RollupOrder(statuses: seq<(string, string)>, dir: string)
    ensures Rollup(statuses, dir) ==
      if HasInside(statuses, dir, "D") then "D"
      else if HasInside(statuses, dir, "A") then "A"
      else if HasInside(statuses, dir, "M") then "M"
      else if HasInside(statuses, dir, "R") then "R"
      else ""
  {
    RollupIsMostSevere(statuses, dir);
    HasInsideHas(statuses, dir, "D");
    HasInsideHas(statuses, dir, "A");
    HasInsideHas(statuses, dir, "M");
    HasInsideHas(statuses, dir, "R");
  }

  /** A path of the map has its own status; any other one is judged by what lies inside it. */
  lemma OwnStatusFirst(statuses: seq<(string, string)>, k: nat, path: string)
    requires k < |statuses| ==> statuses[k].0 == path && statuses[k].1 != ""
    requires forall j :: 0 <= j < |statuses| && j != k ==> statuses[j].0 != path
    ensures GitStatus(statuses, path) == if k < |statuses| then statuses[k].1 else Rollup(statuses, path)
  {
    StatusIsFound(statuses, k, path);
  }

  lemma {:induction false} StatusIsFound(statuses: seq<(string, string)>, k: nat, path: string)
    requires k < |statuses| ==> statuses[k].0 == path
    requires forall j :: 0 <= j < |statuses| && j != k ==> statuses[j].0 != path
    ensures StatusOf(statuses, path) == if k < |statuses| then statuses[k].1 else ""
    decreases |statuses|
  {
    if statuses != [] && k > 0 {
      StatusIsFound(statuses[1..], k - 1, path);
    }
  }

  // ---------------------------------------------------------------- rows

  predicate Matches(e: Entry, filter: string) {
    Contains(Lower(e.name), filter) || Contains(Lower(e.path), filter)
  }

  predicate IsOpen(c: Context, e: Entry) {
    e.isDir && e.path in c.at(e.path).expanded
  }

  function RowOf(c: Context, e: Entry, depth: nat): Row {
    Row(e, depth, GitStatus(c.at(e.path).statuses, e.path), IsOpen(c, e))
  }

  /** An empty filter hides nothing. */
  function EntryRows(c: Context, e: Entry, depth: nat, filter: string): seq<Row>
    decreases e, 1
  {
    Assemble(RowOf(c, e, depth), filter == "" || Matches(e, filter), Below(c, e, depth, filter))
  }

  /** A row that is no hit itself is shown only above rows that are shown. */
  function Assemble(row: Row, hit: bool, below: seq<Row>): seq<Row> {
    if !hit && below == [] then [] else [row] + below
  }

  function Below(c: Context, e: Entry, depth: nat, filter: string): seq<Row>
    decreases e, 0
  {
    if IsOpen(c, e) then Rows(c, e.children, depth + 1, filter) else []
  }

  function Rows(c: Context, entries: seq<Entry>, depth: nat, filter: string): seq<Row>
    decreases entries, 0
  {
    if entries == [] then [] else EntryRows(c, entries[0], depth, filter) + Rows(c, entries[1..], depth, filter)
  }

  lemma RowsSplit(c: Context, a: seq<Entry>, b: seq<Entry>, depth: nat, filter: string)
    ensures Rows(c, a + b, depth, filter) == Rows(c, a, depth, filter) + Rows(c, b, depth, filter)
  {
    if a == [] {
      assert a + b == b;
    } else {
      assert (a + b)[1..] == a[1..] + b;
      RowsSplit(c, a[1..], b, depth, filter);
    }
  }

  method GitStatusOf(statuses: seq<(string, string)>, path: string) returns (gitSt: string)
    ensures gitSt == GitStatus(statuses, path)
  {
    gitSt := StatusOf(statuses, path);
    if gitSt == "" {
      gitSt := DirHasGitStatus(statuses, path);
    }
  }

  // ---------------------------------------------------------------- building while the state changes

  function EntryPaths(e: Entry): set<string>
    decreases e, 1
  {
    {e.path} + PathsOf(e.children)
  }

  function PathsOf(entries: seq<Entry>): set<string>
    decreases entries, 0
  {
    if entries == [] then {} else EntryPaths(entries[0]) + PathsOf(entries[1..])
  }

  /** No path comes up twice in the tree. */
  predicate DistinctEntry(e: Entry)
    decreases e, 1
  {
    e.path !in PathsOf(e.children) && DistinctPaths(e.children)
  }

  predicate DistinctPaths(entries: seq<Entry>)
    decreases entries, 0
  {
    entries == [] ||
    (DistinctEntry(entries[0]) && EntryPaths(entries[0]) !! PathsOf(entries[1..]) && DistinctPaths(entries[1..]))
  }

  lemma {:induction false} PathsSplit(a: seq<Entry>, b: seq<Entry>)
    ensures PathsOf(a + b) == PathsOf(a) + PathsOf(b)
    ensures DistinctPaths(a + b) ==> DistinctPaths(a) && DistinctPaths(b) && PathsOf(a) !! PathsOf(b)
    decreases |a|
  {
    if a == [] {
      assert a + b == b;
    } else {
      assert (a + b)[1..] == a[1..] + b;
      PathsSplit(a[1..], b);
    }
  }

  /** The context shows the paths that were looked at as they were found. */
  ghost predicate Follows(c: Context, looks: map<string, Snapshot>) {
    forall path :: path in looks ==> c.at(path) == looks[path]
  }

  /** What was looked at, with any state for the paths that were not. */
  function ContextOf(looks: map<string, Snapshot>, other: Snapshot): (c: Context)
    ensures Follows(c, looks)
  {
    Context(path => if path in looks then looks[path] else other)
  }

  /** Every look was taken at a moment of the build. */
  ghost predicate TakenBetween(looks: map<string, Snapshot>, moments: nat -> Snapshot, now: nat, later: nat) {
    forall path :: path in looks ==> exists t: nat :: now <= t <= later && looks[path] == moments(t)
  }

  /** The rows are those of every context that follows the looks, and only own paths were looked at. */
  ghost predicate EntryExplained(looks: map<string, Snapshot>, e: Entry, depth: nat, filter: string, html: seq<Row>) {
    looks.Keys <= EntryPaths(e) && forall c :: Follows(c, looks) ==> html == EntryRows(c, e, depth, filter)
  }

  ghost predicate Explained(looks: map<string, Snapshot>, entries: seq<Entry>, depth: nat, filter: string, html: seq<Row>) {
    looks.Keys <= PathsOf(entries) && forall c :: Follows(c, looks) ==> html == Rows(c, entries, depth, filter)
  }

  lemma FollowsBoth(c: Context, looks: map<string, Snapshot>, more: map<string, Snapshot>)
    requires Follows(c, looks + more) && looks.Keys !! more.Keys
    ensures Follows(c, looks) && Follows(c, more)
  {
    forall path | path in looks
      ensures c.at(path) == looks[path]
    {
      assert path in looks + more;
    }
    forall path | path in more
      ensures c.at(path) == more[path]
    {
      assert path in looks + more;
    }
  }

  lemma RowsSnoc(c: Context, entries: seq<Entry>, e: Entry, depth: nat, filter: string)
    ensures Rows(c, entries + [e], depth, filter) == Rows(c, entries, depth, filter) + EntryRows(c, e, depth, filter)
  {
    RowsSplit(c, entries, [e], depth, filter);
    assert Rows(c, [e], depth, filter) == EntryRows(c, e, depth, filter) + [];
  }

  lemma PathsSnoc(entries: seq<Entry>, e: Entry)
    ensures PathsOf(entries + [e]) == PathsOf(entries) + EntryPaths(e)
  {
    PathsSplit(entries, [e]);
    assert PathsOf([e]) == EntryPaths(e) + {};
  }

  /** Rows that were built one after the other are explained by all the looks together. */
  lemma ExplainedJoins(looks: map<string, Snapshot>, entries: seq<Entry>, html: seq<Row>,
                       more: map<string, Snapshot>, e: Entry, added: seq<Row>, depth: nat, filter: string)
    requires Explained(looks, entries, depth, filter, html) && EntryExplained(more, e, depth, filter, added)
    requires PathsOf(entries) !! EntryPaths(e)
    ensures Explained(looks + more, entries + [e], depth, filter, html + added)
  {
    PathsSnoc(entries, e);
    forall c | Follows(c, looks + more)
      ensures html + added == Rows(c, entries + [e], depth, filter)
    {
      FollowsBoth(c, looks, more);
      RowsSnoc(c, entries, e, depth, filter);
    }
  }

  lemma ClosedIsExplained(look: Snapshot, e: Entry, depth: nat, filter: string)
    requires !(e.isDir && e.path in look.expanded)
    ensures EntryExplained(map[e.path := look], e, depth, filter,
      Assemble(Row(e, depth, GitStatus(look.statuses, e.path), false), filter == "" || Matches(e, filter), []))
  {
    forall c | Follows(c, map[e.path := look])
      ensures c.at(e.path) == look
    {
      assert e.path in map[e.path := look];
    }
  }

  lemma OpenIsExplained(look: Snapshot, below: map<string, Snapshot>, e: Entry, depth: nat, filter: string, rows: seq<Row>)
    requires e.isDir && e.path in look.expanded && e.path !in PathsOf(e.children)
    requires Explained(below, e.children, depth + 1, filter, rows)
    ensures EntryExplained(below + map[e.path := look], e, depth, filter,
      Assemble(Row(e, depth, GitStatus(look.statuses, e.path), true), filter == "" || Matches(e, filter), rows))
  {
    var own := map[e.path := look];
    forall c | Follows(c, below + own)
      ensures Follows(c, below) && c.at(e.path) == look
    {
      FollowsBoth(c, below, own);
      assert e.path in own;
    }
  }

  /**
    The body of the builder's loop: what one entry adds to the tree.  `moments` lists the states
    the builder finds after each of its waits; an entry is looked at once, before any wait.
   */
  method BuildEntry(moments: nat -> Snapshot, now: nat, entry: Entry, depth: nat, filter: string)
    returns (html: seq<Row>, later: nat, ghost looks: map<string, Snapshot>)
    ensures now <= later && TakenBetween(looks, moments, now, later)
    ensures DistinctEntry(entry) ==> EntryExplained(looks, entry, depth, filter, html)
    decreases entry, 1
  {
    var look := moments(now);
    later := now;
    looks := map[entry.path := look];
    var gitSt := GitStatusOf(look.statuses, entry.path);
    var isOpen := entry.isDir && entry.path in look.expanded;
    var hit := filter == "" || Matches(entry, filter);
    if !isOpen {
      ClosedIsExplained(look, entry, depth, filter);
      html := if hit then [Row(entry, depth, gitSt, false)] else [];
      return;
    }
    var children;
    ghost var below;
    children, later, below := BuildTree(moments, now + 1, entry.children, depth + 1, filter);
    later := later + 1;
    looks := below + map[entry.path := look];
    if DistinctEntry(entry) {
      OpenIsExplained(look, below, entry, depth, filter, children);
    }
    html := if hit || children != [] then [Row(entry, depth, gitSt, true)] + children else [];
  }

  /** The recursive builder with its accumulating loop. */
  method BuildTree(moments: nat -> Snapshot, now: nat, entries: seq<Entry>, depth: nat, filter: string)
    returns (html: seq<Row>, later: nat, ghost looks: map<string, Snapshot>)
    ensures now <= later && TakenBetween(looks, moments, now, later)
    ensures DistinctPaths(entries) ==> Explained(looks, entries, depth, filter, html)
    ensures DistinctPaths(entries) ==> html == Rows(ContextOf(looks, moments(now)), entries, depth, filter)
    decreases entries, 0
  {
    html, later, looks := [], now, map[];
    for i := 0 to |entries|
      invariant now <= later && TakenBetween(looks, moments, now, later)
      invariant DistinctPaths(entries) ==> Explained(looks, entries[..i], depth, filter, html)
    {
      var added, after;
      ghost var more;
      added, after, more := BuildEntry(moments, later, entries[i], depth, filter);
      if DistinctPaths(entries) {
        PrefixIsDistinct(entries, i);
        ExplainedJoins(looks, entries[..i], html, more, entries[i], added, depth, filter);
      }
      TakenJoins(looks, more, moments, now, later, after);
      html, later, looks := html + added, after, looks + more;
      assert entries[..i + 1] == entries[..i] + [entries[i]];
    }
    assert entries[..|entries|] == entries;
  }

  lemma PrefixIsDistinct(entries: seq<Entry>, i: nat)
    requires i < |entries| && DistinctPaths(entries)
    ensures PathsOf(entries[..i]) !! EntryPaths(entries[i]) && DistinctEntry(entries[i])
  {
    assert entries == entries[..i] + entries[i..];
    PathsSplit(entries[..i], entries[i..]);
  }

  lemma TakenJoins(looks: map<string, Snapshot>, more: map<string, Snapshot>, moments: nat -> Snapshot,
                   now: nat, between: nat, later: nat)
    requires now <= between <= later
    requires TakenBetween(looks, moments, now, between) && TakenBetween(more, moments, between, later)
    ensures TakenBetween(looks + more, moments, now, later)
  {
  }

  // ---------------------------------------------------------------- what the filter keeps

  /** Row `j` is row `i` itself or lies in the block of deeper rows that follows it. */
  predicate InSubtree(rows: seq<Row>, i: nat, j: nat)
    requires i < |rows|
  {
    i <= j < |rows| && forall k :: i < k <= j ==> rows[k].depth > rows[i].depth
  }

  predicate SubtreeMatches(rows: seq<Row>, i: nat, filter: string)
    requires i < |rows|
  {
    exists j :: i <= j < |rows| && InSubtree(rows, i, j) && Matches(rows[j].entry, filter)
  }

  /** The rows whose visible subtree contains a match, in order. */
  function Kept(rows: seq<Row>, filter: string): seq<Row> {
    if rows == [] then []
    else (if SubtreeMatches(rows, 0, filter) then [rows[0]] else []) + Kept(rows[1..], filter)
  }

  predicate NoShallowerThan(rows: seq<Row>, depth: nat) {
    forall i :: 0 <= i < |rows| ==> rows[i].depth >= depth
  }

  lemma SubtreeStopsAt(a: seq<Row>, b: seq<Row>, filter: string)
    requires a != [] && (b != [] ==> b[0].depth <= a[0].depth)
    ensures SubtreeMatches(a + b, 0, filter) <==> SubtreeMatches(a, 0, filter)
  {
    var ab := a + b;
    if SubtreeMatches(ab, 0, filter) {
      var j :| 0 <= j < |ab| && InSubtree(ab, 0, j) && Matches(ab[j].entry, filter);
      assert b != [] ==> ab[|a|] == b[0];
      assert forall k :: 0 <= k <= j ==> a[k] == ab[k];
      assert InSubtree(a, 0, j);
    }
    if SubtreeMatches(a, 0, filter) {
      var j :| 0 <= j < |a| && InSubtree(a, 0, j) && Matches(a[j].entry, filter);
      assert InSubtree(ab, 0, j) && ab[j] == a[j];
    }
  }

  lemma {:induction false} KeptSplits(a: seq<Row>, b: seq<Row>, depth: nat, filter: string)
    requires NoShallowerThan(a, depth) && (b != [] ==> b[0].depth == depth)
    ensures Kept(a + b, filter) == Kept(a, filter) + Kept(b, filter)
    decreases |a|
  {
    if a == [] {
      assert a + b == b;
    } else {
      assert (a + b)[1..] == a[1..] + b;
      KeptSplits(a[1..], b, depth, filter);
      SubtreeStopsAt(a, b, filter);
    }
  }

  lemma {:induction false} KeptIsEmpty(rows: seq<Row>, filter: string)
    ensures Kept(rows, filter) == [] <==> forall i :: 0 <= i < |rows| ==> !Matches(rows[i].entry, filter)
  {
    if rows != [] {
      KeptIsEmpty(rows[1..], filter);
      assert forall i :: 0 < i < |rows| ==> rows[i] == rows[1..][i - 1];
      if Matches(rows[0].entry, filter) {
        assert InSubtree(rows, 0, 0);
      }
    }
  }

  lemma {:induction false} RowDepths(c: Context, entries: seq<Entry>, depth: nat)
    ensures NoShallowerThan(Rows(c, entries, depth, ""), depth)
    ensures entries != [] ==> Rows(c, entries, depth, "") != [] && Rows(c, entries, depth, "")[0].depth == depth
    decreases entries
  {
    if entries != [] {
      RowDepths(c, entries[0].children, depth + 1);
      RowDepths(c, entries[1..], depth);
      assert EntryRows(c, entries[0], depth, "") == [RowOf(c, entries[0], depth)] + Below(c, entries[0], depth, "");
    }
  }

  /** The subtree of a row above only deeper rows is that row and all of them. */
  lemma SubtreeOfTop(row: Row, below: seq<Row>, filter: string)
    requires NoShallowerThan(below, row.depth + 1)
    ensures SubtreeMatches([row] + below, 0, filter) <==>
            Matches(row.entry, filter) || exists i :: 0 <= i < |below| && Matches(below[i].entry, filter)
  {
    var rows := [row] + below;
    assert forall k :: 0 < k < |rows| ==> rows[k] == below[k - 1];
    forall j | 0 <= j < |rows|
      ensures InSubtree(rows, 0, j)
    {
    }
    if i :| 0 <= i < |below| && Matches(below[i].entry, filter) {
      assert InSubtree(rows, 0, i + 1) && rows[i + 1] == below[i];
    }
    if Matches(row.entry, filter) {
      assert InSubtree(rows, 0, 0);
    }
  }

  lemma KeptTop(row: Row, below: seq<Row>, filter: string)
    requires NoShallowerThan(below, row.depth + 1)
    ensures Kept([row] + below, filter) == Assemble(row, Matches(row.entry, filter), Kept(below, filter))
  {
    SubtreeOfTop(row, below, filter);
    KeptIsEmpty(below, filter);
    assert ([row] + below)[1..] == below;
    assert [] + Kept(below, filter) == Kept(below, filter);
  }

  lemma {:induction false} FilteredBelow(c: Context, e: Entry, depth: nat, filter: string)
    requires filter != ""
    ensures Below(c, e, depth, filter) == Kept(Below(c, e, depth, ""), filter)
    ensures NoShallowerThan(Below(c, e, depth, ""), depth + 1)
    decreases e, 0
  {
    if IsOpen(c, e) {
      FilteredRowsAreKeptRows(c, e.children, depth + 1, filter);
      RowDepths(c, e.children, depth + 1);
    }
  }

  lemma {:induction false} FilteredEntry(c: Context, e: Entry, depth: nat, filter: string)
    requires filter != ""
    ensures EntryRows(c, e, depth, filter) == Kept(EntryRows(c, e, depth, ""), filter)
    decreases e, 1
  {
    FilteredBelow(c, e, depth, filter);
    KeptTop(RowOf(c, e, depth), Below(c, e, depth, ""), filter);
  }

  /**
    For every tree, expansion and filter, the filtered rows are exactly the rows of the
    unfiltered tree whose visible subtree contains a match.
   */
  lemma {:induction false} FilteredRowsAreKeptRows(c: Context, entries: seq<Entry>, depth: nat, filter: string)
    requires filter != ""
    ensures Rows(c, entries, depth, filter) == Kept(Rows(c, entries, depth, ""), filter)
    decreases entries, 0
  {
    if entries != [] {
      FilteredEntry(c, entries[0], depth, filter);
      FilteredRowsAreKeptRows(c, entries[1..], depth, filter);
      RowDepths(c, entries, depth);
      RowDepths(c, entries[1..], depth);
      RowDepths(c, [entries[0]], depth);
      var first := EntryRows(c, entries[0], depth, "");
      assert Rows(c, [entries[0]], depth, "") == first + Rows(c, [], depth, "") == first;
      KeptSplits(first, Rows(c, entries[1..], depth, ""), depth, filter);
    }
  }

  // ---------------------------------------------------------------- parents

  /** Row `i` is the open directory that lists row `j`, with only its own descendants between them. */
  predicate IsParentRow(rows: seq<Row>, i: nat, j: nat)
    requires j < |rows|
  {
    && i < j
    && rows[j].depth == rows[i].depth + 1
    && rows[i].expanded
    && rows[j].entry in rows[i].entry.children
    && forall k :: i < k <= j ==> rows[k].depth > rows[i].depth
  }

  predicate HasParent(rows: seq<Row>, j: nat)
    requires j < |rows|
  {
    exists i :: 0 <= i < j && IsParentRow(rows, i, j)
  }

  predicate Nested(rows: seq<Row>, depth: nat) {
    && NoShallowerThan(rows, depth)
    && forall j {:trigger HasParent(rows, j)} :: 0 <= j < |rows| && rows[j].depth > depth ==> HasParent(rows, j)
  }

  lemma HasParentBefore(rows: seq<Row>, more: seq<Row>, j: nat)
    requires j < |rows| && HasParent(rows, j)
    ensures HasParent(rows + more, j)
  {
    var i :| 0 <= i < j && IsParentRow(rows, i, j);
    var all := rows + more;
    assert all[i] == rows[i] && all[j] == rows[j];
    forall k | i < k <= j
      ensures all[k].depth > all[i].depth
    {
      assert all[k] == rows[k];
    }
    assert IsParentRow(all, i, j);
  }

  lemma HasParentAfter(pre: seq<Row>, rows: seq<Row>, j: nat)
    requires j < |rows| && HasParent(rows, j)
    ensures HasParent(pre + rows, |pre| + j)
  {
    var i :| 0 <= i < j && IsParentRow(rows, i, j);
    var all, n := pre + rows, |pre|;
    assert all[n + i] == rows[i] && all[n + j] == rows[j];
    forall k | n + i < k <= n + j
      ensures all[k].depth > all[n + i].depth
    {
      assert all[k] == rows[k - n];
    }
    assert IsParentRow(all, n + i, n + j);
  }

  lemma NestedJoins(a: seq<Row>, b: seq<Row>, depth: nat)
    requires Nested(a, depth) && Nested(b, depth)
    ensures Nested(a + b, depth)
  {
    forall j | 0 <= j < |a + b| && (a + b)[j].depth > depth
      ensures HasParent(a + b, j)
    {
      if j < |a| {
        HasParentBefore(a, b, j);
      } else {
        HasParentAfter(a, b, j - |a|);
      }
    }
  }

  /** The open directory `row` above the rows of its children. */
  predicate Heads(row: Row, below: seq<Row>) {
    && (row.expanded || below == [])
    && forall j :: 0 <= j < |below| && below[j].depth == row.depth + 1 ==> below[j].entry in row.entry.children
  }

  lemma HeadIsParent(row: Row, below: seq<Row>, j: nat)
    requires NoShallowerThan(below, row.depth + 1) && Heads(row, below)
    requires j < |below| && below[j].depth == row.depth + 1
    ensures HasParent([row] + below, j + 1)
  {
    var rows := [row] + below;
    assert rows[j + 1] == below[j];
    forall k | 0 < k <= j + 1
      ensures rows[k].depth > rows[0].depth
    {
      assert rows[k] == below[k - 1];
    }
    assert IsParentRow(rows, 0, j + 1);
  }

  lemma NestedUnder(row: Row, below: seq<Row>)
    requires Nested(below, row.depth + 1) && Heads(row, below)
    ensures Nested([row] + below, row.depth)
  {
    var rows := [row] + below;
    forall j | 0 <= j < |rows| && rows[j].depth > row.depth
      ensures HasParent(rows, j)
    {
      if below[j - 1].depth == row.depth + 1 {
        HeadIsParent(row, below, j - 1);
      } else {
        HasParentAfter([row], below, j - 1);
      }
    }
  }

  lemma {:induction false} EntryRowsNest(c: Context, e: Entry, depth: nat, filter: string)
    ensures Nested(EntryRows(c, e, depth, filter), depth)
    ensures forall j :: 0 <= j < |EntryRows(c, e, depth, filter)| && EntryRows(c, e, depth, filter)[j].depth == depth ==>
      EntryRows(c, e, depth, filter)[j].entry == e
    decreases e, 1
  {
    if IsOpen(c, e) {
      RowsNest(c, e.children, depth + 1, filter);
      NestedUnder(RowOf(c, e, depth), Rows(c, e.children, depth + 1, filter));
    } else {
      NestedUnder(RowOf(c, e, depth), []);
    }
  }

  /** Filtered or not, every row below the top level follows the row of its own directory. */
  lemma {:induction false} RowsNest(c: Context, entries: seq<Entry>, depth: nat, filter: string)
    ensures Nested(Rows(c, entries, depth, filter), depth)
    ensures forall j :: 0 <= j < |Rows(c, entries, depth, filter)| && Rows(c, entries, depth, filter)[j].depth == depth ==>
      Rows(c, entries, depth, filter)[j].entry in entries
    decreases entries, 0
  {
    if entries != [] {
      EntryRowsNest(c, entries[0], depth, filter);
      RowsNest(c, entries[1..], depth, filter);
      NestedJoins(EntryRows(c, entries[0], depth, filter), Rows(c, entries[1..], depth, filter), depth);
    }
  }

  // ---------------------------------------------------------------- what a row tells, and that none is missing

  /** `part` is somewhere in the text, without regard to case. */
  predicate IsPartOf(part: string, text: string) {
    exists i :: 0 <= i && i + |part| <= |text| && SameFolded(part, text, i)
  }

  predicate SameFolded(part: string, text: string, i: nat)
    requires i + |part| <= |text|
  {
    forall k :: 0 <= k < |part| ==> part[k] == LowerChar(text[i + k])
  }

  lemma PartIsContained(part: string, text: string)
    ensures IsPartOf(part, text) <==> Contains(Lower(text), part)
  {
    var s := Lower(text);
    if IsPartOf(part, text) {
      var i :| 0 <= i && i + |part| <= |text| && SameFolded(part, text, i);
      assert s[i..][..|part|] == part;
      assert OccursAt(s, part, i);
    }
    if i :| 0 <= i <= |s| && OccursAt(s, part, i) {
      assert forall k :: 0 <= k < |part| ==> part[k] == s[i..][..|part|][k] == s[i + k];
      assert SameFolded(part, text, i);
    }
  }

  /** The filter is looked for in the name and in the path. */
  lemma MatchesExactlyWhen(e: Entry, filter: string)
    ensures Matches(e, filter) <==> IsPartOf(filter, e.name) || IsPartOf(filter, e.path)
  {
    PartIsContained(filter, e.name);
    PartIsContained(filter, e.path);
  }

  predicate RowTells(c: Context, row: Row) {
    && (row.expanded <==> row.entry.isDir && row.entry.path in c.at(row.entry.path).expanded)
    && row.git == GitStatus(c.at(row.entry.path).statuses, row.entry.path)
  }

  ghost predicate AllTell(c: Context, rows: seq<Row>) {
    forall row :: row in rows ==> RowTells(c, row)
  }

  lemma {:induction false} EntryRowsTell(c: Context, e: Entry, depth: nat, filter: string)
    ensures AllTell(c, EntryRows(c, e, depth, filter))
    decreases e, 1
  {
    RowsTell(c, e.children, depth + 1, filter);
    assert RowTells(c, RowOf(c, e, depth));
    assert AllTell(c, Below(c, e, depth, filter));
  }

  /** Filtered or not, every row shows whether its directory is expanded, and its git status. */
  lemma {:induction false} RowsTell(c: Context, entries: seq<Entry>, depth: nat, filter: string)
    ensures AllTell(c, Rows(c, entries, depth, filter))
    decreases entries, 0
  {
    if entries != [] {
      EntryRowsTell(c, entries[0], depth, filter);
      RowsTell(c, entries[1..], depth, filter);
    }
  }

  /** The entries of the rows at one depth, in order. */
  function AtDepth(rows: seq<Row>, depth: nat): seq<Entry> {
    if rows == [] then [] else (if rows[0].depth == depth then [rows[0].entry] else []) + AtDepth(rows[1..], depth)
  }

  lemma AtDepthCons(row: Row, rest: seq<Row>, depth: nat)
    ensures AtDepth([row] + rest, depth) == (if row.depth == depth then [row.entry] else []) + AtDepth(rest, depth)
  {
    assert ([row] + rest)[1..] == rest;
  }

  lemma {:induction false} AtDepthJoins(a: seq<Row>, b: seq<Row>, depth: nat)
    ensures AtDepth(a + b, depth) == AtDepth(a, depth) + AtDepth(b, depth)
  {
    if a == [] {
      assert a + b == b;
    } else {
      AtDepthJoins(a[1..], b, depth);
      assert a == [a[0]] + a[1..] && a + b == [a[0]] + (a[1..] + b);
      AtDepthCons(a[0], a[1..], depth);
      AtDepthCons(a[0], a[1..] + b, depth);
      SeqsRegroup(if a[0].depth == depth then [a[0].entry] else [], AtDepth(a[1..], depth), AtDepth(b, depth));
    }
  }

  lemma SeqsRegroup<T>(a: seq<T>, b: seq<T>, c: seq<T>)
    ensures a + (b + c) == a + b + c
  {
  }

  lemma {:induction false} NothingAbove(rows: seq<Row>, depth: nat)
    requires NoShallowerThan(rows, depth + 1)
    ensures AtDepth(rows, depth) == []
  {
    if rows != [] {
      NothingAbove(rows[1..], depth);
    }
  }

  /** Without a filter the rows of a level are exactly its entries, in their order. */
  lemma {:induction false} LevelIsComplete(c: Context, entries: seq<Entry>, depth: nat)
    ensures AtDepth(Rows(c, entries, depth, ""), depth) == entries
    decreases |entries|
  {
    if entries != [] {
      var e := entries[0];
      LevelIsComplete(c, entries[1..], depth);
      RowDepths(c, e.children, depth + 1);
      var below := Below(c, e, depth, "");
      NothingAbove(below, depth);
      AtDepthJoins(EntryRows(c, e, depth, ""), Rows(c, entries[1..], depth, ""), depth);
      AtDepthJoins([RowOf(c, e, depth)], below, depth);
      assert AtDepth([RowOf(c, e, depth)], depth) == [e] + AtDepth([], depth);
      assert entries == [e] + entries[1..];
    }
  }

  /** The rows deeper than a row that follow it without a break. */
  function Block(rows: seq<Row>, depth: nat): seq<Row> {
    if rows == [] || rows[0].depth <= depth then [] else [rows[0]] + Block(rows[1..], depth)
  }

  lemma {:induction false} BlockIsBelow(below: seq<Row>, rest: seq<Row>, depth: nat)
    requires NoShallowerThan(below, depth + 1) && (rest != [] ==> rest[0].depth <= depth)
    ensures Block(below + rest, depth) == below
    decreases |below|
  {
    if below == [] {
      assert below + rest == rest;
    } else {
      assert (below + rest)[1..] == below[1..] + rest;
      BlockIsBelow(below[1..], rest, depth);
    }
  }

  /** Below row `i` stand exactly the rows of its children, if it is expanded, and none otherwise. */
  predicate IsComplete(rows: seq<Row>, i: nat)
    requires i < |rows|
  {
    AtDepth(Block(rows[i + 1..], rows[i].depth), rows[i].depth + 1) ==
      if rows[i].expanded then rows[i].entry.children else []
  }

  ghost predicate AllComplete(rows: seq<Row>) {
    forall i {:trigger IsComplete(rows, i)} :: 0 <= i < |rows| ==> IsComplete(rows, i)
  }

  lemma {:induction false} BlockStops(rows: seq<Row>, rest: seq<Row>, depth: nat)
    requires rest != [] ==> rest[0].depth <= depth
    ensures Block(rows + rest, depth) == Block(rows, depth)
    decreases |rows|
  {
    if rows == [] {
      assert rows + rest == rest;
    } else {
      assert (rows + rest)[1..] == rows[1..] + rest;
      BlockStops(rows[1..], rest, depth);
    }
  }

  lemma CompleteBefore(a: seq<Row>, b: seq<Row>, i: nat)
    requires i < |a| && IsComplete(a, i) && (b != [] ==> b[0].depth <= a[i].depth)
    ensures IsComplete(a + b, i)
  {
    assert (a + b)[i + 1..] == a[i + 1..] + b;
    BlockStops(a[i + 1..], b, a[i].depth);
  }

  lemma CompleteAfter(a: seq<Row>, b: seq<Row>, i: nat)
    requires i < |b| && IsComplete(b, i)
    ensures IsComplete(a + b, |a| + i)
  {
    assert (a + b)[|a| + i + 1..] == b[i + 1..];
  }

  lemma CompleteAt(a: seq<Row>, b: seq<Row>, depth: nat, i: nat)
    requires i < |a| + |b| && if i < |a| then IsComplete(a, i) else IsComplete(b, i - |a|)
    requires NoShallowerThan(a, depth) && (b != [] ==> b[0].depth <= depth)
    ensures IsComplete(a + b, i)
  {
    if i < |a| {
      CompleteBefore(a, b, i);
    } else {
      CompleteAfter(a, b, i - |a|);
    }
  }

  lemma CompleteJoins(a: seq<Row>, b: seq<Row>, depth: nat)
    requires AllComplete(a) && AllComplete(b) && NoShallowerThan(a, depth) && (b != [] ==> b[0].depth <= depth)
    ensures AllComplete(a + b)
  {
    var all := a + b;
    forall i: nat | i < |all|
      ensures IsComplete(all, i)
    {
      CompleteAt(a, b, depth, i);
    }
  }

  lemma CompleteShifts(row: Row, below: seq<Row>, i: nat)
    requires i < |below| && IsComplete(below, i)
    ensures IsComplete([row] + below, i + 1)
  {
    assert ([row] + below)[i + 2..] == below[i + 1..];
  }

  lemma CompleteTop(row: Row, below: seq<Row>)
    requires NoShallowerThan(below, row.depth + 1)
    requires AtDepth(below, row.depth + 1) == if row.expanded then row.entry.children else []
    ensures IsComplete([row] + below, 0)
  {
    BlockIsBelow(below, [], row.depth);
    assert below + [] == below && ([row] + below)[1..] == below;
  }

  lemma CompleteUnderAt(row: Row, below: seq<Row>, i: nat)
    requires i <= |below| && (i > 0 ==> IsComplete(below, i - 1)) && NoShallowerThan(below, row.depth + 1)
    requires AtDepth(below, row.depth + 1) == if row.expanded then row.entry.children else []
    ensures IsComplete([row] + below, i)
  {
    if i == 0 {
      CompleteTop(row, below);
    } else {
      CompleteShifts(row, below, i - 1);
    }
  }

  lemma CompleteUnder(row: Row, below: seq<Row>)
    requires AllComplete(below) && NoShallowerThan(below, row.depth + 1)
    requires AtDepth(below, row.depth + 1) == if row.expanded then row.entry.children else []
    ensures AllComplete([row] + below)
  {
    var all := [row] + below;
    forall i: nat | i < |all|
      ensures IsComplete(all, i)
    {
      CompleteUnderAt(row, below, i);
    }
  }

  /** Without a filter, below every row stand exactly the rows of its children, in order, if it is expanded. */
  lemma {:induction false} RowsAreComplete(c: Context, entries: seq<Entry>, depth: nat)
    ensures AllComplete(Rows(c, entries, depth, ""))
    decreases entries, 0
  {
    if entries != [] {
      var e := entries[0];
      EntryIsComplete(c, e, depth);
      RowsAreComplete(c, entries[1..], depth);
      RowDepths(c, entries[1..], depth);
      RowDepths(c, [e], depth);
      assert Rows(c, [e], depth, "") == EntryRows(c, e, depth, "") + Rows(c, [], depth, "") == EntryRows(c, e, depth, "");
      CompleteJoins(EntryRows(c, e, depth, ""), Rows(c, entries[1..], depth, ""), depth);
    }
  }

  lemma {:induction false} EntryIsComplete(c: Context, e: Entry, depth: nat)
    ensures AllComplete(EntryRows(c, e, depth, ""))
    decreases e, 1
  {
    if IsOpen(c, e) {
      RowsAreComplete(c, e.children, depth + 1);
      LevelIsComplete(c, e.children, depth + 1);
      RowDepths(c, e.children, depth + 1);
    }
    CompleteUnder(RowOf(c, e, depth), Below(c, e, depth, ""));
  }

  // ---------------------------------------------------------------- matching directories

  /** Paths are built by the server from the names on the way down. */
  predicate PathsExtend(e: Entry, base: string) {
    e.path == base + e.name && forall k :: 0 <= k < |e.children| ==> PathsExtend(e.children[k], e.path + "/")
  }

  lemma EndOfPathMatches(base: string, name: string, filter: string)
    requires Contains(Lower(name), filter)
    ensures Contains(Lower(base + name), filter)
  {
    LowerOfSum(base, name);
    ContainsExtends(Lower(base), Lower(name), "", filter);
    assert Lower(base) + Lower(name) + "" == Lower(base + name);
  }

  lemma StartOfPathMatches(path: string, rest: string, filter: string)
    requires Contains(Lower(path), filter)
    ensures Contains(Lower(path + rest), filter)
  {
    LowerOfSum(path, rest);
    ContainsExtends("", Lower(path), Lower(rest), filter);
    assert "" + Lower(path) + Lower(rest) == Lower(path + rest);
  }

  lemma MatchIsInherited(e: Entry, base: string, k: nat, filter: string)
    requires PathsExtend(e, base) && k < |e.children| && Matches(e, filter)
    ensures Contains(Lower(e.path), filter) && Matches(e.children[k], filter)
  {
    var child := e.children[k];
    assert PathsExtend(child, e.path + "/");
    if Contains(Lower(e.name), filter) {
      EndOfPathMatches(base, e.name, filter);
    }
    StartOfPathMatches(e.path, "/" + child.name, filter);
    assert child.path == e.path + ("/" + child.name);
  }

  /** Once a directory matches, everything visible below it is rendered. */
  lemma {:induction false} MatchingDirectoryShowsAll(c: Context, e: Entry, base: string, depth: nat, filter: string)
    requires PathsExtend(e, base) && Matches(e, filter)
    ensures EntryRows(c, e, depth, filter) == EntryRows(c, e, depth, "")
    decreases e, 1
  {
    if IsOpen(c, e) {
      forall k | 0 <= k < |e.children|
        ensures PathsExtend(e.children[k], e.path + "/") && Matches(e.children[k], filter)
      {
        MatchIsInherited(e, base, k, filter);
      }
      MatchingEntriesShowAll(c, e.children, e.path + "/", depth + 1, filter);
    }
  }

  lemma {:induction false} MatchingEntriesShowAll(c: Context, entries: seq<Entry>, base: string, depth: nat, filter: string)
    requires forall k :: 0 <= k < |entries| ==> PathsExtend(entries[k], base) && Matches(entries[k], filter)
    ensures Rows(c, entries, depth, filter) == Rows(c, entries, depth, "")
    decreases entries, 0
  {
    if entries != [] {
      MatchingDirectoryShowsAll(c, entries[0], base, depth, filter);
      MatchingEntriesShowAll(c, entries[1..], base, depth, filter);
    }
  }
}
