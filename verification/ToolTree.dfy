/** The tree of tools by provider and category, and what a search query leaves of it. */
module ToolTree {
  import opened Text
  import StableSort

  datatype Tool = Tool(name: string, description: string, category: string, domain: string)
  datatype Category = Category(name: string, domain: string, tools: seq<Tool>)
  datatype Provider = Provider(name: string, count: nat, categories: seq<Category>)

  /** What is drawn: headings with their displayed counts, and one button per tool. */
  datatype CategoryBlock = CategoryBlock(heading: string, count: nat, buttons: seq<Tool>)
  datatype ProviderBlock = ProviderBlock(heading: string, count: nat, blocks: seq<CategoryBlock>)

  function CategoryOf(t: Tool): string {
    if t.category == "" then "uncategorized" else t.category
  }

  function NonEmpty(parts: seq<string>): seq<string> {
    if parts == [] then [] else (if parts[0] == "" then [] else [parts[0]]) + NonEmpty(parts[1..])
  }

  predicate MatchesQuery(t: Tool, query: string) {
    var needle := Lower(Trim(query));
    needle == "" || Contains(Lower(Join(NonEmpty([t.name, t.description, t.category, t.domain]), " ")), needle)
  }

  function Wanted(query: string): Tool -> bool {
    (t: Tool) => MatchesQuery(t, query)
  }

  function Filter(tools: seq<Tool>, wanted: Tool -> bool): seq<Tool> {
    if tools == [] then []
    else
      var rest, last := Filter(tools[..|tools| - 1], wanted), tools[|tools| - 1];
      if wanted(last) then rest + [last] else rest
  }

  /** The tools of one category, in order. */
  function In(tools: seq<Tool>, name: string): seq<Tool> {
    if tools == [] then []
    else
      var rest, last := In(tools[..|tools| - 1], name), tools[|tools| - 1];
      if CategoryOf(last) == name then rest + [last] else rest
  }

  predicate HasName(cats: seq<Category>, name: string) {
    exists i :: 0 <= i < |cats| && cats[i].name == name
  }

  predicate DistinctNames(cats: seq<Category>) {
    forall i, j :: 0 <= i < j < |cats| ==> cats[i].name != cats[j].name
  }

  /** Every tool sits in the category with its own name, once and in order, and nothing else does. */
  predicate Sorts(cats: seq<Category>, tools: seq<Tool>) {
    && DistinctNames(cats)
    && (forall c :: c in cats ==> c.tools == In(tools, c.name))
    && (forall t :: t in tools ==> HasName(cats, CategoryOf(t)))
  }

  // ---------------------------------------------------------------- searching

  /** The text is in one of the fields, without regard to case. */
  predicate IsInField(t: Tool, needle: string) {
    || Contains(Lower(t.name), needle) || Contains(Lower(t.description), needle)
    || Contains(Lower(t.category), needle) || Contains(Lower(t.domain), needle)
  }

  ghost predicate IsInPart(parts: seq<string>, needle: string) {
    exists k :: 0 <= k < |parts| && Contains(Lower(parts[k]), needle)
  }

  lemma InPartCons(part: string, rest: seq<string>, needle: string)
    ensures IsInPart([part] + rest, needle) <==> Contains(Lower(part), needle) || IsInPart(rest, needle)
  {
    var all := [part] + rest;
    if Contains(Lower(part), needle) {
      assert all[0] == part;
    }
    if k :| 0 <= k < |rest| && Contains(Lower(rest[k]), needle) {
      assert all[k + 1] == rest[k];
    }
  }

  lemma NothingInEmpty(needle: string)
    requires needle != ""
    ensures !Contains(Lower(""), needle)
  {
  }

  lemma {:induction false} NonEmptyKeepsParts(parts: seq<string>, needle: string)
    requires needle != ""
    ensures IsInPart(NonEmpty(parts), needle) <==> IsInPart(parts, needle)
  {
    if parts != [] {
      NonEmptyKeepsParts(parts[1..], needle);
      assert parts == [parts[0]] + parts[1..];
      InPartCons(parts[0], parts[1..], needle);
      InPartCons(parts[0], NonEmpty(parts[1..]), needle);
      NothingInEmpty(needle);
      assert NonEmpty(parts) == if parts[0] == "" then NonEmpty(parts[1..]) else [parts[0]] + NonEmpty(parts[1..]);
    }
  }

  lemma {:induction false} PartIsInJoin(parts: seq<string>, needle: string)
    requires needle != "" && ' ' !in needle
    ensures Contains(Lower(Join(parts, " ")), needle) <==> IsInPart(parts, needle)
  {
    if parts == [] {
      NothingInEmpty(needle);
    } else if |parts| == 1 {
      assert parts == [parts[0]] + [];
      InPartCons(parts[0], [], needle);
    } else {
      var tail := Join(parts[1..], " ");
      PartIsInJoin(parts[1..], needle);
      assert parts == [parts[0]] + parts[1..];
      InPartCons(parts[0], parts[1..], needle);
      LowerOfSum(parts[0] + " ", tail);
      LowerOfSum(parts[0], " ");
      assert Lower(" ") == [' '];
      ContainsSplits(Lower(parts[0]), ' ', Lower(tail), needle);
    }
  }

  lemma FourParts(t: Tool, needle: string)
    ensures IsInPart([t.name, t.description, t.category, t.domain], needle) <==> IsInField(t, needle)
  {
    var parts := [t.name, t.description, t.category, t.domain];
    assert parts[0] == t.name && parts[1] == t.description && parts[2] == t.category && parts[3] == t.domain;
  }

  /**
    A blank query matches every tool.  A query of one word matches exactly the tools that have it in
    their name, description, category or domain, without regard to case.
   */
  lemma SearchesAllFields(t: Tool, query: string)
    ensures Trim(query) == "" ==> MatchesQuery(t, query)
    ensures Trim(query) != "" && ' ' !in Trim(query) ==> (MatchesQuery(t, query) <==> IsInField(t, Lower(Trim(query))))
  {
    var needle := Lower(Trim(query));
    if needle != "" && ' ' !in Trim(query) {
      NoSpaceInLower(Trim(query));
      FourParts(t, needle);
      NonEmptyKeepsParts([t.name, t.description, t.category, t.domain], needle);
      PartIsInJoin(NonEmpty([t.name, t.description, t.category, t.domain]), needle);
    }
  }

  lemma NoSpaceInLower(s: string)
    requires ' ' !in s
    ensures ' ' !in Lower(s)
  {
    assert forall i :: 0 <= i < |s| ==> s[i] != ' ';
  }

  // ---------------------------------------------------------------- building

  lemma InStep(tools: seq<Tool>, t: Tool, name: string)
    ensures In(tools + [t], name) == if CategoryOf(t) == name then In(tools, name) + [t] else In(tools, name)
  {
    assert (tools + [t])[..|tools|] == tools;
  }

  lemma {:induction false} InIsEmpty(tools: seq<Tool>, name: string)
    ensures In(tools, name) == [] <==> forall t :: t in tools ==> CategoryOf(t) != name
  {
    if tools != [] {
      var rest, last := tools[..|tools| - 1], tools[|tools| - 1];
      InIsEmpty(rest, name);
      assert tools == rest + [last];
    }
  }

  /** The place of a name in the dictionary, or the place where it would be added. */
  predicate Fits(cats: seq<Category>, at: nat, name: string) {
    && at <= |cats|
    && (at < |cats| ==> cats[at].name == name)
    && (at == |cats| ==> !HasName(cats, name))
  }

  method FindCategory(cats: seq<Category>, name: string) returns (at: nat)
    ensures Fits(cats, at, name)
  {
    at := 0;
    while at < |cats| && cats[at].name != name
      invariant at <= |cats|
      invariant forall i :: 0 <= i < at ==> cats[i].name != name
    {
      at := at + 1;
    }
  }

  function Placed(cats: seq<Category>, at: nat, t: Tool): seq<Category>
    requires at <= |cats|
  {
    if at < |cats| then cats[at := cats[at].(tools := cats[at].tools + [t])]
    else cats + [Category(CategoryOf(t), CategoryOf(t), [t])]
  }

  lemma PlacedNames(cats: seq<Category>, t: Tool, at: nat)
    requires DistinctNames(cats) && Fits(cats, at, CategoryOf(t))
    ensures DistinctNames(Placed(cats, at, t))
    ensures HasName(Placed(cats, at, t), CategoryOf(t))
    ensures forall name :: HasName(cats, name) ==> HasName(Placed(cats, at, t), name)
  {
    var cats' := Placed(cats, at, t);
    assert cats'[at].name == CategoryOf(t);
    forall name | HasName(cats, name)
      ensures HasName(cats', name)
    {
      var i :| 0 <= i < |cats| && cats[i].name == name;
      assert cats'[i].name == name;
    }
  }

  lemma PlacedTools(cats: seq<Category>, tools: seq<Tool>, t: Tool, at: nat, i: nat)
    requires Sorts(cats, tools) && Fits(cats, at, CategoryOf(t)) && i < |Placed(cats, at, t)|
    ensures Placed(cats, at, t)[i].tools == In(tools + [t], Placed(cats, at, t)[i].name)
  {
    InStep(tools, t, Placed(cats, at, t)[i].name);
    if i < |cats| {
      assert cats[i] in cats;
    } else {
      InIsEmpty(tools, CategoryOf(t));
    }
  }

  lemma PlacedSorts(cats: seq<Category>, tools: seq<Tool>, t: Tool, at: nat)
    requires Sorts(cats, tools) && Fits(cats, at, CategoryOf(t))
    ensures Sorts(Placed(cats, at, t), tools + [t])
  {
    PlacedNames(cats, t, at);
    forall i: nat | i < |Placed(cats, at, t)|
      ensures Placed(cats, at, t)[i].tools == In(tools + [t], Placed(cats, at, t)[i].name)
    {
      PlacedTools(cats, tools, t, at, i);
    }
  }

  /** The domain that was declared last for a category. */
  function LastDomain(declared: seq<(string, string)>, name: string): string {
    if declared == [] then name
    else
      var last := declared[|declared| - 1];
      if last.0 == name then last.1 else LastDomain(declared[..|declared| - 1], name)
  }

  /** A category has the domain declared for it, and its own name for want of one. */
  predicate HasDomains(cats: seq<Category>, declared: seq<(string, string)>) {
    forall i :: 0 <= i < |cats| ==> cats[i].domain == LastDomain(declared, cats[i].name)
  }

  lemma LastDomainStep(declared: seq<(string, string)>, d: (string, string), name: string)
    ensures LastDomain(declared + [d], name) == if d.0 == name then d.1 else LastDomain(declared, name)
  {
    assert (declared + [d])[..|declared|] == declared;
  }

  lemma {:induction false} UndeclaredDomain(declared: seq<(string, string)>, name: string)
    requires forall k :: 0 <= k < |declared| ==> declared[k].0 != name
    ensures LastDomain(declared, name) == name
  {
    if declared != [] {
      UndeclaredDomain(declared[..|declared| - 1], name);
    }
  }

  lemma DeclaredDomains(was: seq<Category>, cats: seq<Category>, at: nat, declared: seq<(string, string)>, d: (string, string))
    requires HasDomains(was, declared) && Fits(was, at, d.0) && DistinctNames(was)
    requires cats == if at < |was| then was[at := Category(d.0, d.1, [])] else was + [Category(d.0, d.1, [])]
    ensures HasDomains(cats, declared + [d])
  {
    forall i | 0 <= i < |cats|
      ensures cats[i].domain == LastDomain(declared + [d], cats[i].name)
    {
      LastDomainStep(declared, d, cats[i].name);
    }
  }

  /** All declared names are in the dictionary. */
  predicate HasAll(cats: seq<Category>, declared: seq<(string, string)>) {
    forall k :: 0 <= k < |declared| ==> HasName(cats, declared[k].0)
  }

  lemma PlacedDomains(cats: seq<Category>, at: nat, t: Tool, declared: seq<(string, string)>)
    requires HasDomains(cats, declared) && HasAll(cats, declared) && Fits(cats, at, CategoryOf(t)) && DistinctNames(cats)
    ensures HasDomains(Placed(cats, at, t), declared) && HasAll(Placed(cats, at, t), declared)
  {
    PlacedNames(cats, t, at);
    if at == |cats| {
      UndeclaredDomain(declared, CategoryOf(t));
    }
  }

  /** The dictionary of declared categories: a repeated name is declared anew in its old place. */
  method DeclareCategories(declared: seq<(string, string)>) returns (cats: seq<Category>)
    ensures Sorts(cats, [])
    ensures HasAll(cats, declared) && HasDomains(cats, declared)
  {
    cats := [];
    for n := 0 to |declared|
      invariant Sorts(cats, [])
      invariant HasAll(cats, declared[..n]) && HasDomains(cats, declared[..n])
    {
      var (name, domain) := declared[n];
      var at := FindCategory(cats, name);
      ghost var was := cats;
      if at < |cats| {
        cats := cats[at := Category(name, domain, [])];
      } else {
        cats := cats + [Category(name, domain, [])];
      }
      assert cats[at].name == name;
      assert forall i :: 0 <= i < |was| ==> cats[i].name == was[i].name;
      DeclaredDomains(was, cats, at, declared[..n], (name, domain));
      assert declared[..n + 1] == declared[..n] + [(name, domain)];
    }
    assert declared[..|declared|] == declared;
  }

  method Place(cats: seq<Category>, t: Tool) returns (cats': seq<Category>)
    requires DistinctNames(cats)
    ensures exists at: nat :: Fits(cats, at, CategoryOf(t)) && cats' == Placed(cats, at, t)
  {
    var name := CategoryOf(t);
    var at := FindCategory(cats, name);
    cats' := cats;
    if at == |cats| {
      cats' := cats' + [Category(name, name, [])];
      assert [] + [t] == [t];
    }
    cats' := cats'[at := cats'[at].(tools := cats'[at].tools + [t])];
    assert cats' == Placed(cats, at, t);
  }

  method FillCategories(start: seq<Category>, tools: seq<Tool>, ghost declared: seq<(string, string)>)
    returns (cats: seq<Category>)
    requires Sorts(start, []) && HasAll(start, declared) && HasDomains(start, declared)
    ensures Sorts(cats, tools) && HasDomains(cats, declared)
  {
    cats := start;
    for n := 0 to |tools|
      invariant Sorts(cats, tools[..n])
      invariant HasAll(cats, declared) && HasDomains(cats, declared)
    {
      assert tools[..n + 1] == tools[..n] + [tools[n]];
      var next := Place(cats, tools[n]);
      ghost var at: nat :| Fits(cats, at, CategoryOf(tools[n])) && next == Placed(cats, at, tools[n]);
      PlacedSorts(cats, tools[..n], tools[n], at);
      PlacedDomains(cats, at, tools[n], declared);
      cats := next;
    }
    assert tools[..|tools|] == tools;
  }

  function WithTools(cats: seq<Category>): seq<Category> {
    if cats == [] then [] else (if |cats[0].tools| > 0 then [cats[0]] else []) + WithTools(cats[1..])
  }

  /** The collation is a parameter: all that is known of it is that it ranks the names. */
  function Collated(rank: string -> int): Category -> int {
    (c: Category) => -rank(c.name)
  }

  /** The nonempty categories, sorted by name. */
  function Finish(cats: seq<Category>, rank: string -> int): seq<Category> {
    StableSort.SortDescending(WithTools(cats), Collated(rank))
  }

  lemma {:induction false} WithToolsKeeps(cats: seq<Category>)
    ensures forall c :: c in WithTools(cats) <==> c in cats && c.tools != []
    ensures DistinctNames(cats) ==> DistinctNames(WithTools(cats))
  {
    if cats != [] {
      var c, rest := cats[0], WithTools(cats[1..]);
      WithToolsKeeps(cats[1..]);
      assert cats == [c] + cats[1..];
      if DistinctNames(cats) {
        forall j | 0 <= j < |rest|
          ensures rest[j].name != c.name
        {
          assert rest[j] in cats[1..];
        }
      }
    }
  }

  lemma HasNameIsMember(cats: seq<Category>, name: string)
    ensures HasName(cats, name) <==> exists c :: c in cats && c.name == name
  {
  }

  lemma DistinctCons(c: Category, rest: seq<Category>)
    ensures DistinctNames([c] + rest) <==> DistinctNames(rest) && !HasName(rest, c.name)
  {
    var all := [c] + rest;
    if DistinctNames(all) {
      forall j | 0 <= j < |rest|
        ensures rest[j].name != c.name
      {
        assert all[0].name != all[j + 1].name;
      }
      forall i, j | 0 <= i < j < |rest|
        ensures rest[i].name != rest[j].name
      {
        assert all[i + 1].name != all[j + 1].name;
      }
    }
  }

  lemma InsertNames(c: Category, cats: seq<Category>, key: Category -> int, name: string)
    ensures HasName(StableSort.Insert(c, cats, key), name) <==> c.name == name || HasName(cats, name)
  {
    StableSort.InsertAdds(c, cats, key);
    var all := StableSort.Insert(c, cats, key);
    forall d
      ensures d in all <==> d == c || d in cats
    {
      assert d in all <==> d in multiset(all);
      assert d in cats <==> d in multiset(cats);
    }
    HasNameIsMember(all, name);
    HasNameIsMember(cats, name);
  }

  lemma {:induction false} InsertKeepsDistinct(c: Category, cats: seq<Category>, key: Category -> int)
    requires DistinctNames(cats) && !HasName(cats, c.name)
    ensures DistinctNames(StableSort.Insert(c, cats, key))
  {
    DistinctCons(c, cats);
    if cats != [] && key(cats[0]) > key(c) {
      var first, rest := cats[0], cats[1..];
      assert cats == [first] + rest;
      DistinctCons(first, rest);
      HasNameCons(cats, c.name);
      InsertKeepsDistinct(c, rest, key);
      InsertNames(c, rest, key, first.name);
      DistinctCons(first, StableSort.Insert(c, rest, key));
    }
  }

  lemma {:induction false} SortKeepsDistinct(cats: seq<Category>, key: Category -> int)
    requires DistinctNames(cats)
    ensures DistinctNames(StableSort.SortDescending(cats, key))
  {
    if cats != [] {
      var rest := StableSort.SortDescending(cats[1..], key);
      SortKeepsDistinct(cats[1..], key);
      StableSort.SortIsStable(cats[1..], key);
      forall j | 0 <= j < |rest|
        ensures rest[j].name != cats[0].name
      {
        assert rest[j] in multiset(rest);
        assert rest[j] in cats[1..];
      }
      InsertKeepsDistinct(cats[0], rest, key);
    }
  }

  /** The names ascend in the collation. */
  predicate IsOrdered(cats: seq<Category>, rank: string -> int) {
    forall i, j :: 0 <= i < j < |cats| ==> rank(cats[i].name) <= rank(cats[j].name)
  }

  /** Dropping the empty categories and sorting the others moves no tool. */
  lemma FinishSorts(cats: seq<Category>, tools: seq<Tool>, rank: string -> int)
    requires Sorts(cats, tools)
    ensures Sorts(Finish(cats, rank), tools)
    ensures forall c :: c in Finish(cats, rank) ==> c.tools != []
    ensures IsOrdered(Finish(cats, rank), rank)
    ensures forall declared :: HasDomains(cats, declared) ==> HasDomains(Finish(cats, rank), declared)
  {
    var kept, done := WithTools(cats), Finish(cats, rank);
    WithToolsKeeps(cats);
    StableSort.SortIsStable(kept, Collated(rank));
    SortKeepsDistinct(kept, Collated(rank));
    forall c
      ensures c in done <==> c in kept
    {
      assert c in done <==> c in multiset(done);
      assert c in kept <==> c in multiset(kept);
    }
    forall t | t in tools
      ensures HasName(done, CategoryOf(t))
    {
      var i :| 0 <= i < |cats| && cats[i].name == CategoryOf(t);
      assert cats[i] in cats;
      InIsEmpty(tools, CategoryOf(t));
      assert cats[i] in done;
    }
    forall i, j | 0 <= i < j < |done|
      ensures rank(done[i].name) <= rank(done[j].name)
    {
      assert Collated(rank)(done[i]) >= Collated(rank)(done[j]);
    }
    forall declared | HasDomains(cats, declared)
      ensures HasDomains(done, declared)
    {
      forall i | 0 <= i < |done|
        ensures done[i].domain == LastDomain(declared, done[i].name)
      {
        assert done[i] in cats;
      }
    }
  }

  /** A provider's entry in the tree is right for its tools. */
  ghost predicate Represents(p: Provider, tools: seq<Tool>, rank: string -> int) {
    && p.count == |tools|
    && Sorts(p.categories, tools)
    && (forall c :: c in p.categories ==> c.tools != [])
    && IsOrdered(p.categories, rank)
  }

  method BuildTree(halo: seq<Tool>, declared: seq<(string, string)>, pmt: seq<Tool>, rank: string -> int)
    returns (tree: seq<Provider>)
    ensures |tree| == if pmt == [] then 1 else 2
    ensures tree[0].name == "AgentHALO" && Represents(tree[0], halo, rank) && HasDomains(tree[0].categories, declared)
    ensures pmt != [] ==>
      tree[1].name == "AgentPMT" && Represents(tree[1], pmt, rank) && HasDomains(tree[1].categories, [])
  {
    var cats := DeclareCategories(declared);
    cats := FillCategories(cats, halo, declared);
    FinishSorts(cats, halo, rank);
    tree := [Provider("AgentHALO", |halo|, Finish(cats, rank))];
    if |pmt| > 0 {
      cats := FillCategories([], pmt, []);
      FinishSorts(cats, pmt, rank);
      tree := tree + [Provider("AgentPMT", |pmt|, Finish(cats, rank))];
    }
  }

  // ---------------------------------------------------------------- rendering

  function RenderCategories(cats: seq<Category>, wanted: Tool -> bool): seq<CategoryBlock> {
    if cats == [] then []
    else
      var c, shown := cats[0], Filter(cats[0].tools, wanted);
      (if shown == [] then [] else [CategoryBlock(Heading(c), |shown|, shown)])
      + RenderCategories(cats[1..], wanted)
  }

  function MatchCount(cats: seq<Category>, wanted: Tool -> bool): nat {
    if cats == [] then 0 else |Filter(cats[0].tools, wanted)| + MatchCount(cats[1..], wanted)
  }

  function RenderProvider(p: Provider, wanted: Tool -> bool): seq<ProviderBlock> {
    var blocks := RenderCategories(p.categories, wanted);
    if blocks == [] then [] else [ProviderBlock(p.name, MatchCount(p.categories, wanted), blocks)]
  }

  /** All buttons of the drawn categories, from top to bottom. */
  function Buttons(blocks: seq<CategoryBlock>): seq<Tool> {
    if blocks == [] then [] else blocks[0].buttons + Buttons(blocks[1..])
  }

  function Sizes(cats: seq<Category>): nat {
    if cats == [] then 0 else |cats[0].tools| + Sizes(cats[1..])
  }

  lemma FilterStep(tools: seq<Tool>, t: Tool, wanted: Tool -> bool)
    ensures Filter(tools + [t], wanted) == if wanted(t) then Filter(tools, wanted) + [t] else Filter(tools, wanted)
  {
    assert (tools + [t])[..|tools|] == tools;
  }

  /** The matching tools of all categories, category by category. */
  function Found(cats: seq<Category>, wanted: Tool -> bool): seq<Tool> {
    if cats == [] then [] else Filter(cats[0].tools, wanted) + Found(cats[1..], wanted)
  }

  lemma {:induction false} DrawnIsFound(cats: seq<Category>, wanted: Tool -> bool)
    ensures Buttons(RenderCategories(cats, wanted)) == Found(cats, wanted)
    ensures MatchCount(cats, wanted) == |Found(cats, wanted)|
    ensures RenderCategories(cats, wanted) == [] <==> Found(cats, wanted) == []
    ensures forall b :: b in RenderCategories(cats, wanted) ==> b.count == |b.buttons| > 0
  {
    if cats != [] {
      DrawnIsFound(cats[1..], wanted);
      var shown, rest := Filter(cats[0].tools, wanted), RenderCategories(cats[1..], wanted);
      if shown != [] {
        assert RenderCategories(cats, wanted)[1..] == rest;
      } else {
        assert RenderCategories(cats, wanted) == rest;
      }
    }
  }

  /** The categories restricted to the first tools. */
  function Upto(cats: seq<Category>, tools: seq<Tool>): (r: seq<Category>)
    ensures |r| == |cats| && forall i :: 0 <= i < |r| ==> r[i] == cats[i].(tools := In(tools, cats[i].name))
  {
    seq(|cats|, i requires 0 <= i < |cats| => cats[i].(tools := In(tools, cats[i].name)))
  }

  lemma {:induction false} NothingFoundInEmpty(cats: seq<Category>, wanted: Tool -> bool)
    ensures Found(Upto(cats, []), wanted) == []
  {
    if cats != [] {
      assert Upto(cats, [])[1..] == Upto(cats[1..], []);
      NothingFoundInEmpty(cats[1..], wanted);
    }
  }

  lemma HasNameCons(cats: seq<Category>, name: string)
    requires cats != []
    ensures HasName(cats, name) <==> cats[0].name == name || HasName(cats[1..], name)
  {
    if HasName(cats, name) {
      var i :| 0 <= i < |cats| && cats[i].name == name;
      assert i > 0 ==> cats[1..][i - 1].name == name;
    }
    if HasName(cats[1..], name) {
      var i :| 0 <= i < |cats[1..]| && cats[1..][i].name == name;
      assert cats[i + 1].name == name;
    }
  }

  lemma FoundCons(cats: seq<Category>, tools: seq<Tool>, wanted: Tool -> bool)
    requires cats != []
    ensures multiset(Found(Upto(cats, tools), wanted)) ==
            multiset(Filter(In(tools, cats[0].name), wanted)) + multiset(Found(Upto(cats[1..], tools), wanted))
  {
    assert Upto(cats, tools)[1..] == Upto(cats[1..], tools);
  }

  /** What one tool adds to the tools found. */
  function Gain(t: Tool, found: bool): multiset<Tool> {
    if found then multiset{t} else multiset{}
  }

  lemma FilterInStep(tools: seq<Tool>, t: Tool, name: string, wanted: Tool -> bool)
    ensures multiset(Filter(In(tools + [t], name), wanted)) ==
            multiset(Filter(In(tools, name), wanted)) + Gain(t, wanted(t) && CategoryOf(t) == name)
  {
    InStep(tools, t, name);
    FilterStep(In(tools, name), t, wanted);
  }

  /** One more tool is found in exactly one category, if it is wanted. */
  lemma {:induction false} FoundStep(cats: seq<Category>, tools: seq<Tool>, t: Tool, wanted: Tool -> bool)
    requires DistinctNames(cats)
    ensures multiset(Found(Upto(cats, tools + [t]), wanted)) ==
            multiset(Found(Upto(cats, tools), wanted)) + Gain(t, wanted(t) && HasName(cats, CategoryOf(t)))
  {
    if cats != [] {
      var rest, name := cats[1..], CategoryOf(t);
      FoundStep(rest, tools, t, wanted);
      FoundCons(cats, tools, wanted);
      FoundCons(cats, tools + [t], wanted);
      FilterInStep(tools, t, cats[0].name, wanted);
      HasNameCons(cats, name);
      NamedOnce(cats, name);
    }
  }

  lemma NamedOnce(cats: seq<Category>, name: string)
    requires DistinctNames(cats) && cats != []
    ensures !(cats[0].name == name && HasName(cats[1..], name))
  {
  }

  lemma {:induction false} FoundUpto(cats: seq<Category>, tools: seq<Tool>, wanted: Tool -> bool)
    requires DistinctNames(cats)
    requires forall t :: t in tools ==> HasName(cats, CategoryOf(t))
    ensures multiset(Found(Upto(cats, tools), wanted)) == multiset(Filter(tools, wanted))
    decreases |tools|
  {
    if tools == [] {
      NothingFoundInEmpty(cats, wanted);
    } else {
      var rest, last := tools[..|tools| - 1], tools[|tools| - 1];
      assert tools == rest + [last];
      FoundUpto(cats, rest, wanted);
      FoundStep(cats, rest, last, wanted);
      FilterStep(rest, last, wanted);
    }
  }

  lemma FoundIsMatching(cats: seq<Category>, tools: seq<Tool>, wanted: Tool -> bool)
    requires Sorts(cats, tools)
    ensures multiset(Found(cats, wanted)) == multiset(Filter(tools, wanted))
    ensures |Found(cats, wanted)| == |Filter(tools, wanted)|
  {
    assert forall i :: 0 <= i < |cats| ==> cats[i] in cats;
    assert Upto(cats, tools) == cats;
    FoundUpto(cats, tools, wanted);
    assert |multiset(Found(cats, wanted))| == |multiset(Filter(tools, wanted))|;
  }

  function Heading(c: Category): string {
    if c.domain == "" then c.name else c.domain
  }

  /** The block draws one category: its heading and the wanted ones among the tools of that name. */
  predicate Draws(b: CategoryBlock, c: Category, tools: seq<Tool>, wanted: Tool -> bool) {
    b.heading == (if c.domain != "" then c.domain else c.name) && b.buttons == Filter(In(tools, c.name), wanted)
  }

  lemma {:induction false} BlocksDrawCategories(cats: seq<Category>, tools: seq<Tool>, wanted: Tool -> bool)
    requires forall c :: c in cats ==> c.tools == In(tools, c.name)
    ensures forall b :: b in RenderCategories(cats, wanted) ==> exists c :: c in cats && Draws(b, c, tools, wanted)
  {
    if cats != [] {
      BlocksDrawCategories(cats[1..], tools, wanted);
      assert cats[0] in cats;
      forall b | b in RenderCategories(cats, wanted)
        ensures exists c :: c in cats && Draws(b, c, tools, wanted)
      {
        if b in RenderCategories(cats[1..], wanted) {
          var c :| c in cats[1..] && Draws(b, c, tools, wanted);
          assert c in cats;
        } else {
          assert Draws(b, cats[0], tools, wanted);
        }
      }
    }
  }

  /**
    Whatever the query wants, a provider is drawn exactly when one of its tools matches, every
    matching tool has exactly one button under its own category, and the displayed counts are
    the numbers of buttons.
   */
  lemma RenderingIsExact(p: Provider, tools: seq<Tool>, rank: string -> int, wanted: Tool -> bool)
    requires Represents(p, tools, rank)
    ensures RenderProvider(p, wanted) == [] <==> Filter(tools, wanted) == []
    ensures RenderProvider(p, wanted) != [] ==>
      var block := RenderProvider(p, wanted)[0];
      && |RenderProvider(p, wanted)| == 1 && block.heading == p.name
      && block.count == |Buttons(block.blocks)| == |Filter(tools, wanted)|
      && multiset(Buttons(block.blocks)) == multiset(Filter(tools, wanted))
      && forall b :: b in block.blocks ==>
           && b.count == |b.buttons| > 0
           && exists c :: c in p.categories && Draws(b, c, tools, wanted)
  {
    BlocksDrawCategories(p.categories, tools, wanted);
    DrawnIsFound(p.categories, wanted);
    FoundIsMatching(p.categories, tools, wanted);
  }

  function Everything(): Tool -> bool {
    (t: Tool) => true
  }

  lemma {:induction false} EverythingIsFound(tools: seq<Tool>)
    ensures Filter(tools, Everything()) == tools
  {
    if tools != [] {
      EverythingIsFound(tools[..|tools| - 1]);
    }
  }

  lemma {:induction false} SizesAreFound(cats: seq<Category>)
    ensures Sizes(cats) == |Found(cats, Everything())|
  {
    if cats != [] {
      EverythingIsFound(cats[0].tools);
      SizesAreFound(cats[1..]);
    }
  }

  /** The category sizes of a provider add up to the count kept in the tree. */
  lemma SizesAddUp(p: Provider, tools: seq<Tool>, rank: string -> int)
    requires Represents(p, tools, rank)
    ensures Sizes(p.categories) == p.count
  {
    SizesAreFound(p.categories);
    FoundIsMatching(p.categories, tools, Everything());
    EverythingIsFound(tools);
  }

  function RenderTree(tree: seq<Provider>, query: string): seq<ProviderBlock> {
    if tree == [] then [] else RenderProvider(tree[0], Wanted(query)) + RenderTree(tree[1..], query)
  }

  function AllButtons(blocks: seq<ProviderBlock>): seq<Tool> {
    if blocks == [] then [] else Buttons(blocks[0].blocks) + AllButtons(blocks[1..])
  }

  function TotalCount(blocks: seq<ProviderBlock>): nat {
    if blocks == [] then 0 else blocks[0].count + TotalCount(blocks[1..])
  }

  function AllMatches(lists: seq<seq<Tool>>, query: string): seq<Tool> {
    if lists == [] then [] else Filter(lists[0], Wanted(query)) + AllMatches(lists[1..], query)
  }

  /** Over all providers, the buttons are the matching tools and the displayed counts add up to them. */
  lemma {:induction false} DrawnTreeIsExact(
      tree: seq<Provider>, lists: seq<seq<Tool>>, rank: string -> int, query: string)
    requires |tree| == |lists| && forall i :: 0 <= i < |tree| ==> Represents(tree[i], lists[i], rank)
    ensures multiset(AllButtons(RenderTree(tree, query))) == multiset(AllMatches(lists, query))
    ensures TotalCount(RenderTree(tree, query)) == |AllMatches(lists, query)|
  {
    if tree != [] {
      var first, rest := RenderProvider(tree[0], Wanted(query)), RenderTree(tree[1..], query);
      DrawnTreeIsExact(tree[1..], lists[1..], rank, query);
      RenderingIsExact(tree[0], lists[0], rank, Wanted(query));
      if first == [] {
        assert RenderTree(tree, query) == rest;
      } else {
        assert RenderTree(tree, query)[1..] == rest;
      }
    }
  }

  lemma {:induction false} InHas(tools: seq<Tool>, t: Tool)
    requires t in tools
    ensures t in In(tools, CategoryOf(t))
  {
    var rest, last := tools[..|tools| - 1], tools[|tools| - 1];
    assert tools == rest + [last];
    if t != last {
      InHas(rest, t);
    }
  }

  /** A tool is filed under its own category, and without one under "uncategorized". */
  lemma ToolIsFiled(p: Provider, tools: seq<Tool>, rank: string -> int, t: Tool)
    requires Represents(p, tools, rank) && t in tools
    ensures exists c :: c in p.categories && t in c.tools && c.name == if t.category != "" then t.category else "uncategorized"
  {
    var i :| 0 <= i < |p.categories| && p.categories[i].name == CategoryOf(t);
    var c := p.categories[i];
    assert c in p.categories;
    InHas(tools, t);
  }
}
