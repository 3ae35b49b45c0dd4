/**
  The two aggregations behind the sessions page: the totals over all recorded sessions,
  and the groups by agent that leave the system's own sessions out.
 */
module Sessions {
  import opened Text
  import StableSort

  /** A recorded session with its summary; a missing agent or model is the empty string, a missing number 0. */
  datatype Item = Item(agent: string, model: string, startedAt: int, inputTokens: int, outputTokens: int,
                       toolCalls: int, mcpToolCalls: int, eventCount: int)

  datatype Measure = Count | InputTokens | OutputTokens | ToolCalls | Events

  function Of(i: Item, m: Measure): int {
    match m
    case Count => 1
    case InputTokens => i.inputTokens
    case OutputTokens => i.outputTokens
    case ToolCalls => i.toolCalls + i.mcpToolCalls
    case Events => i.eventCount
  }

  function Total(items: seq<Item>, m: Measure): int {
    if items == [] then 0 else Total(items[..|items| - 1], m) + Of(items[|items| - 1], m)
  }

  predicate IsSystem(i: Item) {
    Lower(Trim(i.agent)) == "genesis"
  }

  function AgentOf(i: Item): string {
    if i.agent == "" then "unknown" else i.agent
  }

  // ---------------------------------------------------------------- totals

  datatype Summary = Summary(sessions: int, agents: set<string>, inputTokens: int, outputTokens: int,
                             toolCalls: int, eventCount: int, latestStartedAt: int, latestAgent: string)

  function SummaryOf(s: Summary, m: Measure): int {
    match m
    case Count => s.sessions
    case InputTokens => s.inputTokens
    case OutputTokens => s.outputTokens
    case ToolCalls => s.toolCalls
    case Events => s.eventCount
  }

  function AgentSet(items: seq<Item>): set<string> {
    set i | i in items && !IsSystem(i) :: AgentOf(i)
  }

  /** The latest start of any agent session, or 0. */
  function Latest(items: seq<Item>): int {
    if items == [] then 0
    else
      var rest, last := Latest(items[..|items| - 1]), items[|items| - 1];
      if !IsSystem(last) && last.startedAt > rest then last.startedAt else rest
  }

  /** The agent of the first session with the latest start, or nobody. */
  function LatestAgent(items: seq<Item>): string {
    if items == [] then ""
    else
      var rest, last := items[..|items| - 1], items[|items| - 1];
      if !IsSystem(last) && last.startedAt > Latest(rest) then AgentOf(last) else LatestAgent(rest)
  }

  /** What the totals mean: sums over all items, agents and latest start over the agents' items. */
  ghost predicate Summarizes(s: Summary, items: seq<Item>) {
    && (forall m: Measure :: SummaryOf(s, m) == Total(items, m))
    && s.agents == AgentSet(items)
    && s.latestStartedAt == Latest(items) && s.latestAgent == LatestAgent(items)
  }

  function Added(s: Summary, item: Item): Summary {
    var counted := s.(sessions := s.sessions + 1,
                      inputTokens := s.inputTokens + item.inputTokens,
                      outputTokens := s.outputTokens + item.outputTokens,
                      toolCalls := s.toolCalls + (item.toolCalls + item.mcpToolCalls),
                      eventCount := s.eventCount + item.eventCount);
    if IsSystem(item) then counted
    else counted.(agents := s.agents + {AgentOf(item)},
                  latestStartedAt := if item.startedAt > s.latestStartedAt then item.startedAt else s.latestStartedAt,
                  latestAgent := if item.startedAt > s.latestStartedAt then AgentOf(item) else s.latestAgent)
  }

  lemma TotalStep(items: seq<Item>, item: Item, m: Measure)
    ensures Total(items + [item], m) == Total(items, m) + Of(item, m)
  {
    assert (items + [item])[..|items|] == items;
  }

  lemma AgentSetStep(items: seq<Item>, item: Item)
    ensures AgentSet(items + [item]) == if IsSystem(item) then AgentSet(items) else AgentSet(items) + {AgentOf(item)}
  {
    assert forall i :: i in items + [item] <==> i in items || i == item;
  }

  lemma LatestStep(items: seq<Item>, item: Item)
    ensures Latest(items + [item]) ==
            if !IsSystem(item) && item.startedAt > Latest(items) then item.startedAt else Latest(items)
    ensures LatestAgent(items + [item]) ==
            if !IsSystem(item) && item.startedAt > Latest(items) then AgentOf(item) else LatestAgent(items)
  {
    assert (items + [item])[..|items|] == items;
  }

  lemma AddedCounts(s: Summary, item: Item, m: Measure)
    ensures SummaryOf(Added(s, item), m) == SummaryOf(s, m) + Of(item, m)
  {
  }

  lemma AddedLatest(s: Summary, items: seq<Item>, item: Item)
    requires s.agents == AgentSet(items) && s.latestStartedAt == Latest(items) && s.latestAgent == LatestAgent(items)
    ensures Added(s, item).agents == AgentSet(items + [item])
    ensures Added(s, item).latestStartedAt == Latest(items + [item]) && Added(s, item).latestAgent == LatestAgent(items + [item])
  {
    AgentSetStep(items, item);
    LatestStep(items, item);
  }

  lemma AddedSummarizes(s: Summary, items: seq<Item>, item: Item)
    requires Summarizes(s, items)
    ensures Summarizes(Added(s, item), items + [item])
  {
    forall m: Measure
      ensures SummaryOf(Added(s, item), m) == Total(items + [item], m)
    {
      TotalStep(items, item, m);
      AddedCounts(s, item, m);
      assert SummaryOf(s, m) == Total(items, m);
    }
    AddedLatest(s, items, item);
  }

  method Summarize(items: seq<Item>) returns (s: Summary)
    ensures Summarizes(s, items)
  {
    s := Summary(0, {}, 0, 0, 0, 0, 0, "");
    for n := 0 to |items|
      invariant Summarizes(s, items[..n])
    {
      var item := items[n];
      ghost var was := s;
      s := s.(sessions := s.sessions + 1,
              inputTokens := s.inputTokens + item.inputTokens,
              outputTokens := s.outputTokens + item.outputTokens,
              toolCalls := s.toolCalls + (item.toolCalls + item.mcpToolCalls),
              eventCount := s.eventCount + item.eventCount);
      var isSystem := IsSystem(item);
      if !isSystem {
        s := s.(agents := s.agents + {AgentOf(item)});
      }
      if !isSystem && item.startedAt > s.latestStartedAt {
        s := s.(latestStartedAt := item.startedAt, latestAgent := AgentOf(item));
      }
      assert s == Added(was, item);
      AddedSummarizes(was, items[..n], item);
      assert items[..n + 1] == items[..n] + [item];
    }
    assert items[..|items|] == items;
  }

  // ---------------------------------------------------------------- groups

  datatype Group = Group(agent: string, sessions: seq<Item>, models: set<string>, sessionCount: int,
                         inputTokens: int, outputTokens: int, toolCalls: int, eventCount: int, lastStartedAt: int)

  function GroupOf(g: Group, m: Measure): int {
    match m
    case Count => g.sessionCount
    case InputTokens => g.inputTokens
    case OutputTokens => g.outputTokens
    case ToolCalls => g.toolCalls
    case Events => g.eventCount
  }

  /** The sessions of one agent, in order. */
  function Mine(items: seq<Item>, agent: string): seq<Item> {
    if items == [] then []
    else
      var rest, last := Mine(items[..|items| - 1], agent), items[|items| - 1];
      if Owns(agent, last) then rest + [last] else rest
  }

  predicate Owns(agent: string, i: Item) {
    !IsSystem(i) && AgentOf(i) == agent
  }

  /** The agents in the order in which they first appear. */
  function Agents(items: seq<Item>): seq<string> {
    if items == [] then []
    else
      var rest, last := Agents(items[..|items| - 1]), items[|items| - 1];
      if IsSystem(last) || AgentOf(last) in rest then rest else rest + [AgentOf(last)]
  }

  function ModelSet(items: seq<Item>): set<string> {
    set i | i in items && i.model != "" :: i.model
  }

  function MakeGroup(agent: string, mine: seq<Item>): Group {
    Group(agent, mine, ModelSet(mine), Total(mine, Count), Total(mine, InputTokens), Total(mine, OutputTokens),
          Total(mine, ToolCalls), Total(mine, Events), Latest(mine))
  }

  function GroupsFor(agents: seq<string>, items: seq<Item>): seq<Group> {
    seq(|agents|, i requires 0 <= i < |agents| => MakeGroup(agents[i], Mine(items, agents[i])))
  }

  function Grouped(items: seq<Item>): seq<Group> {
    GroupsFor(Agents(items), items)
  }

  function SortKey(): Group -> int {
    (g: Group) => g.lastStartedAt
  }

  /** The groups as the page lists them, most recent first. */
  function Listed(items: seq<Item>): seq<Group> {
    StableSort.SortDescending(Grouped(items), SortKey())
  }

  function Extended(g: Group, item: Item): Group {
    g.(sessions := g.sessions + [item],
       models := if item.model != "" then g.models + {item.model} else g.models,
       sessionCount := g.sessionCount + 1,
       inputTokens := g.inputTokens + item.inputTokens,
       outputTokens := g.outputTokens + item.outputTokens,
       toolCalls := g.toolCalls + (item.toolCalls + item.mcpToolCalls),
       eventCount := g.eventCount + item.eventCount,
       lastStartedAt := if item.startedAt > g.lastStartedAt then item.startedAt else g.lastStartedAt)
  }

  lemma ExtendedIsMade(agent: string, mine: seq<Item>, item: Item)
    requires !IsSystem(item)
    ensures Extended(MakeGroup(agent, mine), item) == MakeGroup(agent, mine + [item])
  {
    var more := mine + [item];
    assert more[..|more| - 1] == mine;
    assert ModelSet(more) == ModelSet(mine) + ModelSet([item]);
  }

  lemma {:induction false} AgentsAreDistinct(items: seq<Item>)
    ensures forall i, j :: 0 <= i < j < |Agents(items)| ==> Agents(items)[i] != Agents(items)[j]
    ensures forall a :: a in Agents(items) <==> a in AgentSet(items)
  {
    if items != [] {
      var rest, last := items[..|items| - 1], items[|items| - 1];
      AgentsAreDistinct(rest);
      assert items == rest + [last];
      assert forall i :: i in items <==> i in rest || i == last;
    }
  }

  lemma {:induction false} NoneMine(items: seq<Item>, agent: string)
    requires agent !in Agents(items)
    ensures Mine(items, agent) == []
  {
    if items != [] {
      NoneMine(items[..|items| - 1], agent);
    }
  }

  lemma MineStep(items: seq<Item>, item: Item, agent: string)
    ensures Mine(items + [item], agent) == if Owns(agent, item) then Mine(items, agent) + [item] else Mine(items, agent)
  {
    assert (items + [item])[..|items|] == items;
  }

  lemma GroupsForOthers(agents: seq<string>, items: seq<Item>, item: Item)
    requires forall i :: 0 <= i < |agents| ==> !Owns(agents[i], item)
    ensures GroupsFor(agents, items + [item]) == GroupsFor(agents, items)
  {
    forall i | 0 <= i < |agents|
      ensures GroupsFor(agents, items + [item])[i] == GroupsFor(agents, items)[i]
    {
      MineStep(items, item, agents[i]);
    }
  }

  lemma GroupsForOwner(agents: seq<string>, items: seq<Item>, item: Item, at: nat)
    requires at < |agents| && Owns(agents[at], item)
    requires forall i :: 0 <= i < |agents| && i != at ==> agents[i] != agents[at]
    ensures GroupsFor(agents, items + [item]) == GroupsFor(agents, items)[at := Extended(GroupsFor(agents, items)[at], item)]
  {
    var old', new' := GroupsFor(agents, items), GroupsFor(agents, items + [item]);
    forall i | 0 <= i < |agents|
      ensures new'[i] == if i == at then Extended(old'[at], item) else old'[i]
    {
      MineStep(items, item, agents[i]);
      if i == at {
        ExtendedIsMade(agents[at], Mine(items, agents[at]), item);
      }
    }
  }

  lemma AgentsStep(items: seq<Item>, item: Item)
    ensures Agents(items + [item]) ==
            if IsSystem(item) || AgentOf(item) in Agents(items) then Agents(items) else Agents(items) + [AgentOf(item)]
  {
    assert (items + [item])[..|items|] == items;
  }

  /** An item of an agent that has a group goes to the end of that group. */
  lemma GroupedJoins(items: seq<Item>, item: Item, at: nat)
    requires !IsSystem(item) && at < |Agents(items)| && Agents(items)[at] == AgentOf(item)
    ensures Grouped(items + [item]) == Grouped(items)[at := Extended(Grouped(items)[at], item)]
  {
    var agents := Agents(items);
    AgentsStep(items, item);
    assert agents[at] in agents;
    forall i | 0 <= i < |agents| && i != at
      ensures agents[i] != agents[at]
    {
      AgentsAreDistinct(items);
    }
    GroupsForOwner(agents, items, item, at);
  }

  lemma GroupsForSnoc(agents: seq<string>, agent: string, items: seq<Item>)
    ensures GroupsFor(agents + [agent], items) == GroupsFor(agents, items) + [MakeGroup(agent, Mine(items, agent))]
  {
  }

  /** An item of an agent without a group opens one after all others. */
  lemma GroupedOpens(items: seq<Item>, item: Item)
    requires !IsSystem(item) && AgentOf(item) !in Agents(items)
    ensures Grouped(items + [item]) == Grouped(items) + [Extended(MakeGroup(AgentOf(item), []), item)]
  {
    var agents, k := Agents(items), AgentOf(item);
    AgentsStep(items, item);
    GroupsForSnoc(agents, k, items + [item]);
    forall i | 0 <= i < |agents|
      ensures !Owns(agents[i], item)
    {
      assert agents[i] in agents;
    }
    GroupsForOthers(agents, items, item);
    NoneMine(items, k);
    MineStep(items, item, k);
    ExtendedIsMade(k, [], item);
  }

  lemma GroupedSkips(items: seq<Item>, item: Item)
    requires IsSystem(item)
    ensures Grouped(items + [item]) == Grouped(items)
  {
    AgentsStep(items, item);
    GroupsForOthers(Agents(items), items, item);
  }

  function Position(agents: seq<string>, agent: string): (at: nat)
    ensures at <= |agents|
    ensures at < |agents| ==> agents[at] == agent
    ensures at == |agents| ==> agent !in agents
  {
    if agents == [] || agents[0] == agent then 0 else 1 + Position(agents[1..], agent)
  }

  method FindGroup(grouped: seq<Group>, agent: string) returns (at: nat)
    ensures at <= |grouped|
    ensures at < |grouped| ==> grouped[at].agent == agent
    ensures at == |grouped| ==> forall i :: 0 <= i < |grouped| ==> grouped[i].agent != agent
  {
    at := 0;
    while at < |grouped| && grouped[at].agent != agent
      invariant at <= |grouped|
      invariant forall i :: 0 <= i < at ==> grouped[i].agent != agent
    {
      at := at + 1;
    }
  }

  /** Fills the map of groups, kept in insertion order. */
  method BuildGroups(items: seq<Item>) returns (grouped: seq<Group>)
    ensures grouped == Grouped(items)
  {
    grouped := [];
    for n := 0 to |items|
      invariant grouped == Grouped(items[..n])
    {
      var item := items[n];
      assert items[..n + 1] == items[..n] + [item];
      if IsSystem(item) {
        GroupedSkips(items[..n], item);
      } else {
        var key := AgentOf(item);
        var at := FindGroup(grouped, key);
        assert forall i :: 0 <= i < |grouped| ==> grouped[i].agent == Agents(items[..n])[i];
        if at < |grouped| {
          GroupedJoins(items[..n], item, at);
        } else {
          GroupedOpens(items[..n], item);
          grouped := grouped + [Group(key, [], {}, 0, 0, 0, 0, 0, 0)];
          assert grouped[at] == MakeGroup(key, []);
        }
        grouped := grouped[at := Extended(grouped[at], item)];
      }
    }
    assert items[..|items|] == items;
  }

  // ---------------------------------------------------------------- the two agree

  function GroupTotal(gs: seq<Group>, m: Measure): int {
    if gs == [] then 0 else GroupOf(gs[0], m) + GroupTotal(gs[1..], m)
  }

  function SystemItems(items: seq<Item>): seq<Item> {
    if items == [] then []
    else
      var rest, last := SystemItems(items[..|items| - 1]), items[|items| - 1];
      if IsSystem(last) then rest + [last] else rest
  }

  lemma {:induction false} GroupTotalSplits(a: seq<Group>, b: seq<Group>, m: Measure)
    ensures GroupTotal(a + b, m) == GroupTotal(a, m) + GroupTotal(b, m)
  {
    if a == [] {
      assert a + b == b;
    } else {
      assert (a + b)[1..] == a[1..] + b;
      GroupTotalSplits(a[1..], b, m);
    }
  }

  lemma GroupTotalUpdates(gs: seq<Group>, i: nat, g: Group, m: Measure)
    requires i < |gs|
    ensures GroupTotal(gs[i := g], m) == GroupTotal(gs, m) - GroupOf(gs[i], m) + GroupOf(g, m)
  {
    var a, b := gs[..i], gs[i + 1..];
    assert gs == a + ([gs[i]] + b) && gs[i := g] == a + ([g] + b);
    GroupTotalSplits(a, [gs[i]] + b, m);
    GroupTotalSplits(a, [g] + b, m);
    assert ([gs[i]] + b)[1..] == b && ([g] + b)[1..] == b;
  }

  lemma ExtendedAdds(g: Group, item: Item, m: Measure)
    ensures GroupOf(Extended(g, item), m) == GroupOf(g, m) + Of(item, m)
  {
  }

  lemma {:induction false} GroupedTotals(items: seq<Item>, m: Measure)
    ensures Total(items, m) == GroupTotal(Grouped(items), m) + Total(SystemItems(items), m)
  {
    if items != [] {
      var rest, last := items[..|items| - 1], items[|items| - 1];
      assert items == rest + [last];
      GroupedTotals(rest, m);
      var g, k, at := Grouped(rest), AgentOf(last), Position(Agents(rest), AgentOf(last));
      if IsSystem(last) {
        GroupedSkips(rest, last);
        var s := SystemItems(rest);
        assert (s + [last])[..|s|] == s;
        return;
      }
      if at < |g| {
        GroupedJoins(rest, last, at);
        GroupTotalUpdates(g, at, Extended(g[at], last), m);
        ExtendedAdds(g[at], last, m);
      } else {
        GroupedOpens(rest, last);
        var added := Extended(MakeGroup(k, []), last);
        GroupTotalSplits(g, [added], m);
        ExtendedAdds(MakeGroup(k, []), last, m);
        assert GroupTotal([added], m) == GroupOf(added, m) + GroupTotal([], m);
      }
    }
  }

  lemma {:induction false} SortKeepsTotal(gs: seq<Group>, m: Measure)
    ensures GroupTotal(StableSort.SortDescending(gs, SortKey()), m) == GroupTotal(gs, m)
  {
    if gs != [] {
      SortKeepsTotal(gs[1..], m);
      InsertKeepsTotal(gs[0], StableSort.SortDescending(gs[1..], SortKey()), m);
    }
  }

  lemma {:induction false} InsertKeepsTotal(g: Group, gs: seq<Group>, m: Measure)
    ensures GroupTotal(StableSort.Insert(g, gs, SortKey()), m) == GroupOf(g, m) + GroupTotal(gs, m)
  {
    if gs != [] && SortKey()(gs[0]) > SortKey()(g) {
      InsertKeepsTotal(g, gs[1..], m);
    }
  }

  /** Every total equals the sum over the listed groups plus the system's own sessions. */
  lemma TotalsAgree(items: seq<Item>, m: Measure)
    ensures Total(items, m) == GroupTotal(Listed(items), m) + Total(SystemItems(items), m)
  {
    GroupedTotals(items, m);
    SortKeepsTotal(Grouped(items), m);
  }

  lemma {:induction false} DistinctCount(xs: seq<string>)
    requires forall i, j :: 0 <= i < j < |xs| ==> xs[i] != xs[j]
    ensures |set x | x in xs| == |xs|
  {
    if xs != [] {
      DistinctCount(xs[1..]);
      assert (set x | x in xs) == {xs[0]} + (set x | x in xs[1..]);
    }
  }

  lemma ListedIsRearranged(items: seq<Item>)
    ensures multiset(Listed(items)) == multiset(Grouped(items))
    ensures |Listed(items)| == |Agents(items)|
    ensures forall g :: g in Listed(items) <==> g in Grouped(items)
    ensures StableSort.Descending(Listed(items), SortKey())
  {
    StableSort.SortIsStable(Grouped(items), SortKey());
    assert |multiset(Listed(items))| == |multiset(Grouped(items))|;
    assert forall g :: g in Listed(items) <==> g in multiset(Listed(items));
    assert forall g :: g in Grouped(items) <==> g in multiset(Grouped(items));
  }

  /** The number of agents counted is the number of groups listed. */
  lemma AgentCountsAgree(items: seq<Item>)
    ensures |AgentSet(items)| == |Listed(items)|
  {
    AgentsAreDistinct(items);
    DistinctCount(Agents(items));
    assert (set a | a in Agents(items)) == AgentSet(items);
    ListedIsRearranged(items);
  }

  /** The items that belong to an agent, in order. */
  function AgentItems(items: seq<Item>): seq<Item> {
    if items == [] then []
    else
      var rest, last := AgentItems(items[..|items| - 1]), items[|items| - 1];
      if IsSystem(last) then rest else rest + [last]
  }

  function Members(gs: seq<Group>): multiset<Item> {
    if gs == [] then multiset{} else multiset(gs[0].sessions) + Members(gs[1..])
  }

  lemma {:induction false} MembersSplit(a: seq<Group>, b: seq<Group>)
    ensures Members(a + b) == Members(a) + Members(b)
  {
    if a == [] {
      assert a + b == b;
    } else {
      assert (a + b)[1..] == a[1..] + b;
      MembersSplit(a[1..], b);
    }
  }

  lemma MembersUpdate(gs: seq<Group>, i: nat, item: Item)
    requires i < |gs|
    ensures Members(gs[i := Extended(gs[i], item)]) == Members(gs) + multiset{item}
  {
    var a, b, g := gs[..i], gs[i + 1..], Extended(gs[i], item);
    assert gs == a + ([gs[i]] + b) && gs[i := g] == a + ([g] + b);
    MembersSplit(a, [gs[i]] + b);
    MembersSplit(a, [g] + b);
    assert ([gs[i]] + b)[1..] == b && ([g] + b)[1..] == b;
  }

  lemma {:induction false} GroupedMembers(items: seq<Item>)
    ensures Members(Grouped(items)) == multiset(AgentItems(items))
  {
    if items != [] {
      var rest, last := items[..|items| - 1], items[|items| - 1];
      assert items == rest + [last];
      GroupedMembers(rest);
      var g, k, at := Grouped(rest), AgentOf(last), Position(Agents(rest), AgentOf(last));
      if IsSystem(last) {
        GroupedSkips(rest, last);
      } else {
        if at < |g| {
          GroupedJoins(rest, last, at);
          MembersUpdate(g, at, last);
        } else {
          GroupedOpens(rest, last);
          var added := Extended(MakeGroup(k, []), last);
          MembersSplit(g, [added]);
          assert [added][1..] == [];
          assert Members([added]) == multiset([last]);
        }
      }
    }
  }

  lemma {:induction false} InsertKeepsMembers(g: Group, gs: seq<Group>)
    ensures Members(StableSort.Insert(g, gs, SortKey())) == multiset(g.sessions) + Members(gs)
  {
    if gs != [] && SortKey()(gs[0]) > SortKey()(g) {
      InsertKeepsMembers(g, gs[1..]);
    }
  }

  lemma {:induction false} SortKeepsMembers(gs: seq<Group>)
    ensures Members(StableSort.SortDescending(gs, SortKey())) == Members(gs)
  {
    if gs != [] {
      SortKeepsMembers(gs[1..]);
      InsertKeepsMembers(gs[0], StableSort.SortDescending(gs[1..], SortKey()));
    }
  }

  lemma ListedGroupIsOwn(items: seq<Item>, g: Group)
    requires g in Listed(items)
    ensures g.agent in AgentSet(items) && g.sessions == Mine(items, g.agent)
  {
    ListedIsRearranged(items);
    AgentsAreDistinct(items);
    var i :| 0 <= i < |Grouped(items)| && Grouped(items)[i] == g;
    assert Agents(items)[i] in Agents(items);
  }

  lemma AgentHasGroup(items: seq<Item>, a: string)
    requires a in AgentSet(items)
    ensures exists g :: g in Listed(items) && g.agent == a
  {
    ListedIsRearranged(items);
    AgentsAreDistinct(items);
    var i :| 0 <= i < |Agents(items)| && Agents(items)[i] == a;
    var g := Grouped(items)[i];
    assert g in Grouped(items) && g.agent == a;
  }

  /**
    The groups partition the agent sessions: each group holds exactly its own agent's
    sessions in their order, and together they hold every agent session exactly once.
   */
  lemma GroupsPartition(items: seq<Item>)
    ensures Members(Listed(items)) == multiset(AgentItems(items))
    ensures forall g :: g in Listed(items) ==> g.agent in AgentSet(items) && g.sessions == Mine(items, g.agent)
    ensures forall a :: a in AgentSet(items) ==> exists g :: g in Listed(items) && g.agent == a
  {
    GroupedMembers(items);
    SortKeepsMembers(Grouped(items));
    forall g | g in Listed(items)
      ensures g.agent in AgentSet(items) && g.sessions == Mine(items, g.agent)
    {
      ListedGroupIsOwn(items, g);
    }
    forall a | a in AgentSet(items)
      ensures exists g :: g in Listed(items) && g.agent == a
    {
      AgentHasGroup(items, a);
    }
  }

  /** `max` bounds the start times of all groups, and is one of them or 0. */
  predicate IsLatest(gs: seq<Group>, max: int) {
    && (forall g :: g in gs ==> g.lastStartedAt <= max)
    && (max == 0 || exists g :: g in gs && g.lastStartedAt == max)
  }

  lemma {:induction false} LatestOfMine(items: seq<Item>, agent: string)
    ensures 0 <= Latest(Mine(items, agent)) <= Latest(items)
  {
    if items != [] {
      var rest, last := items[..|items| - 1], items[|items| - 1];
      LatestOfMine(rest, agent);
      assert items == rest + [last];
      MineStep(rest, last, agent);
      LatestStep(rest, last);
      LatestStep(Mine(rest, agent), last);
    }
  }

  lemma {:induction false} LatestIsSomeones(items: seq<Item>) returns (agent: string)
    ensures Latest(items) > 0 ==> agent in AgentSet(items) && Latest(Mine(items, agent)) == Latest(items)
  {
    agent := "";
    if items != [] {
      var rest, last := items[..|items| - 1], items[|items| - 1];
      assert items == rest + [last];
      agent := LatestIsSomeones(rest);
      if !IsSystem(last) && last.startedAt > Latest(rest) {
        agent := AgentOf(last);
        assert last in items;
      }
      MineStep(rest, last, agent);
      LatestStep(rest, last);
      LatestStep(Mine(rest, agent), last);
      LatestOfMine(rest, agent);
    }
  }

  lemma SortedFirstIsMax(gs: seq<Group>, max: int)
    requires StableSort.Descending(gs, SortKey()) && IsLatest(gs, max) && gs != []
    requires forall g :: g in gs ==> g.lastStartedAt >= 0
    ensures gs[0].lastStartedAt == max
  {
    assert gs[0] in gs;
    if max != 0 {
      var g :| g in gs && g.lastStartedAt == max;
      var i :| 0 <= i < |gs| && gs[i] == g;
      assert SortKey()(gs[0]) >= SortKey()(gs[i]);
    }
  }

  /** The start time of a listed group is that of its agent's latest session. */
  lemma ListedStart(items: seq<Item>, g: Group)
    requires g in Listed(items)
    ensures g.lastStartedAt == Latest(Mine(items, g.agent))
  {
    ListedIsRearranged(items);
    assert g in Grouped(items);
  }

  /**
    The latest start in the totals is the maximum over the groups, and when there is any
    group it is the start time of the group listed first.
   */
  lemma LatestAgrees(items: seq<Item>)
    ensures IsLatest(Listed(items), Latest(items))
    ensures Listed(items) != [] ==> Listed(items)[0].lastStartedAt == Latest(items)
  {
    var gs := Listed(items);
    forall g | g in gs
      ensures 0 <= g.lastStartedAt <= Latest(items)
    {
      ListedStart(items, g);
      LatestOfMine(items, g.agent);
    }
    LatestOfMine(items, "");
    if Latest(items) > 0 {
      var agent := LatestIsSomeones(items);
      GroupsPartition(items);
      var g :| g in gs && g.agent == agent;
      ListedStart(items, g);
    }
    assert IsLatest(gs, Latest(items));
    ListedIsRearranged(items);
    if gs != [] {
      SortedFirstIsMax(gs, Latest(items));
    }
  }

  /** The agent named in the totals has the latest start; nobody is named exactly when there is none. */
  lemma {:induction false} LatestAgentIsLatest(items: seq<Item>)
    ensures Latest(items) >= 0
    ensures if Latest(items) > 0
            then LatestAgent(items) in AgentSet(items) && Latest(Mine(items, LatestAgent(items))) == Latest(items)
            else LatestAgent(items) == ""
  {
    if items != [] {
      var rest, last := items[..|items| - 1], items[|items| - 1];
      assert items == rest + [last];
      LatestAgentIsLatest(rest);
      LatestStep(rest, last);
      AgentSetStep(rest, last);
      var agent := LatestAgent(items);
      MineStep(rest, last, agent);
      LatestStep(Mine(rest, agent), last);
      LatestOfMine(rest, agent);
    }
  }

  lemma {:induction false} AgentsHaveNames(items: seq<Item>)
    ensures "" !in Agents(items)
  {
    if items != [] {
      AgentsHaveNames(items[..|items| - 1]);
    }
  }

  /** The `k`-th agent is the first to reach the latest start over its sessions. */
  predicate IsFirstAtLatest(items: seq<Item>, k: nat) {
    && k < |Agents(items)|
    && Latest(Mine(items, Agents(items)[k])) == Latest(items)
    && forall j :: 0 <= j < k ==> Latest(Mine(items, Agents(items)[j])) < Latest(items)
  }

  /** The group listed first is that of the earliest agent among those that reach the latest start. */
  lemma FirstListed(items: seq<Item>, k: nat)
    requires IsFirstAtLatest(items, k)
    ensures Listed(items) != [] && Listed(items)[0].agent == Agents(items)[k]
  {
    var gs := Grouped(items);
    forall j | 0 <= j < |gs|
      ensures SortKey()(gs[j]) == Latest(Mine(items, Agents(items)[j])) <= Latest(items)
    {
      LatestOfMine(items, Agents(items)[j]);
    }
    StableSort.SortStartsWithFirstLargest(gs, SortKey(), k);
  }

  lemma {:induction false} FirstOfLargest(xs: seq<int>, max: int, n: nat) returns (k: nat)
    requires n < |xs| && xs[n] == max && forall j :: 0 <= j < |xs| ==> xs[j] <= max
    ensures k <= n && xs[k] == max && forall j :: 0 <= j < k ==> xs[j] < max
  {
    k := n;
    if j :| 0 <= j < n && xs[j] == max {
      k := FirstOfLargest(xs, max, j);
    }
  }

  lemma FirstAtLatestExists(items: seq<Item>, n: nat) returns (k: nat)
    requires n < |Agents(items)| && Latest(Mine(items, Agents(items)[n])) == Latest(items)
    ensures k <= n && IsFirstAtLatest(items, k)
  {
    var agents := Agents(items);
    var starts := seq(|agents|, j requires 0 <= j < |agents| => Latest(Mine(items, agents[j])));
    forall j | 0 <= j < |starts|
      ensures starts[j] <= Latest(items)
    {
      LatestOfMine(items, agents[j]);
    }
    k := FirstOfLargest(starts, Latest(items), n);
    assert forall j :: 0 <= j < |agents| ==> starts[j] == Latest(Mine(items, agents[j]));
  }

  lemma NobodyIsNotListed(items: seq<Item>)
    requires Listed(items) != []
    ensures Listed(items)[0].agent != ""
  {
    ListedGroupIsOwn(items, Listed(items)[0]);
    AgentsAreDistinct(items);
    AgentsHaveNames(items);
  }

  lemma FirstAtLatestIsUnique(items: seq<Item>, k: nat, n: nat)
    requires IsFirstAtLatest(items, k) && k <= n < |Agents(items)|
    ensures IsFirstAtLatest(items, n) <==> k == n
  {
  }

  /** With a latest start the first group is the named agent's exactly when that agent is the first to reach it. */
  lemma NamedAgentIsFirstExactlyWhen(items: seq<Item>, n: nat)
    requires n < |Agents(items)| && Latest(Mine(items, Agents(items)[n])) == Latest(items)
    ensures Listed(items) != [] && (Agents(items)[n] == Listed(items)[0].agent <==> IsFirstAtLatest(items, n))
  {
    var k := FirstAtLatestExists(items, n);
    FirstListed(items, k);
    FirstAtLatestIsUnique(items, k, n);
    AgentsAreDistinct(items);
  }

  /**
    The agent named in the totals is that of the group listed first exactly when somebody has a
    start at all, and no agent that appears before it reaches the same latest start.
   */
  lemma LatestAgentAgreesExactlyWhen(items: seq<Item>)
    requires Listed(items) != []
    ensures LatestAgent(items) == Listed(items)[0].agent <==>
            Latest(items) > 0 && IsFirstAtLatest(items, Position(Agents(items), LatestAgent(items)))
  {
    LatestAgentIsLatest(items);
    if Latest(items) > 0 {
      AgentsAreDistinct(items);
      NamedAgentIsFirstExactlyWhen(items, Position(Agents(items), LatestAgent(items)));
    } else {
      NobodyIsNotListed(items);
    }
  }

  /** Two agents that reach the same latest start: the totals name one, the list starts with the other. */
  lemma LatestAgentDiffers(a: Item, b: Item)
    requires !IsSystem(a) && !IsSystem(b) && AgentOf(a) != AgentOf(b)
    requires a.startedAt == b.startedAt > 1
    ensures LatestAgent([b.(startedAt := 1), a, b]) == AgentOf(a)
    ensures Listed([b.(startedAt := 1), a, b]) != [] && Listed([b.(startedAt := 1), a, b])[0].agent == AgentOf(b)
  {
    var first := b.(startedAt := 1);
    var one, two, items := [first], [first, a], [first, a, b];
    assert [] + [first] == one && one + [a] == two && two + [b] == items;
    LatestStep([], first);
    LatestStep(one, a);
    LatestStep(two, b);
    AgentsStep([], first);
    AgentsStep(one, a);
    AgentsStep(two, b);
    assert Agents(items)[0] == AgentOf(b);
    MineStep([], first, AgentOf(b));
    MineStep(one, a, AgentOf(b));
    MineStep(two, b, AgentOf(b));
    LatestStep([], first);
    LatestStep(one, b);
    FirstListed(items, 0);
  }

  // ---------------------------------------------------------------- what is counted

  function Sum(xs: seq<int>): int {
    if xs == [] then 0 else Sum(xs[..|xs| - 1]) + xs[|xs| - 1]
  }

  function Column(items: seq<Item>, column: Item -> int): seq<int> {
    seq(|items|, i requires 0 <= i < |items| => column(items[i]))
  }

  lemma ColumnStep(items: seq<Item>, column: Item -> int)
    requires items != []
    ensures Sum(Column(items, column)) == Sum(Column(items[..|items| - 1], column)) + column(items[|items| - 1])
  {
    assert Column(items, column)[..|items| - 1] == Column(items[..|items| - 1], column);
  }

  /** The totals are the sums of their columns; tool calls are counted over both kinds. */
  lemma {:induction false} TotalsAreColumnSums(items: seq<Item>)
    ensures Total(items, Count) == |items|
    ensures Total(items, InputTokens) == Sum(Column(items, (i: Item) => i.inputTokens))
    ensures Total(items, OutputTokens) == Sum(Column(items, (i: Item) => i.outputTokens))
    ensures Total(items, Events) == Sum(Column(items, (i: Item) => i.eventCount))
    ensures Total(items, ToolCalls) ==
      Sum(Column(items, (i: Item) => i.toolCalls)) + Sum(Column(items, (i: Item) => i.mcpToolCalls))
  {
    if items != [] {
      TotalsAreColumnSums(items[..|items| - 1]);
      ColumnStep(items, (i: Item) => i.inputTokens);
      ColumnStep(items, (i: Item) => i.outputTokens);
      ColumnStep(items, (i: Item) => i.eventCount);
      ColumnStep(items, (i: Item) => i.toolCalls);
      ColumnStep(items, (i: Item) => i.mcpToolCalls);
    }
  }

  /** A listed group carries the totals, the models and the latest start of its own sessions. */
  lemma ListedGroupIsSummed(items: seq<Item>, g: Group)
    requires g in Listed(items)
    ensures forall m: Measure :: GroupOf(g, m) == Total(g.sessions, m)
    ensures g.models == set i | i in g.sessions && i.model != "" :: i.model
    ensures g.lastStartedAt == Latest(g.sessions)
  {
    ListedIsRearranged(items);
    assert g in Grouped(items);
  }

  /** The latest start bounds all starts, and is one of them unless none is positive. */
  lemma {:induction false} LatestIsLargest(items: seq<Item>)
    ensures Latest(items) >= 0
    ensures forall i :: i in items && !IsSystem(i) ==> i.startedAt <= Latest(items)
    ensures Latest(items) > 0 ==> exists i :: i in items && !IsSystem(i) && i.startedAt == Latest(items)
  {
    if items != [] {
      var rest, last := items[..|items| - 1], items[|items| - 1];
      assert items == rest + [last];
      LatestIsLargest(rest);
    }
  }

  predicate IsBlank(s: string) {
    forall i :: 0 <= i < |s| ==> IsSpace(s[i])
  }

  /** The system's sessions are those whose agent is "genesis", in any case and with any white space around. */
  lemma PaddedGenesisIsSystem(i: Item, before: string, core: string, after: string)
    requires i.agent == before + core + after && IsBlank(before) && IsBlank(after) && Lower(core) == "genesis"
    ensures IsSystem(i)
  {
    CoreIsKept(core);
    PaddingIsTrimmed(before, core, after);
  }

  lemma CoreIsKept(core: string)
    requires Lower(core) == "genesis"
    ensures core != "" && !IsSpace(core[0]) && !IsSpace(core[|core| - 1])
  {
    assert Lower(core)[0] == 'g' && Lower(core)[6] == 's';
  }

  lemma {:induction false} LeadingIsTrimmed(before: string, rest: string)
    requires IsBlank(before) && rest != "" && !IsSpace(rest[0])
    ensures TrimLeft(before + rest) == rest
    decreases |before|
  {
    if before == "" {
      assert before + rest == rest;
    } else {
      assert (before + rest)[1..] == before[1..] + rest;
      LeadingIsTrimmed(before[1..], rest);
    }
  }

  lemma PaddingIsTrimmed(before: string, core: string, after: string)
    requires IsBlank(before) && IsBlank(after) && core != "" && !IsSpace(core[0]) && !IsSpace(core[|core| - 1])
    ensures Trim(before + core + after) == core
  {
    assert before + core + after == before + (core + after);
    LeadingIsTrimmed(before, core + after);
    TrimRightOfSum(core, after);
    TrimRightEmpty(after);
  }

  lemma SystemIsPaddedGenesis(i: Item) returns (before: string, core: string, after: string)
    requires IsSystem(i)
    ensures i.agent == before + core + after && IsBlank(before) && IsBlank(after) && Lower(core) == "genesis"
  {
    core := Trim(i.agent);
    var left := TrimLeft(i.agent);
    before, left := TrimLeftCuts(i.agent);
    after := TrimRightCuts(left);
    assert before + core + after == before + (core + after);
  }

  lemma {:induction false} TrimLeftCuts(s: string) returns (before: string, left: string)
    ensures s == before + left && IsBlank(before) && left == TrimLeft(s)
  {
    if s != "" && IsSpace(s[0]) {
      before, left := TrimLeftCuts(s[1..]);
      before := [s[0]] + before;
    } else {
      before, left := "", s;
    }
  }

  lemma {:induction false} TrimRightCuts(s: string) returns (after: string)
    ensures s == TrimRight(s) + after && IsBlank(after)
  {
    if s != "" && IsSpace(s[|s| - 1]) {
      after := TrimRightCuts(s[..|s| - 1]);
      after := after + [s[|s| - 1]];
    } else {
      after := "";
    }
  }

  /** A session without an agent is filed under "unknown", together with those of that name. */
  lemma NamelessIsUnknown(items: seq<Item>, i: Item)
    requires i in items && !IsSystem(i)
    ensures exists g :: g in Listed(items) && g.agent == (if i.agent != "" then i.agent else "unknown")
  {
    AgentHasGroup(items, AgentOf(i));
  }
}
