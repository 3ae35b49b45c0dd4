/** The sessions of the cockpit with their tabs and panels, the active tab, and the layout. */
module Cockpit {
  import opened Basics
  import opened Layouts

  /** A tab or a panel on the page. */
  datatype Element = Element(handle: nat, id: string)

  datatype Entry = Entry(id: string, tab: Element, panel: Element, custom: Option<Slot>)

  /** The session map in insertion order, the tab strip, the panel grid and the manager's fields. */
  datatype Screen = Screen(
    sessions: seq<Entry>, tabs: seq<Element>, grid: seq<Element>,
    active: Option<string>, layout: string, made: nat)

  function Index(sessions: seq<Entry>, id: string): (i: nat)
    ensures i <= |sessions|
    ensures i < |sessions| ==> sessions[i].id == id
    ensures forall j :: 0 <= j < i ==> sessions[j].id != id
  {
    if sessions == [] || sessions[0].id == id then 0 else 1 + Index(sessions[1..], id)
  }

  predicate Has(sessions: seq<Entry>, id: string) {
    Index(sessions, id) < |sessions|
  }

  function Cut<T>(xs: seq<T>, i: nat): (r: seq<T>)
    requires i < |xs|
    ensures |r| == |xs| - 1 && forall j :: 0 <= j < |r| ==> r[j] == if j < i then xs[j] else xs[j + 1]
  {
    xs[..i] + xs[i + 1..]
  }

  /** The elements without the given one. */
  function Without(elements: seq<Element>, e: Element): seq<Element> {
    if elements == [] then []
    else if elements[0] == e then elements[1..]
    else [elements[0]] + Without(elements[1..], e)
  }

  lemma {:induction false} WithoutSkips(elements: seq<Element>, e: Element, i: nat)
    requires i <= |elements| && (i < |elements| ==> elements[i] == e)
    requires forall j :: 0 <= j < i ==> elements[j] != e
    ensures Without(elements, e) == if i < |elements| then Cut(elements, i) else elements
    decreases |elements|
  {
    if i > 0 {
      var x, rest := elements[0], elements[1..];
      WithoutSkips(rest, e, i - 1);
      assert elements == [x] + rest;
      WithoutCons(x, rest, e);
      if i < |elements| {
        CutCons(x, rest, i - 1);
      }
    }
  }

  /** Setting a key of the map keeps its place, or adds it at the end. */
  function Set(sessions: seq<Entry>, e: Entry): seq<Entry> {
    var i := Index(sessions, e.id);
    if i < |sessions| then sessions[i := e] else sessions + [e]
  }

  function Plain(sessions: seq<Entry>): (r: seq<Entry>)
    ensures |r| == |sessions|
    ensures forall i :: 0 <= i < |r| ==> r[i] == sessions[i].(custom := None)
  {
    seq(|sessions|, i requires 0 <= i < |sessions| => sessions[i].(custom := None))
  }

  function WithLayout(c: Screen, layout: string): Screen {
    if Known(layout) then c.(layout := layout, sessions := Plain(c.sessions)) else c
  }

  /** A panel added without a look at the map: editor, system and embedded panels. */
  function PanelAttached(c: Screen, id: string): Screen {
    var tab, panel := Element(c.made, id), Element(c.made + 1, id);
    c.(tabs := c.tabs + [tab], grid := c.grid + [panel], made := c.made + 2, active := Some(id),
       sessions := Set(c.sessions, Entry(id, tab, panel, None)))
  }

  function AutoSplit(c: Screen): Screen {
    if |c.sessions| == 2 && c.layout == "1" then WithLayout(c, "2h") else c
  }

  function Attached(c: Screen, id: string): Screen {
    if Has(c.sessions, id) then c else AutoSplit(PanelAttached(c, id))
  }

  function ChatAttached(c: Screen, id: string): Screen {
    if Has(c.sessions, id) then c.(active := Some(id)) else AutoSplit(PanelAttached(c, id))
  }

  /** The first session takes over; an empty id counts as none. */
  function Successor(sessions: seq<Entry>): Option<string> {
    if sessions == [] || sessions[0].id == "" then None else Some(sessions[0].id)
  }

  function Detached(c: Screen, id: string): Screen {
    var i := Index(c.sessions, id);
    if i == |c.sessions| then c
    else
      var rest := Cut(c.sessions, i);
      c.(sessions := rest, active := Successor(rest),
         tabs := Without(c.tabs, c.sessions[i].tab), grid := Without(c.grid, c.sessions[i].panel))
  }

  function Emptied(c: Screen): Screen {
    c.(sessions := [], tabs := [], grid := [])
  }

  function AttachedAll(c: Screen, ids: seq<string>): Screen
    decreases |ids|
  {
    if ids == [] then c else AttachedAll(Attached(c, ids[0]), ids[1..])
  }

  function ChatAttachedAll(c: Screen, ids: seq<string>): Screen
    decreases |ids|
  {
    if ids == [] then c else ChatAttachedAll(ChatAttached(c, ids[0]), ids[1..])
  }

  function Rebuilt(c: Screen, ids: seq<string>, chats: seq<string>): Screen {
    ChatAttachedAll(AttachedAll(Emptied(c), ids), chats)
  }

  function Restored(c: Screen, ids: seq<string>, chats: seq<string>): Screen {
    var rebuilt := Rebuilt(c, ids, chats);
    WithLayout(rebuilt, rebuilt.layout)
  }

  function Dragged(c: Screen, id: string, slot: Slot): Screen {
    var i := Index(c.sessions, id);
    if i == |c.sessions| then c else c.(sessions := c.sessions[i := c.sessions[i].(custom := Some(slot))])
  }

  // ---------------------------------------------------------------- the manager

  class CockpitManager {
    var sessions: seq<Entry>
    var tabs: seq<Element>
    var grid: seq<Element>
    var activeTab: Option<string>
    var layout: string
    var made: nat

    ghost function View(): Screen
      reads this
    {
      Screen(sessions, tabs, grid, activeTab, layout, made)
    }

    constructor (stored: Option<string>)
      ensures View() == Screen([], [], [], None, if stored.Some? && stored.value != "" then stored.value else "1", 0)
    {
      sessions, tabs, grid, activeTab, made := [], [], [], None, 0;
      layout := if stored.Some? && stored.value != "" then stored.value else "1";
    }

    method Find(id: string) returns (i: nat)
      ensures i == Index(sessions, id)
    {
      i := 0;
      while i < |sessions| && sessions[i].id != id
        invariant i <= |sessions|
        invariant forall j :: 0 <= j < i ==> sessions[j].id != id
      {
        i := i + 1;
      }
    }

    method Remove(elements: seq<Element>, e: Element) returns (rest: seq<Element>)
      ensures rest == Without(elements, e)
    {
      var i := 0;
      while i < |elements| && elements[i] != e
        invariant 0 <= i <= |elements|
        invariant forall j :: 0 <= j < i ==> elements[j] != e
      {
        i := i + 1;
      }
      WithoutSkips(elements, e, i);
      rest := if i < |elements| then elements[..i] + elements[i + 1..] else elements;
    }

    method SetLayout(name: string)
      modifies this
      ensures View() == WithLayout(old(View()), name)
    {
      if !Known(name) {
        return;
      }
      layout := name;
      for i := 0 to |sessions|
        invariant |sessions| == |old(sessions)|
        invariant forall j :: 0 <= j < |sessions| ==>
          sessions[j] == if j < i then old(sessions)[j].(custom := None) else old(sessions)[j]
        invariant tabs == old(tabs) && grid == old(grid) && activeTab == old(activeTab) && made == old(made)
        invariant layout == name
      {
        sessions := sessions[i := sessions[i].(custom := None)];
      }
      assert sessions == Plain(old(sessions));
    }

    method ActivateTab(id: string)
      modifies this
      ensures View() == old(View()).(active := Some(id))
    {
      activeTab := Some(id);
    }

    method AttachPanel(id: string)
      modifies this
      ensures View() == PanelAttached(old(View()), id)
    {
      var tab, panel := Element(made, id), Element(made + 1, id);
      made := made + 2;
      tabs := tabs + [tab];
      grid := grid + [panel];
      var i := Find(id);
      var entry := Entry(id, tab, panel, None);
      sessions := if i < |sessions| then sessions[i := entry] else sessions + [entry];
      ActivateTab(id);
    }

    method AttachSession(id: string)
      modifies this
      ensures View() == Attached(old(View()), id)
    {
      var i := Find(id);
      if i < |sessions| {
        return;
      }
      AttachPanel(id);
      if |sessions| == 2 && layout == "1" {
        SetLayout("2h");
      }
    }

    method AttachChatSession(id: string)
      modifies this
      ensures View() == ChatAttached(old(View()), id)
    {
      var i := Find(id);
      if i < |sessions| {
        ActivateTab(id);
        return;
      }
      AttachPanel(id);
      if |sessions| == 2 && layout == "1" {
        SetLayout("2h");
      }
    }

    method DetachSession(id: string) returns (done: bool)
      modifies this
      ensures View() == Detached(old(View()), id) && done == Has(old(sessions), id)
    {
      var i := Find(id);
      if i == |sessions| {
        return false;
      }
      tabs := Remove(tabs, sessions[i].tab);
      grid := Remove(grid, sessions[i].panel);
      sessions := sessions[..i] + sessions[i + 1..];
      activeTab := if |sessions| > 0 && sessions[0].id != "" then Some(sessions[0].id) else None;
      if activeTab.Some? {
        ActivateTab(activeTab.value);
      }
      done := true;
    }

    /** The part of a restore that follows its replies; a failed reply leaves everything as it is. */
    method RestoreSessions(ids: seq<string>, chats: seq<string>)
      modifies this
      ensures View() == Restored(old(View()), ids, chats)
    {
      sessions, tabs, grid := [], [], [];
      ghost var start := View();
      for i := 0 to |ids|
        invariant AttachedAll(start, ids) == AttachedAll(View(), ids[i..])
      {
        assert ids[i..][0] == ids[i] && ids[i..][1..] == ids[i + 1..];
        AttachSession(ids[i]);
      }
      ghost var middle := View();
      for i := 0 to |chats|
        invariant ChatAttachedAll(middle, chats) == ChatAttachedAll(View(), chats[i..])
      {
        assert chats[i..][0] == chats[i] && chats[i..][1..] == chats[i + 1..];
        AttachChatSession(chats[i]);
      }
      SetLayout(layout);
    }

    method ShowOne(shown: nat) returns (placed: seq<Option<Slot>>)
      ensures placed == Single(|sessions|, shown)
    {
      placed := [];
      for i := 0 to |sessions|
        invariant placed == Single(i, shown)
      {
        placed := placed + [if i == shown then Some(FULL) else None];
      }
    }

    method DealOut(slots: seq<Slot>) returns (placed: seq<Option<Slot>>)
      requires slots != []
      ensures placed == Dealt(sessions, slots)
    {
      placed := [];
      for i := 0 to |sessions|
        invariant |placed| == i
        invariant forall j :: 0 <= j < i ==> placed[j] == Dealt(sessions, slots)[j]
      {
        var custom := sessions[i].custom;
        placed := placed + [if custom.Some? then custom else Some(slots[i % |slots|])];
      }
    }

    /** Where each panel goes, in session order; a panel that is not shown goes nowhere. */
    method ApplyLayout(mobile: bool) returns (placed: seq<Option<Slot>>)
      ensures placed == Placement(View(), mobile)
    {
      var key := if mobile then "1" else layout;
      var slots := DrawnSlots(key);
      if |sessions| == 0 {
        return [];
      }
      if key == "1" {
        var shown := 0;
        if activeTab.Some? {
          var i := Find(activeTab.value);
          shown := if i < |sessions| then i else 0;
        }
        placed := ShowOne(shown);
      } else {
        placed := DealOut(slots);
      }
    }
  }

  /** The session a single-panel layout shows. */
  function ShownIndex(c: Screen): nat {
    if c.active.Some? && Has(c.sessions, c.active.value) then Index(c.sessions, c.active.value) else 0
  }

  function LayoutKey(c: Screen, mobile: bool): string {
    if mobile then "1" else c.layout
  }

  /** One of `n` panels fills the grid, and the others are hidden. */
  function Single(n: nat, shown: nat): (placed: seq<Option<Slot>>)
    ensures |placed| == n && forall i :: 0 <= i < n ==> placed[i] == if i == shown then Some(FULL) else None
  {
    seq(n, i requires 0 <= i < n => if i == shown then Some(FULL) else None)
  }

  /** Every panel is shown, in its own slot if it was resized and else in the next slot in turn. */
  function Dealt(sessions: seq<Entry>, slots: seq<Slot>): (placed: seq<Option<Slot>>)
    requires slots != []
    ensures |placed| == |sessions|
  {
    seq(|sessions|, i requires 0 <= i < |sessions| =>
      if sessions[i].custom.Some? then sessions[i].custom else Some(slots[i % |slots|]))
  }

  function Placement(c: Screen, mobile: bool): (placed: seq<Option<Slot>>)
    ensures |placed| == |c.sessions|
  {
    var key := LayoutKey(c, mobile);
    if key == "1" then Single(|c.sessions|, ShownIndex(c)) else Dealt(c.sessions, DrawnSlots(key))
  }

  // ---------------------------------------------------------------- runs

  datatype Step =
    | Attach(id: string)
    | AttachChat(id: string)
    | AttachPanel(id: string)
    | Detach(id: string)
    | Restore(ids: seq<string>, chats: seq<string>)
    | Activate(id: string)
    | SetLayout(layout: string)
    | Drag(id: string, slot: Slot)

  function Next(c: Screen, s: Step): Screen {
    match s
    case Attach(id) => Attached(c, id)
    case AttachChat(id) => ChatAttached(c, id)
    case AttachPanel(id) => PanelAttached(c, id)
    case Detach(id) => Detached(c, id)
    case Restore(ids, chats) => Restored(c, ids, chats)
    case Activate(id) => c.(active := Some(id))
    case SetLayout(layout) => WithLayout(c, layout)
    case Drag(id, slot) => Dragged(c, id, slot)
  }

  /** The state after the steps, the last of which is taken last. */
  function Run(c: Screen, steps: seq<Step>): Screen {
    if steps == [] then c else Next(Run(c, steps[..|steps| - 1]), steps[|steps| - 1])
  }

  predicate DistinctIds(sessions: seq<Entry>) {
    forall i, j :: 0 <= i < j < |sessions| ==> sessions[i].id != sessions[j].id
  }

  /** Tab strip and panel grid hold the sessions' own elements, in the order of the session map. */
  predicate Aligned(c: Screen) {
    && |c.tabs| == |c.sessions| && |c.grid| == |c.sessions|
    && (forall i :: 0 <= i < |c.sessions| ==>
      && c.tabs[i] == c.sessions[i].tab && c.grid[i] == c.sessions[i].panel
      && c.sessions[i].tab.id == c.sessions[i].id && c.sessions[i].panel.id == c.sessions[i].id)
  }

  predicate Sound(c: Screen) {
    DistinctIds(c.sessions) && Aligned(c)
  }

  function Ids(sessions: seq<Entry>): (ids: seq<string>)
    ensures |ids| == |sessions| && forall i :: 0 <= i < |ids| ==> ids[i] == sessions[i].id
  {
    seq(|sessions|, i requires 0 <= i < |sessions| => sessions[i].id)
  }

  function ElementIds(elements: seq<Element>): (ids: seq<string>)
    ensures |ids| == |elements| && forall i :: 0 <= i < |ids| ==> ids[i] == elements[i].id
  {
    seq(|elements|, i requires 0 <= i < |elements| => elements[i].id)
  }

  // The simple view of the cockpit: a list of ids without repetition.

  function Add(ids: seq<string>, id: string): seq<string> {
    if id in ids then ids else ids + [id]
  }

  function AddAll(ids: seq<string>, more: seq<string>): seq<string>
    decreases |more|
  {
    if more == [] then ids else AddAll(Add(ids, more[0]), more[1..])
  }

  function Drop(ids: seq<string>, id: string): seq<string> {
    if ids == [] then [] else (if ids[0] == id then [] else [ids[0]]) + Drop(ids[1..], id)
  }

  function NextIds(ids: seq<string>, s: Step): seq<string> {
    match s
    case Attach(id) => Add(ids, id)
    case AttachChat(id) => Add(ids, id)
    case AttachPanel(id) => Add(ids, id)
    case Detach(id) => Drop(ids, id)
    case Restore(more, chats) => AddAll(AddAll([], more), chats)
    case Activate(_) => ids
    case SetLayout(_) => ids
    case Drag(_, _) => ids
  }

  function RunIds(ids: seq<string>, steps: seq<Step>): seq<string> {
    if steps == [] then ids else NextIds(RunIds(ids, steps[..|steps| - 1]), steps[|steps| - 1])
  }

  lemma HasIsMember(sessions: seq<Entry>, id: string)
    ensures Has(sessions, id) <==> id in Ids(sessions)
  {
  }

  lemma {:induction false} DropAbsent(ids: seq<string>, id: string)
    requires id !in ids
    ensures Drop(ids, id) == ids
  {
    if ids != [] {
      DropAbsent(ids[1..], id);
    }
  }

  lemma {:induction false} DropIsCut(ids: seq<string>, i: nat)
    requires i < |ids| && forall j, k :: 0 <= j < k < |ids| ==> ids[j] != ids[k]
    ensures Drop(ids, ids[i]) == Cut(ids, i)
  {
    if i == 0 {
      DropAbsent(ids[1..], ids[0]);
    } else {
      DropIsCut(ids[1..], i - 1);
      assert ids[0] != ids[i] && ids[1..][i - 1] == ids[i];
      assert Cut(ids, i) == [ids[0]] + Cut(ids[1..], i - 1);
    }
  }

  lemma CutCons<T>(x: T, xs: seq<T>, i: nat)
    requires i < |xs|
    ensures Cut([x] + xs, i + 1) == [x] + Cut(xs, i)
  {
  }

  lemma WithoutCons(x: Element, elements: seq<Element>, e: Element)
    requires x != e
    ensures Without([x] + elements, e) == [x] + Without(elements, e)
  {
    assert ([x] + elements)[1..] == elements;
  }

  lemma {:induction false} WithoutIsCut(elements: seq<Element>, i: nat)
    requires i < |elements| && forall j, k :: 0 <= j < k < |elements| ==> elements[j].id != elements[k].id
    ensures Without(elements, elements[i]) == Cut(elements, i)
    decreases |elements|
  {
    if i > 0 {
      var x, rest := elements[0], elements[1..];
      WithoutIsCut(rest, i - 1);
      assert elements == [x] + rest && rest[i - 1] == elements[i];
      WithoutCons(x, rest, elements[i]);
      CutCons(x, rest, i - 1);
    }
  }

  lemma PanelAttachedIsSound(c: Screen, id: string)
    requires Sound(c) && !Has(c.sessions, id)
    ensures Sound(PanelAttached(c, id))
    ensures Ids(PanelAttached(c, id).sessions) == Ids(c.sessions) + [id]
  {
  }

  lemma ElementsAreDistinct(c: Screen)
    requires Sound(c)
    ensures forall i, j :: 0 <= i < j < |c.sessions| ==> c.tabs[i].id != c.tabs[j].id && c.grid[i].id != c.grid[j].id
  {
  }

  lemma CutIsSound(c: Screen, c': Screen, i: nat)
    requires Sound(c) && i < |c.sessions|
    requires c'.sessions == Cut(c.sessions, i) && c'.tabs == Cut(c.tabs, i) && c'.grid == Cut(c.grid, i)
    ensures Sound(c') && Ids(c'.sessions) == Cut(Ids(c.sessions), i)
  {
  }

  lemma DetachedIsSound(c: Screen, id: string)
    requires Sound(c)
    ensures Sound(Detached(c, id))
    ensures Ids(Detached(c, id).sessions) == Drop(Ids(c.sessions), id)
  {
    var i := Index(c.sessions, id);
    if i == |c.sessions| {
      DropAbsent(Ids(c.sessions), id);
    } else {
      ElementsAreDistinct(c);
      DropIsCut(Ids(c.sessions), i);
      WithoutIsCut(c.tabs, i);
      WithoutIsCut(c.grid, i);
      CutIsSound(c, Detached(c, id), i);
    }
  }

  lemma WithLayoutIsSound(c: Screen, layout: string)
    requires Sound(c)
    ensures Sound(WithLayout(c, layout)) && Ids(WithLayout(c, layout).sessions) == Ids(c.sessions)
  {
  }

  lemma AttachedIsSound(c: Screen, id: string)
    requires Sound(c)
    ensures Sound(Attached(c, id)) && Ids(Attached(c, id).sessions) == Add(Ids(c.sessions), id)
    ensures Sound(ChatAttached(c, id)) && Ids(ChatAttached(c, id).sessions) == Add(Ids(c.sessions), id)
  {
    HasIsMember(c.sessions, id);
    if !Has(c.sessions, id) {
      PanelAttachedIsSound(c, id);
      WithLayoutIsSound(PanelAttached(c, id), "2h");
    }
  }

  lemma {:induction false} AttachedAllIsSound(c: Screen, ids: seq<string>)
    requires Sound(c)
    ensures Sound(AttachedAll(c, ids)) && Ids(AttachedAll(c, ids).sessions) == AddAll(Ids(c.sessions), ids)
    decreases |ids|
  {
    if ids != [] {
      AttachedIsSound(c, ids[0]);
      AttachedAllIsSound(Attached(c, ids[0]), ids[1..]);
    }
  }

  lemma {:induction false} ChatAttachedAllIsSound(c: Screen, ids: seq<string>)
    requires Sound(c)
    ensures Sound(ChatAttachedAll(c, ids)) && Ids(ChatAttachedAll(c, ids).sessions) == AddAll(Ids(c.sessions), ids)
    decreases |ids|
  {
    if ids != [] {
      AttachedIsSound(c, ids[0]);
      ChatAttachedAllIsSound(ChatAttached(c, ids[0]), ids[1..]);
    }
  }

  /** A restore puts things right from any state whatever. */
  lemma RestoreRepairs(c: Screen, ids: seq<string>, chats: seq<string>)
    ensures Sound(Restored(c, ids, chats))
    ensures Ids(Restored(c, ids, chats).sessions) == AddAll(AddAll([], ids), chats)
  {
    var start := Emptied(c);
    assert Ids(start.sessions) == [];
    AttachedAllIsSound(start, ids);
    var middle := AttachedAll(start, ids);
    ChatAttachedAllIsSound(middle, chats);
    var rebuilt := ChatAttachedAll(middle, chats);
    WithLayoutIsSound(rebuilt, rebuilt.layout);
  }

  /** A panel added unchecked under an id that is taken. */
  predicate Collides(c: Screen, s: Step) {
    s.AttachPanel? && Has(c.sessions, s.id)
  }

  lemma DraggedIsSound(c: Screen, id: string, slot: Slot)
    requires Sound(c)
    ensures Sound(Dragged(c, id, slot)) && Ids(Dragged(c, id, slot).sessions) == Ids(c.sessions)
  {
  }

  /** One step keeps tabs, grid and map together exactly when it does not collide. */
  lemma StepIsSoundExactlyWhen(c: Screen, s: Step)
    requires Sound(c)
    ensures Sound(Next(c, s)) <==> !Collides(c, s)
    ensures !Collides(c, s) ==> Ids(Next(c, s).sessions) == NextIds(Ids(c.sessions), s)
  {
    match s
    case Attach(id) => AttachedIsSound(c, id);
    case AttachChat(id) => AttachedIsSound(c, id);
    case AttachPanel(id) =>
      HasIsMember(c.sessions, id);
      if !Has(c.sessions, id) {
        PanelAttachedIsSound(c, id);
      } else {
        assert |PanelAttached(c, id).sessions| < |PanelAttached(c, id).tabs|;
      }
    case Detach(id) => DetachedIsSound(c, id);
    case Restore(ids, chats) => RestoreRepairs(c, ids, chats);
    case Activate(id) =>
    case SetLayout(layout) => WithLayoutIsSound(c, layout);
    case Drag(id, slot) => DraggedIsSound(c, id, slot);
  }

  /** No step of the run collides. */
  predicate Clean(c: Screen, steps: seq<Step>) {
    forall i :: 0 <= i < |steps| ==> !Collides(Run(c, steps[..i]), steps[i])
  }

  lemma CleanPrefix(c: Screen, steps: seq<Step>, n: nat)
    requires Clean(c, steps) && n <= |steps|
    ensures Clean(c, steps[..n])
  {
    forall i | 0 <= i < n
      ensures !Collides(Run(c, steps[..n][..i]), steps[..n][i])
    {
      assert steps[..n][..i] == steps[..i] && steps[..n][i] == steps[i];
    }
  }

  /**
    After every run the tab strip, the grid and the session map list the same ids in the same
    order, and these are the ids the simple list would hold.
   */
  lemma {:induction false} RunsStayAligned(c: Screen, steps: seq<Step>)
    requires Sound(c) && Clean(c, steps)
    ensures var end, ids := Run(c, steps), RunIds(Ids(c.sessions), steps);
      Sound(end) && Ids(end.sessions) == ids && ElementIds(end.tabs) == ids && ElementIds(end.grid) == ids
    decreases |steps|
  {
    if steps != [] {
      var n := |steps| - 1;
      CleanPrefix(c, steps, n);
      RunsStayAligned(c, steps[..n]);
      StepIsSoundExactlyWhen(Run(c, steps[..n]), steps[n]);
    }
    AlignedIds(Run(c, steps));
  }

  lemma AlignedIds(c: Screen)
    requires Aligned(c)
    ensures ElementIds(c.tabs) == Ids(c.sessions) && ElementIds(c.grid) == Ids(c.sessions)
  {
  }

  // ---------------------------------------------------------------- the active tab

  predicate Focused(c: Screen) {
    c.sessions != [] ==> c.active.Some? && Has(c.sessions, c.active.value)
  }

  /** The step activates a session that is there, and leaves no session with an empty id first. */
  predicate KeepsFocus(c: Screen, s: Step) {
    match s
    case Activate(id) => c.sessions == [] || Has(c.sessions, id)
    case Detach(id) =>
      Has(c.sessions, id) ==>
        var rest := Cut(c.sessions, Index(c.sessions, id));
        rest == [] || rest[0].id != ""
    case _ => true
  }

  lemma AttachedIsFocused(c: Screen, id: string)
    requires Sound(c) && Focused(c)
    ensures Focused(Attached(c, id)) && Focused(ChatAttached(c, id))
  {
    if !Has(c.sessions, id) {
      PanelIsFocused(c, id);
      PlainKeepsHas(PanelAttached(c, id).sessions, id);
    }
  }

  lemma PanelIsFocused(c: Screen, id: string)
    ensures PanelAttached(c, id).active == Some(id) && Has(PanelAttached(c, id).sessions, id)
  {
    var i, sessions := Index(c.sessions, id), PanelAttached(c, id).sessions;
    assert sessions[i].id == id;
  }

  lemma PlainKeepsHas(sessions: seq<Entry>, id: string)
    ensures Has(Plain(sessions), id) <==> Has(sessions, id)
  {
    HasIsMember(sessions, id);
    HasIsMember(Plain(sessions), id);
    assert Ids(sessions) == Ids(Plain(sessions));
  }

  lemma {:induction false} AttachedAllIsFocused(c: Screen, ids: seq<string>)
    requires Sound(c) && Focused(c)
    ensures Focused(AttachedAll(c, ids)) && Focused(ChatAttachedAll(c, ids))
    decreases |ids|
  {
    if ids != [] {
      AttachedIsSound(c, ids[0]);
      AttachedIsFocused(c, ids[0]);
      AttachedAllIsFocused(Attached(c, ids[0]), ids[1..]);
      AttachedAllIsFocused(ChatAttached(c, ids[0]), ids[1..]);
    }
  }

  lemma WithLayoutIsFocused(c: Screen, layout: string)
    requires Focused(c)
    ensures Focused(WithLayout(c, layout))
  {
    if c.active.Some? {
      PlainKeepsHas(c.sessions, c.active.value);
    }
  }

  lemma RestoredIsFocused(c: Screen, ids: seq<string>, chats: seq<string>)
    ensures Focused(Restored(c, ids, chats))
  {
    var start := Emptied(c);
    AttachedAllIsSound(start, ids);
    AttachedAllIsFocused(start, ids);
    var middle := AttachedAll(start, ids);
    AttachedAllIsFocused(middle, chats);
    var rebuilt := ChatAttachedAll(middle, chats);
    WithLayoutIsFocused(rebuilt, rebuilt.layout);
  }

  lemma DraggedIsFocused(c: Screen, id: string, slot: Slot)
    requires Focused(c)
    ensures Focused(Dragged(c, id, slot))
  {
    if c.active.Some? {
      HasIsMember(c.sessions, c.active.value);
      HasIsMember(Dragged(c, id, slot).sessions, c.active.value);
      assert Ids(Dragged(c, id, slot).sessions) == Ids(c.sessions);
    }
  }

  /** One step keeps the active tab among the sessions exactly when it meets the condition above. */
  lemma FocusIsKeptExactlyWhen(c: Screen, s: Step)
    requires Sound(c) && Focused(c)
    ensures Focused(Next(c, s)) <==> KeepsFocus(c, s)
  {
    match s
    case Attach(id) => AttachedIsFocused(c, id);
    case AttachChat(id) => AttachedIsFocused(c, id);
    case AttachPanel(id) => PanelIsFocused(c, id);
    case Detach(id) =>
    case Restore(ids, chats) => RestoredIsFocused(c, ids, chats);
    case Activate(id) =>
    case SetLayout(layout) => WithLayoutIsFocused(c, layout);
    case Drag(id, slot) => DraggedIsFocused(c, id, slot);
  }

  predicate FocusKeeping(c: Screen, steps: seq<Step>) {
    forall i :: 0 <= i < |steps| ==> KeepsFocus(Run(c, steps[..i]), steps[i])
  }

  /** Over whole runs a nonempty set of sessions has the active tab as a member. */
  lemma {:induction false} RunsStayFocused(c: Screen, steps: seq<Step>)
    requires Sound(c) && Focused(c) && Clean(c, steps) && FocusKeeping(c, steps)
    ensures Focused(Run(c, steps))
    decreases |steps|
  {
    if steps != [] {
      var n := |steps| - 1;
      CleanPrefix(c, steps, n);
      assert FocusKeeping(c, steps[..n]) by {
        assert forall i :: 0 <= i < n ==> steps[..n][..i] == steps[..i] && steps[..n][i] == steps[i];
      }
      RunsStayFocused(c, steps[..n]);
      RunsStayAligned(c, steps[..n]);
      FocusIsKeptExactlyWhen(Run(c, steps[..n]), steps[n]);
    }
  }

  const EMPTY := Screen([], [], [], None, "1", 0)

  lemma RunSnoc(c: Screen, steps: seq<Step>, s: Step)
    ensures Run(c, steps + [s]) == Next(Run(c, steps), s)
  {
    assert (steps + [s])[..|steps|] == steps;
  }

  lemma CleanSnoc(c: Screen, steps: seq<Step>, s: Step)
    requires Clean(c, steps) && !s.AttachPanel?
    ensures Clean(c, steps + [s])
  {
    forall i | 0 <= i < |steps + [s]|
      ensures !Collides(Run(c, (steps + [s])[..i]), (steps + [s])[i])
    {
      if i < |steps| {
        assert (steps + [s])[..i] == steps[..i];
      }
    }
  }

  /** A clean run from the empty cockpit that holds the given ids. */
  predicate Leads(steps: seq<Step>, ids: seq<string>) {
    Clean(EMPTY, steps) && Ids(Run(EMPTY, steps).sessions) == ids
  }

  lemma LeadsOn(steps: seq<Step>, ids: seq<string>, s: Step)
    requires Leads(steps, ids) && !s.AttachPanel?
    ensures Leads(steps + [s], NextIds(ids, s))
  {
    CleanSnoc(EMPTY, steps, s);
    RunSnoc(EMPTY, steps, s);
    RunsStayAligned(EMPTY, steps);
    StepIsSoundExactlyWhen(Run(EMPTY, steps), s);
  }

  lemma TwoAttached(a: string, b: string)
    requires a != b
    ensures Leads([Attach(a)], [a]) && Leads([Attach(a), Attach(b)], [a, b])
  {
    assert Leads([], []);
    LeadsOn([], [], Attach(a));
    assert [] + [Attach(a)] == [Attach(a)] && [] + [a] == [a];
    LeadsOn([Attach(a)], [a], Attach(b));
    assert [Attach(a)] + [Attach(b)] == [Attach(a), Attach(b)] && [a] + [b] == [a, b];
  }

  /** A panel embedded under the id of a session: tab strip and session map part. */
  lemma CollisionIsReached(id: string)
    ensures !Sound(Run(EMPTY, [Attach(id)] + [AttachPanel(id)]))
  {
    TwoAttached(id, id + "2");
    var c := Run(EMPTY, [Attach(id)]);
    assert Ids(c.sessions)[0] == id;
    HasIsMember(c.sessions, id);
    RunsStayAligned(EMPTY, [Attach(id)]);
    StepIsSoundExactlyWhen(c, AttachPanel(id));
    RunSnoc(EMPTY, [Attach(id)], AttachPanel(id));
  }

  /** A command that was listed while its session was there can run after it is gone. */
  lemma StaleActivationLosesFocus(a: string, b: string)
    requires a != b
    ensures !Focused(Run(EMPTY, [Attach(a), Attach(b)] + [Detach(a)] + [Activate(a)]))
  {
    var steps := [Attach(a), Attach(b)] + [Detach(a)];
    TwoAttached(a, b);
    LeadsOn([Attach(a), Attach(b)], [a, b], Detach(a));
    DropOfTwo(a, b);
    var c := Run(EMPTY, steps);
    RunSnoc(EMPTY, steps, Activate(a));
    assert Ids(c.sessions) == [b];
    HasIsMember(c.sessions, a);
  }

  lemma DropOfTwo(a: string, b: string)
    requires a != b
    ensures Drop([a, b], a) == [b] && Drop([a, b], b) == [a]
  {
    DropIsCut([a, b], 0);
    DropIsCut([a, b], 1);
  }

  /** A session with an empty id never takes over. */
  lemma EmptyIdLosesFocus(b: string)
    requires b != ""
    ensures !Focused(Run(EMPTY, [Attach(""), Attach(b)] + [Detach(b)]))
  {
    var steps := [Attach(""), Attach(b)];
    TwoAttached("", b);
    LeadsOn(steps, ["", b], Detach(b));
    DropOfTwo("", b);
    RunSnoc(EMPTY, steps, Detach(b));
    assert Ids(Run(EMPTY, steps).sessions)[1] == b;
    HasIsMember(Run(EMPTY, steps).sessions, b);
    HandsOverToNobody(Run(EMPTY, steps), b);
  }

  lemma HandsOverToNobody(c: Screen, id: string)
    requires Ids(Detached(c, id).sessions) == [""] && Has(c.sessions, id)
    ensures !Focused(Detached(c, id))
  {
    assert Detached(c, id).sessions[0].id == Ids(Detached(c, id).sessions)[0];
  }

  // ---------------------------------------------------------------- what a step leaves active, and in which layout

  /** A new session is active at once; a known chat is activated, a known terminal is left alone. */
  lemma AttachingActivates(c: Screen, id: string)
    requires Sound(c)
    ensures Next(c, Attach(id)).active == if id in Ids(c.sessions) then c.active else Some(id)
    ensures Next(c, AttachChat(id)).active == Some(id) && Next(c, AttachPanel(id)).active == Some(id)
    ensures Next(c, Activate(id)).active == Some(id)
  {
    HasIsMember(c.sessions, id);
  }

  /** Detaching hands over to the first session that is left; a step that only lays out activates nothing. */
  lemma DetachingHandsOver(c: Screen, id: string)
    requires Sound(c)
    ensures var rest := Drop(Ids(c.sessions), id);
      Next(c, Detach(id)).active ==
        if id !in Ids(c.sessions) then c.active
        else if rest == [] || rest[0] == "" then None else Some(rest[0])
    ensures forall layout :: Next(c, SetLayout(layout)).active == c.active
    ensures forall slot :: Next(c, Drag(id, slot)).active == c.active
  {
    HasIsMember(c.sessions, id);
    if id in Ids(c.sessions) {
      DetachedIsSound(c, id);
      var rest := Detached(c, id).sessions;
      assert Ids(rest) == Drop(Ids(c.sessions), id);
      assert rest != [] ==> Ids(rest)[0] == rest[0].id;
    }
  }

  /** The second session splits layout 1 in two; otherwise attaching leaves the layout as it is. */
  lemma SecondSessionSplits(c: Screen, id: string)
    requires Sound(c)
    ensures var split := id !in Ids(c.sessions) && |c.sessions| == 1 && c.layout == "1";
      && Next(c, Attach(id)).layout == (if split then "2h" else c.layout)
      && Next(c, AttachChat(id)).layout == (if split then "2h" else c.layout)
    ensures Next(c, AttachPanel(id)).layout == c.layout && Next(c, Detach(id)).layout == c.layout
    ensures Next(c, Activate(id)).layout == c.layout
  {
    HasIsMember(c.sessions, id);
    if id !in Ids(c.sessions) {
      PanelAttachedIsSound(c, id);
    }
  }

  /** A known layout is taken over, and any other name is ignored. */
  lemma LayoutIsSet(c: Screen, layout: string)
    ensures Next(c, SetLayout(layout)).layout == if layout in NAMES then layout else c.layout
  {
  }

  lemma {:induction false} AddAllGrows(ids: seq<string>, more: seq<string>)
    ensures |AddAll(ids, more)| >= |ids| && AddAll(ids, more)[..|ids|] == ids
    decreases |more|
  {
    if more != [] {
      AddAllGrows(Add(ids, more[0]), more[1..]);
      assert Add(ids, more[0])[..|ids|] == ids;
      assert AddAll(ids, more)[..|Add(ids, more[0])|][..|ids|] == AddAll(ids, more)[..|ids|];
    }
  }

  /** The last of two lists, where the second continues the first, and what was active when nothing was added. */
  function LastAdded(active: Option<string>, before: seq<string>, after: seq<string>): Option<string> {
    if |after| > |before| then Some(after[|after| - 1]) else active
  }

  function SplitLayout(layout: string, sessions: nat): string {
    if layout == "1" && sessions >= 2 then "2h" else layout
  }

  /** The screen has these sessions, with this one active, in this layout. */
  predicate HasSettled(c: Screen, ids: seq<string>, active: Option<string>, layout: string) {
    Sound(c) && Ids(c.sessions) == ids && c.active == active && c.layout == layout
  }

  /** Layout 1 is left as soon as there are two sessions. */
  predicate IsSplit(c: Screen) {
    c.layout == "1" ==> |c.sessions| <= 1
  }

  lemma AttachingOne(c: Screen, id: string)
    requires Sound(c) && IsSplit(c)
    ensures var ids := Add(Ids(c.sessions), id);
      && HasSettled(Attached(c, id), ids, LastAdded(c.active, Ids(c.sessions), ids), SplitLayout(c.layout, |ids|))
      && HasSettled(ChatAttached(c, id), ids, Some(id), SplitLayout(c.layout, |ids|))
      && IsSplit(Attached(c, id)) && IsSplit(ChatAttached(c, id))
  {
    AttachedIsSound(c, id);
    AttachingActivates(c, id);
    SecondSessionSplits(c, id);
    assert |Ids(Attached(c, id).sessions)| == |Add(Ids(c.sessions), id)|;
  }

  lemma {:induction false} AttachingAll(c: Screen, ids: seq<string>, before: seq<string>, active: Option<string>, layout: string)
    requires HasSettled(c, before, active, layout) && IsSplit(c)
    ensures var all := AddAll(before, ids);
      && HasSettled(AttachedAll(c, ids), all, LastAdded(active, before, all), SplitLayout(layout, |all|))
      && IsSplit(AttachedAll(c, ids))
    decreases |ids|
  {
    if ids != [] {
      var more := Add(before, ids[0]);
      AttachingOne(c, ids[0]);
      AddAllGrows(more, ids[1..]);
      AttachingAll(Attached(c, ids[0]), ids[1..], more, LastAdded(active, before, more), SplitLayout(layout, |more|));
      LastAddedJoins(active, before, more, AddAll(more, ids[1..]));
    }
  }

  lemma LastAddedJoins(active: Option<string>, x: seq<string>, y: seq<string>, z: seq<string>)
    requires |x| <= |y| <= |z| && z[..|y|] == y
    ensures LastAdded(LastAdded(active, x, y), y, z) == LastAdded(active, x, z)
  {
    assert |y| > 0 ==> z[..|y|][|y| - 1] == y[|y| - 1];
  }

  lemma SplitJoins(layout: string, n: nat, m: nat)
    requires n <= m
    ensures SplitLayout(SplitLayout(layout, n), m) == SplitLayout(layout, m)
  {
  }

  /** One more chat, and then the others. */
  lemma ChatAttachingStep(c: Screen, id: string, before: seq<string>, active: Option<string>, layout: string)
    requires HasSettled(c, before, active, layout) && IsSplit(c)
    ensures HasSettled(ChatAttached(c, id), Add(before, id), Some(id), SplitLayout(layout, |Add(before, id)|))
    ensures IsSplit(ChatAttached(c, id))
  {
    AttachingOne(c, id);
  }

  lemma {:induction false} ChatAttachingAll(c: Screen, ids: seq<string>, before: seq<string>, active: Option<string>, layout: string)
    requires HasSettled(c, before, active, layout) && IsSplit(c)
    requires |before| >= 2 ==> layout != "1"
    ensures HasSettled(ChatAttachedAll(c, ids), AddAll(before, ids), if ids == [] then active else Some(ids[|ids| - 1]),
                       SplitLayout(layout, |AddAll(before, ids)|))
    decreases |ids|
  {
    if ids != [] {
      var more := Add(before, ids[0]);
      ChatAttachingStep(c, ids[0], before, active, layout);
      ChatAttachingAll(ChatAttached(c, ids[0]), ids[1..], more, Some(ids[0]), SplitLayout(layout, |more|));
      AddAllGrows(more, ids[1..]);
      SplitJoins(layout, |more|, |AddAll(more, ids[1..])|);
    }
  }

  /** A rebuild activates what it attached last, and splits layout 1 when there are two sessions or more. */
  lemma RebuildSettles(c: Screen, ids: seq<string>, chats: seq<string>)
    ensures var terminals, all := AddAll([], ids), AddAll(AddAll([], ids), chats);
      HasSettled(Rebuilt(c, ids, chats), all,
                 if chats != [] then Some(chats[|chats| - 1]) else LastAdded(c.active, [], terminals),
                 SplitLayout(c.layout, |all|))
  {
    var start, terminals := Emptied(c), AddAll([], ids);
    assert Ids(start.sessions) == [];
    AttachingAll(start, ids, [], c.active, c.layout);
    ChatAttachingAll(AttachedAll(start, ids), chats, terminals,
                     LastAdded(c.active, [], terminals), SplitLayout(c.layout, |terminals|));
    AddAllGrows(terminals, chats);
    SplitJoins(c.layout, |terminals|, |AddAll(terminals, chats)|);
  }

  /** So does a restore, which only takes the same layout once more. */
  lemma RestoreSettles(c: Screen, ids: seq<string>, chats: seq<string>)
    ensures var terminals, all := AddAll([], ids), AddAll(AddAll([], ids), chats);
      && Restored(c, ids, chats).active ==
           (if chats != [] then Some(chats[|chats| - 1]) else LastAdded(c.active, [], terminals))
      && Restored(c, ids, chats).layout == SplitLayout(c.layout, |all|)
  {
    RebuildSettles(c, ids, chats);
  }

  // ---------------------------------------------------------------- placement

  /** On a narrow page, and in layout 1, exactly one panel shows: it fills the grid and is the active one. */
  lemma SingleLayoutShowsOne(c: Screen, mobile: bool)
    requires LayoutKey(c, mobile) == "1" && c.sessions != []
    ensures var placed, k := Placement(c, mobile), ShownIndex(c);
      && k < |placed| && (Focused(c) ==> Some(c.sessions[k].id) == c.active)
      && forall i :: 0 <= i < |placed| ==> placed[i] == if i == k then Some(FULL) else None
  {
  }

  predicate NoCustom(c: Screen) {
    forall i :: 0 <= i < |c.sessions| ==> c.sessions[i].custom == None
  }

  /** How many panels are in the slot. */
  function Load(placed: seq<Option<Slot>>, slot: Slot): nat {
    if placed == [] then 0
    else Load(placed[..|placed| - 1], slot) + if placed[|placed| - 1] == Some(slot) then 1 else 0
  }

  /** Placing `n` panels into slots in turn. */
  function InTurn(slots: seq<Slot>, n: nat): (placed: seq<Option<Slot>>)
    requires slots != []
    ensures |placed| == n && forall i :: 0 <= i < n ==> placed[i] == Some(slots[i % |slots|])
  {
    seq(n, i requires 0 <= i < n => Some(slots[i % |slots|]))
  }

  function Share(n: nat, k: nat, s: nat): nat
    requires s < k
  {
    n / k + if s < n % k then 1 else 0
  }

  lemma ShareStep(n: nat, k: nat, s: nat)
    requires s < k && n > 0
    ensures Share(n, k, s) == Share(n - 1, k, s) + if (n - 1) % k == s then 1 else 0
  {
    var q, r := (n - 1) / k, (n - 1) % k;
    assert n - 1 == q * k + r;
    if r == k - 1 {
      assert n == (q + 1) * k;
      DivisionIs(n, k, q + 1, 0);
    } else {
      DivisionIs(n, k, q, r + 1);
    }
  }

  lemma AtLeastOnce(a: nat, k: nat)
    requires a > 0
    ensures a * k >= k
  {
    assert a * k == (a - 1) * k + k;
  }

  lemma DivisionIs(n: nat, k: nat, q: nat, r: nat)
    requires r < k && n == q * k + r
    ensures n / k == q && n % k == r
  {
    var q', r' := n / k, n % k;
    assert n == q' * k + r';
    if q' > q {
      AtLeastOnce(q' - q, k);
    } else if q > q' {
      AtLeastOnce(q - q', k);
    }
  }

  lemma {:induction false} InTurnIsFair(slots: seq<Slot>, n: nat, s: nat)
    requires s < |slots| && forall i, j :: 0 <= i < j < |slots| ==> slots[i] != slots[j]
    ensures Load(InTurn(slots, n), slots[s]) == Share(n, |slots|, s)
  {
    if n > 0 {
      InTurnIsFair(slots, n - 1, s);
      assert InTurn(slots, n)[..n - 1] == InTurn(slots, n - 1);
      ShareStep(n, |slots|, s);
    }
  }

  /** Without resized panels, every other layout deals the panels out evenly, the first slots getting one more. */
  lemma SlotsAreSharedFairly(c: Screen, mobile: bool, s: nat)
    requires LayoutKey(c, mobile) != "1" && NoCustom(c) && s < |DrawnSlots(LayoutKey(c, mobile))|
    ensures var slots := DrawnSlots(LayoutKey(c, mobile));
      Load(Placement(c, mobile), slots[s]) == Share(|c.sessions|, |slots|, s)
  {
    var key := LayoutKey(c, mobile);
    DealtInTurn(c.sessions, DrawnSlots(key));
    forall i, j | 0 <= i < j < |DrawnSlots(key)|
      ensures DrawnSlots(key)[i] != DrawnSlots(key)[j]
    {
      DrawnSlotsAreApart(key, i, j, 0.0, 0.0);
    }
    InTurnIsFair(DrawnSlots(key), |c.sessions|, s);
  }

  lemma DealtInTurn(sessions: seq<Entry>, slots: seq<Slot>)
    requires slots != [] && forall i :: 0 <= i < |sessions| ==> sessions[i].custom == None
    ensures Dealt(sessions, slots) == InTurn(slots, |sessions|)
  {
  }

  lemma DealtOnce(sessions: seq<Entry>, slots: seq<Slot>, i: nat)
    requires i < |sessions| <= |slots| && sessions[i].custom == None
    ensures Dealt(sessions, slots)[i] == Some(slots[i])
  {
    DivisionIs(i, |slots|, 0, i);
  }

  /** While there are no more panels than slots, no two panels have a point in common. */
  lemma FewPanelsDoNotOverlap(c: Screen, mobile: bool, i: nat, j: nat, x: real, y: real)
    requires LayoutKey(c, mobile) != "1" && NoCustom(c)
    requires i < j < |c.sessions| <= |DrawnSlots(LayoutKey(c, mobile))|
    ensures var placed := Placement(c, mobile);
      placed[i].Some? && placed[j].Some? && !(Inside(placed[i].value, x, y) && Inside(placed[j].value, x, y))
  {
    var key := LayoutKey(c, mobile);
    DrawnSlotsAreApart(key, i, j, x, y);
    DealtOnce(c.sessions, DrawnSlots(key), i);
    DealtOnce(c.sessions, DrawnSlots(key), j);
  }

  /** A resized panel is in its own slot, and it does not move the others. */
  lemma ResizedStayResized(c: Screen, mobile: bool, i: nat)
    requires LayoutKey(c, mobile) != "1" && i < |c.sessions|
    ensures var slots, custom := DrawnSlots(LayoutKey(c, mobile)), c.sessions[i].custom;
      Placement(c, mobile)[i] == if custom.Some? then custom else Some(slots[i % |slots|])
    ensures var plain := c.(sessions := Plain(c.sessions));
      c.sessions[i].custom.None? ==> Placement(c, mobile)[i] == Placement(plain, mobile)[i]
  {
  }

  /** A resize gives the panel its slot, in every layout but 1, and changes no other panel's place. */
  lemma ResizeMovesOne(c: Screen, mobile: bool, i: nat, slot: Slot)
    requires Sound(c) && i < |c.sessions| && LayoutKey(c, mobile) != "1"
    ensures var c' := Next(c, Drag(c.sessions[i].id, slot));
      |c'.sessions| == |c.sessions| && forall j :: 0 <= j < |c.sessions| ==>
        Placement(c', mobile)[j] == if j == i then Some(slot) else Placement(c, mobile)[j]
  {
    assert Index(c.sessions, c.sessions[i].id) == i;
  }

  lemma {:induction false} AttachedAllAreRegular(c: Screen, ids: seq<string>)
    requires NoCustom(c)
    ensures NoCustom(AttachedAll(c, ids)) && NoCustom(ChatAttachedAll(c, ids))
    decreases |ids|
  {
    if ids != [] {
      AttachedAllAreRegular(Attached(c, ids[0]), ids[1..]);
      AttachedAllAreRegular(ChatAttached(c, ids[0]), ids[1..]);
    }
  }

  lemma StepIsRegular(c: Screen, s: Step)
    requires NoCustom(c) && !s.Drag?
    ensures NoCustom(Next(c, s))
  {
    if s.Restore? {
      AttachedAllAreRegular(Emptied(c), s.ids);
      AttachedAllAreRegular(AttachedAll(Emptied(c), s.ids), s.chats);
    }
  }

  /** Choosing a layout forgets every resize, and only a later resize brings a custom slot back. */
  lemma {:induction false} LayoutForgetsResizes(c: Screen, layout: string, steps: seq<Step>)
    requires Known(layout) && forall i :: 0 <= i < |steps| ==> !steps[i].Drag?
    ensures NoCustom(Run(WithLayout(c, layout), steps))
    decreases |steps|
  {
    if steps != [] {
      var n := |steps| - 1;
      LayoutForgetsResizes(c, layout, steps[..n]);
      StepIsRegular(Run(WithLayout(c, layout), steps[..n]), steps[n]);
    }
  }
}
