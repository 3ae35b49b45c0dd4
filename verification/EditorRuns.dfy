/**
  Whole runs of a code-editor panel: user actions interleaved with the replies of file
  and diff requests that were sent earlier.
 */
module EditorRuns {
  import opened Basics
  import opened EditorPanel

  /** A detached panel is off the page and out of reach but intact; a destroyed one was cleaned up first. */
  datatype Stage = Open | Detached | Destroyed

  /**
    The panel with everything that can still run its code: the requests whose replies are
    outstanding, the listener that waits for Monaco as long as there is no editor and then opens
    `initial` unless it is empty, and a diff that is scheduled for when the panel is on the page.
    `orphan` tells that the listener made an editor after the panel was destroyed.
   */
  datatype World = World(panel: Panel, opens: multiset<string>, diffs: nat, stage: Stage,
                         initial: string, diffScheduled: bool, orphan: bool)

  /** `ok` tells whether a reply carries the file or the diff that was asked for. */
  datatype Event =
    | MonacoReady
    | DiffFires
    | FileReply(path: string, ok: bool)
    | DiffReply(ok: bool)
    | OpenPath(path: string)
    | OpenDiff
    | ClickTab(idx: int)
    | Close(idx: int)
    | CloseOthersOf(keep: int)
    | Scroll(view: View)
    | Detach
    | Destroy

  /** A new panel; when Monaco is there already, the editor is made at once. */
  function Attach(ready: bool, initial: string, withDiff: bool): World {
    var w := World(ATTACHED, multiset{}, 0, Open, initial, withDiff, false);
    if ready then Ready(w) else w
  }

  ghost predicate IsStart(w: World) {
    exists ready: bool, initial: string, withDiff: bool :: w == Attach(ready, initial, withDiff)
  }

  function Requested(w: World, path: string): World {
    w.(panel := OpenBegins(w.panel, path),
       opens := if OpenAsks(w.panel, path) then w.opens + multiset{path} else w.opens)
  }

  function WithEditor(w: World): World {
    w.(panel := w.panel.(editor := Editor(Scratch, TOP)), orphan := w.stage.Destroyed?)
  }

  function Ready(w: World): World {
    if !w.panel.editor.NotCreated? then w
    else if w.initial == "" then WithEditor(w) else Requested(WithEditor(w), w.initial)
  }

  function Scrolled(p: Panel, v: View): Panel {
    if p.editor.Editor? then p.(editor := p.editor.(view := v)) else p
  }

  /** Only an open panel takes clicks, but what was started runs on whatever became of the panel. */
  function Next(w: World, e: Event): World {
    match e
    case MonacoReady => Ready(w)
    case DiffFires =>
      if w.diffScheduled && !w.panel.editor.NotCreated? then w.(diffScheduled := false, diffs := w.diffs + 1) else w
    case FileReply(path, ok) =>
      if path !in w.opens then w
      else
        var w' := w.(opens := w.opens - multiset{path});
        if ok then w'.(panel := OpenEnds(w.panel, path)) else w'
    case DiffReply(ok) =>
      if w.diffs == 0 then w
      else
        var w' := w.(diffs := w.diffs - 1);
        if ok then w'.(panel := DiffOpens(w.panel)) else w'
    case _ => if w.stage.Open? then UserActs(w, e) else w
  }

  predicate IsUserEvent(e: Event) {
    !e.MonacoReady? && !e.DiffFires? && !e.FileReply? && !e.DiffReply?
  }

  function UserActs(w: World, e: Event): World
    requires IsUserEvent(e)
  {
    var p := w.panel;
    match e
    case OpenPath(path) => Requested(w, path)
    case OpenDiff => if p.editor.NotCreated? then w else w.(diffs := w.diffs + 1)
    case ClickTab(idx) => w.(panel := TabClicked(p, idx))
    case Close(idx) => w.(panel := CloseTab(p, idx))
    case CloseOthersOf(keep) => w.(panel := CloseOthers(p, keep))
    case Scroll(view) => w.(panel := Scrolled(p, view))
    case Detach => w.(stage := Detached)
    case Destroy => w.(panel := DestroyPanel(p), stage := Destroyed)
  }

  function Run(w: World, es: seq<Event>): World {
    if es == [] then w else Next(Run(w, es[..|es| - 1]), es[|es| - 1])
  }

  lemma RunSnoc(w: World, es: seq<Event>, e: Event)
    ensures Run(w, es + [e]) == Next(Run(w, es), e)
  {
    assert (es + [e])[..|es|] == es;
  }

  // ---------------------------------------------------------------- ownership in every run

  lemma ReplyIsSound(w: World, e: Event)
    requires Sound(w.panel) && (e.FileReply? || e.DiffReply?)
    ensures Sound(Next(w, e).panel)
  {
    if e.FileReply? {
      OpenEndsIsSound(w.panel, e.path);
    } else {
      DiffOpensIsSound(w.panel);
    }
  }

  lemma ScrolledIsSound(p: Panel, v: View)
    requires Sound(p)
    ensures Sound(Scrolled(p, v))
  {
    assert DiffModels(Scrolled(p, v)) == DiffModels(p);
  }

  lemma ReadyIsSound(w: World)
    requires Sound(w.panel)
    ensures Sound(Ready(w).panel)
  {
    if w.panel.editor.NotCreated? {
      var p := WithEditor(w).panel;
      assert DiffModels(p) == DiffModels(w.panel);
      OpenBeginsIsSound(p, w.initial);
    }
  }

  lemma StepIsSound(w: World, e: Event)
    requires !w.stage.Destroyed? && Sound(w.panel)
    ensures !Next(w, e).stage.Destroyed? ==> Sound(Next(w, e).panel)
  {
    match e
    case MonacoReady => ReadyIsSound(w);
    case DiffFires =>
    case FileReply(_, _) => ReplyIsSound(w, e);
    case DiffReply(_) => ReplyIsSound(w, e);
    case OpenPath(path) => OpenBeginsIsSound(w.panel, path);
    case OpenDiff =>
    case ClickTab(idx) => TabClickedIsSound(w.panel, idx);
    case Close(idx) => CloseTabIsSound(w.panel, idx);
    case CloseOthersOf(keep) => CloseOthersIsSound(w.panel, keep);
    case Scroll(v) => ScrolledIsSound(w.panel, v);
    case Detach =>
    case Destroy =>
  }

  lemma StartIsSound(w: World)
    requires IsStart(w)
    ensures Sound(w.panel) && w.stage.Open? && !w.orphan && IsEarly(w)
  {
    var ready: bool, initial: string, withDiff: bool :| w == Attach(ready, initial, withDiff);
    var bare := Attach(false, initial, withDiff);
    assert Sound(bare.panel);
    ReadyIsSound(bare);
  }

  /**
    Under every interleaving, until the panel is destroyed: the live text models are exactly
    those of the open files and of the diff editor, none was disposed twice, and the editor
    shows the active file's model whenever a file is open.
   */
  lemma {:induction false} RunsAreSound(start: World, es: seq<Event>)
    requires IsStart(start)
    ensures !Run(start, es).stage.Destroyed? ==> Sound(Run(start, es).panel)
  {
    if es == [] {
      StartIsSound(start);
    } else {
      var before := es[..|es| - 1];
      RunsAreSound(start, before);
      if !Run(start, before).stage.Destroyed? {
        StepIsSound(Run(start, before), es[|es| - 1]);
      }
    }
  }

  // ---------------------------------------------------------------- after the panel is gone

  /** Without an editor no file is open and no diff was asked for; only destroying disposes the editor. */
  predicate IsEarly(w: World) {
    && (w.panel.editor.NotCreated? ==> w.panel.files == [] && w.diffs == 0 && !w.panel.diffMode)
    && (w.panel.editor.Disposed? ==> w.stage.Destroyed?)
  }

  lemma DestroyKeepsFiles(p: Panel)
    ensures DestroyPanel(p).files == p.files && DestroyPanel(p).diffMode == p.diffMode
    ensures DestroyPanel(p).editor == if p.editor.Editor? then EditorPanel.Editor.Disposed else p.editor
  {
    DisposeAllKeepsPanel(p, DiffModels(p));
    DisposeAllKeepsPanel(DisposeAll(p, DiffModels(p)), ModelsOf(p.files));
  }

  /** The editor stays what it is: missing, there, or disposed. */
  predicate SameKind(e: Editor, f: Editor) {
    (e.NotCreated? <==> f.NotCreated?) && (e.Disposed? <==> f.Disposed?)
  }

  lemma LeaveDiffKeepsKind(p: Panel)
    ensures SameKind(LeaveDiff(p).editor, p.editor)
  {
    DisposeAllKeepsEditor(p, DiffModels(p));
  }

  lemma OpenBeginsKeepsKind(p: Panel, path: string, idx: int)
    ensures SameKind(OpenBegins(p, path).editor, p.editor) && SameKind(TabClicked(p, idx).editor, p.editor)
  {
    LeaveDiffKeepsKind(p);
  }

  lemma DiffOpensKeepsKind(p: Panel)
    ensures SameKind(DiffOpens(p).editor, p.editor)
  {
    DisposeAllKeepsEditor(SaveActive(p.(diffMode := true)), DiffModels(p));
  }

  lemma CloseTabKeepsKind(p: Panel, idx: int)
    ensures SameKind(CloseTab(p, idx).editor, p.editor)
  {
    if 0 <= idx < |p.files| {
      DroppedKeepsRest(p, idx);
      assert SameKind(Dropped(p, idx).editor, p.editor);
    }
  }

  lemma CloseOthersKeepsKind(p: Panel, keep: int)
    ensures SameKind(CloseOthers(p, keep).editor, p.editor)
  {
    DisposeAllKeepsEditor(p, ModelsOf(AllBut(p.files, keep)));
  }

  /** Only the listener makes the editor, and only destroying disposes it. */
  lemma EditorStep(w: World, e: Event)
    requires !e.MonacoReady? && !e.Destroy?
    ensures SameKind(Next(w, e).panel.editor, w.panel.editor)
  {
    var p := w.panel;
    match e
    case OpenPath(path) => OpenBeginsKeepsKind(p, path, 0);
    case ClickTab(idx) => OpenBeginsKeepsKind(p, "", idx);
    case DiffReply(_) => DiffOpensKeepsKind(p);
    case Close(idx) => CloseTabKeepsKind(p, idx);
    case CloseOthersOf(keep) => CloseOthersKeepsKind(p, keep);
    case _ =>
  }

  lemma ReadyHasEditor(w: World)
    requires IsEarly(w)
    ensures !Ready(w).panel.editor.NotCreated? && Ready(w).stage == w.stage
    ensures Ready(w).diffs == w.diffs && Ready(w).diffScheduled == w.diffScheduled && w.opens <= Ready(w).opens
    ensures w.panel.editor.NotCreated? ==>
      && HasView(Ready(w).panel.editor) && Ready(w).panel.models == w.panel.models
      && (w.initial != "" ==> w.initial in Ready(w).opens)
      && (w.initial == "" ==> Ready(w).opens == w.opens)
  {
  }

  lemma WithEditorStays(w: World, e: Event)
    requires IsEarly(w) && !w.panel.editor.NotCreated?
    ensures !Next(w, e).panel.editor.NotCreated?
  {
    if e.Destroy? {
      DestroyKeepsFiles(w.panel);
    } else if !e.MonacoReady? {
      EditorStep(w, e);
    }
  }

  lemma NoFilesBefore(w: World, e: Event)
    requires IsEarly(w) && w.panel.editor.NotCreated? && !e.MonacoReady?
    ensures Next(w, e).panel.files == [] && Next(w, e).diffs == 0 && !Next(w, e).panel.diffMode
  {
    var p := w.panel;
    match e
    case CloseOthersOf(keep) => DisposeAllKeepsPanel(p, ModelsOf(AllBut(p.files, keep)));
    case Destroy => DestroyKeepsFiles(p);
    case _ =>
  }

  lemma EarlyStep(w: World, e: Event)
    requires IsEarly(w)
    ensures IsEarly(Next(w, e))
  {
    if e.MonacoReady? {
      ReadyHasEditor(w);
    } else {
      if w.panel.editor.NotCreated? {
        NoFilesBefore(w, e);
      }
      if e.Destroy? {
        DestroyKeepsFiles(w.panel);
      } else {
        EditorStep(w, e);
      }
    }
  }

  /** Only the listener of a destroyed panel leaves an orphan. */
  predicate OrphanIsLate(w: World) {
    w.orphan ==> w.stage.Destroyed?
  }

  lemma OrphanStep(w: World, e: Event)
    requires OrphanIsLate(w)
    ensures OrphanIsLate(Next(w, e))
  {
  }

  lemma {:induction false} RunsAreEarly(start: World, es: seq<Event>)
    requires IsStart(start)
    ensures IsEarly(Run(start, es)) && OrphanIsLate(Run(start, es))
  {
    if es == [] {
      StartIsSound(start);
    } else {
      var before, e := Run(start, es[..|es| - 1]), es[|es| - 1];
      RunsAreEarly(start, es[..|es| - 1]);
      EarlyStep(before, e);
      OrphanStep(before, e);
    }
  }

  /** Some run of a new panel leads here. */
  ghost predicate IsReached(w: World) {
    exists start: World, es: seq<Event> :: IsStart(start) && w == Run(start, es)
  }

  lemma ReachedIsSound(w: World)
    requires IsReached(w)
    ensures IsEarly(w) && OrphanIsLate(w) && (!w.stage.Destroyed? ==> Sound(w.panel))
  {
    var start: World, es: seq<Event> :| IsStart(start) && w == Run(start, es);
    RunsAreSound(start, es);
    RunsAreEarly(start, es);
  }

  /**
    Nothing pending will make a model: no file reply is outstanding, no listener waits to open a
    file, and no diff is outstanding or scheduled unless the editor has no model and so never
    shows one.
   */
  predicate IsQuiet(w: World) {
    && w.opens == multiset{}
    && (w.panel.editor.NotCreated? ==> w.initial == "")
    && (Throws(w.panel.editor) || (w.diffs == 0 && !w.diffScheduled))
  }

  lemma QuietStep(w: World, e: Event)
    requires !w.stage.Open? && IsQuiet(w) && IsEarly(w)
    ensures var w' := Next(w, e); !w'.stage.Open? && IsQuiet(w') && w'.panel.models == w.panel.models
  {
    if e.MonacoReady? {
      ReadyHasEditor(w);
    }
  }

  /** A panel that is gone and quiet keeps its models for ever, and gets no others. */
  lemma {:induction false} QuietKeepsModels(w: World, es: seq<Event>)
    requires !w.stage.Open? && IsQuiet(w) && IsEarly(w)
    ensures var end := Run(w, es);
      !end.stage.Open? && IsQuiet(end) && IsEarly(end) && end.panel.models == w.panel.models
  {
    if es != [] {
      var before, e := Run(w, es[..|es| - 1]), es[|es| - 1];
      QuietKeepsModels(w, es[..|es| - 1]);
      QuietStep(before, e);
      EarlyStep(before, e);
    }
  }

  lemma FileReplyMakesModel(w: World, path: string)
    requires path in w.opens && !w.panel.editor.NotCreated?
    ensures w.panel.models.next in Next(w, FileReply(path, true)).panel.models.live
  {
  }

  lemma DiffReplyMakesModel(w: World)
    requires w.diffs > 0 && HasView(w.panel.editor)
    ensures Next(w, DiffReply(true)).panel.models.live != {}
  {
    var q := DiffOpens(w.panel);
    assert q.diff.value.original in q.models.live;
  }

  /** What is pending makes a model once Monaco is there and the replies arrive. */
  lemma PendingMakesModels(w: World) returns (es: seq<Event>)
    requires IsEarly(w) && !IsQuiet(w)
    ensures Run(w, es).panel.models.live != {}
  {
    var ready := Ready(w);
    ReadyHasEditor(w);
    RunSnoc(w, [], MonacoReady);
    assert [] + [MonacoReady] == [MonacoReady];
    if path :| path in ready.opens {
      es := [MonacoReady] + [FileReply(path, true)];
      RunSnoc(w, [MonacoReady], FileReply(path, true));
      FileReplyMakesModel(ready, path);
    } else {
      assert HasView(ready.panel.editor);
      if ready.diffs > 0 {
        es := [MonacoReady] + [DiffReply(true)];
        RunSnoc(w, [MonacoReady], DiffReply(true));
        DiffReplyMakesModel(ready);
      } else {
        es := [MonacoReady, DiffFires] + [DiffReply(true)];
        RunSnoc(w, [MonacoReady], DiffFires);
        assert [MonacoReady] + [DiffFires] == [MonacoReady, DiffFires];
        RunSnoc(w, [MonacoReady, DiffFires], DiffReply(true));
        DiffReplyMakesModel(Next(ready, DiffFires));
      }
    }
  }

  /** In no continuation is a model left over. */
  ghost predicate StaysEmpty(w: World) {
    forall later: seq<Event> :: LiveAfter(w, later) == {}
  }

  function LiveAfter(w: World, later: seq<Event>): set<nat> {
    Run(w, later).panel.models.live
  }

  /** In no continuation is there an editor that was not disposed. */
  ghost predicate StaysWithoutEditor(w: World) {
    forall later: seq<Event> :: !EditorAfter(w, later)
  }

  predicate EditorAfter(w: World, later: seq<Event>) {
    EditorHeld(Run(w, later))
  }

  /** Once a panel is gone, no model is ever left over exactly when none is now and nothing is pending. */
  lemma GoneStaysEmptyExactlyWhen(w: World)
    requires IsEarly(w) && !w.stage.Open?
    ensures StaysEmpty(w) <==> w.panel.models.live == {} && IsQuiet(w)
  {
    if w.panel.models.live != {} {
      assert LiveAfter(w, []) != {};
    } else if IsQuiet(w) {
      forall later: seq<Event>
        ensures LiveAfter(w, later) == {}
      {
        QuietKeepsModels(w, later);
      }
    } else {
      var es := PendingMakesModels(w);
      assert LiveAfter(w, es) != {};
    }
  }

  /** There is an editor that was not disposed. */
  predicate EditorHeld(w: World) {
    if w.stage.Destroyed? then w.orphan else w.panel.editor.Editor?
  }

  lemma {:induction false} NoOrphanAppears(w: World, es: seq<Event>)
    requires w.stage.Destroyed? && w.panel.editor.Disposed? && !w.orphan
    ensures Run(w, es).stage.Destroyed? && Run(w, es).panel.editor.Disposed? && !Run(w, es).orphan
  {
    if es != [] {
      var before, e := Run(w, es[..|es| - 1]), es[|es| - 1];
      NoOrphanAppears(w, es[..|es| - 1]);
      if !e.MonacoReady? && !e.Destroy? {
        EditorStep(before, e);
      }
    }
  }

  lemma EditorIsLeftExactlyWhen(w: World)
    requires IsEarly(w) && !w.stage.Open? && !w.orphan && (w.stage.Destroyed? ==> !w.panel.editor.Editor?)
    ensures StaysWithoutEditor(w) <==> w.panel.editor.Disposed?
  {
    if w.panel.editor.Disposed? {
      forall later: seq<Event>
        ensures !EditorAfter(w, later)
      {
        NoOrphanAppears(w, later);
      }
    } else {
      EditorIsHeldWhenReady(w);
      assert EditorAfter(w, [MonacoReady]);
    }
  }

  lemma EditorIsHeldWhenReady(w: World)
    requires IsEarly(w) && !w.panel.editor.Disposed? && (w.stage.Destroyed? ==> w.panel.editor.NotCreated?)
    ensures EditorAfter(w, [MonacoReady])
  {
    RunSnoc(w, [], MonacoReady);
    assert [] + [MonacoReady] == [MonacoReady];
    ReadyHasEditor(w);
  }

  /** Nothing of a panel that is destroyed in this state makes a model later. */
  predicate IsQuietForDestroy(w: World) {
    w.opens == multiset{} && (w.panel.editor.NotCreated? ==> w.initial == "" && !w.diffScheduled)
  }

  /**
    Destroying a panel frees every model.  No continuation makes another one exactly when no file
    reply was outstanding and, if the editor was still missing, there was neither a file to open
    nor a diff scheduled: diffs of a destroyed editor fail.  No editor is left over exactly when
    the editor had been made before.
   */
  lemma DestroyIsFinalExactlyWhen(before: World)
    requires IsReached(before) && before.stage.Open?
    ensures var w := Next(before, Destroy);
      && w.panel.models.live == {} && !w.panel.models.disposedTwice
      && (StaysEmpty(w) <==> IsQuietForDestroy(before))
      && (StaysWithoutEditor(w) <==> before.panel.editor.Editor?)
  {
    ReachedIsSound(before);
    DestroyFreesEverything(before.panel);
    DestroyedIsFinalExactlyWhen(before, Next(before, Destroy));
  }

  lemma DestroyedIsFinalExactlyWhen(before: World, w: World)
    requires before.stage.Open? && IsEarly(before) && OrphanIsLate(before) && w == Next(before, Destroy)
    requires w.panel.models.live == {}
    ensures StaysEmpty(w) <==> IsQuietForDestroy(before)
    ensures StaysWithoutEditor(w) <==> before.panel.editor.Editor?
  {
    DestroyedIsQuietExactlyWhen(before);
    GoneStaysEmptyExactlyWhen(w);
    EditorIsLeftExactlyWhen(w);
  }

  lemma DestroyedIsQuietExactlyWhen(before: World)
    requires before.stage.Open? && IsEarly(before) && OrphanIsLate(before)
    ensures var w := Next(before, Destroy);
      && IsEarly(w) && !w.orphan && w.stage.Destroyed? && !w.panel.editor.Editor?
      && (w.panel.editor.Disposed? <==> before.panel.editor.Editor?)
      && (IsQuiet(w) <==> IsQuietForDestroy(before))
  {
    DestroyKeepsFiles(before.panel);
  }

  /**
    Detaching a panel frees nothing: its models are left over exactly when it has any or gets
    any from what is pending, and its editor always is.
   */
  lemma DetachIsFinalExactlyWhen(before: World)
    requires IsReached(before) && before.stage.Open?
    ensures var w := Next(before, Detach);
      && w.panel == before.panel
      && (StaysEmpty(w) <==> before.panel.files == [] && before.panel.diff.None? && IsQuiet(before))
      && EditorAfter(w, [MonacoReady])
  {
    var w := before.(stage := Detached);
    assert Next(before, Detach) == w;
    ReachedIsSound(before);
    NothingLiveExactlyWhen(before.panel);
    assert IsQuiet(w) <==> IsQuiet(before);
    GoneStaysEmptyExactlyWhen(w);
    EditorIsHeldWhenReady(w);
  }

  lemma NothingLiveExactlyWhen(p: Panel)
    requires Sound(p)
    ensures p.models.live == {} <==> p.files == [] && p.diff.None?
  {
    if p.files != [] {
      assert p.files[0].model in FileModels(p.files);
    }
    if p.diff.Some? {
      assert p.diff.value.original in DiffModels(p);
    }
  }

  /** Closing a panel before Monaco is there: no request is out, and still a model is left over. */
  lemma DestroyedBeforeReady(path: string)
    requires path != ""
    ensures var w := Next(Attach(false, path, false), Destroy);
      && w.opens == multiset{} && w.diffs == 0 && w.panel.models.live == {}
      && Run(w, [MonacoReady, FileReply(path, true)]).panel.models.live != {}
  {
    var w := Next(Attach(false, path, false), Destroy);
    DestroyKeepsFiles(ATTACHED);
    ReadyHasEditor(w);
    RunTwo(w, MonacoReady, FileReply(path, true));
    FileReplyMakesModel(Ready(w), path);
  }

  // ---------------------------------------------------------------- an editor without a model

  function EmptyPanel(diffMode: bool): Panel {
    Panel([], -1, Editor(NoModel, TOP), None, diffMode, Models(1, {}, false))
  }

  lemma OnlyFileClosed(path: string)
    ensures CloseTab(OneFile(path, TOP), 0) == EmptyPanel(false) && DiffOpens(EmptyPanel(false)) == EmptyPanel(true)
  {
  }

  /** Closing the only file takes the model out of the editor; a diff asked for then only turns diff mode on. */
  lemma DiffIsLost(path: string)
    ensures Run(Attach(true, "", false), [OpenPath(path), FileReply(path, true), Close(0)] + [OpenDiff] + [DiffReply(true)])
            == Attach(true, "", false).(panel := EmptyPanel(true))
  {
    var start := Attach(true, "", false);
    OnlyFileIsClosed(path);
    RunTwoMore(start, [OpenPath(path), FileReply(path, true), Close(0)], OpenDiff, DiffReply(true));
    DiffAskedAndAnswered(start.(panel := EmptyPanel(false)));
    OnlyFileClosed(path);
  }

  lemma DiffAskedAndAnswered(w: World)
    requires w.stage.Open? && !w.panel.editor.NotCreated? && w.diffs == 0
    ensures Next(Next(w, OpenDiff), DiffReply(true)) == w.(panel := DiffOpens(w.panel))
  {
  }

  lemma OnlyFileIsClosed(path: string)
    ensures Run(Attach(true, "", false), [OpenPath(path), FileReply(path, true), Close(0)])
            == Attach(true, "", false).(panel := EmptyPanel(false))
  {
    FirstIsOpen(path);
    RunSnoc(Attach(true, "", false), [OpenPath(path), FileReply(path, true)], Close(0));
    assert [OpenPath(path), FileReply(path, true)] + [Close(0)] == [OpenPath(path), FileReply(path, true), Close(0)];
    OnlyFileClosed(path);
  }

  /** In such a state opening a file only turns diff mode off: the request never leaves. */
  lemma OpenIsLostExactlyWhen(w: World, path: string)
    requires w.stage.Open? && Sound(w.panel) && path !in Paths(w.panel.files)
    ensures var w' := Next(w, OpenPath(path));
      && (w'.opens == w.opens <==> w.panel.diffMode && Throws(w.panel.editor))
      && (w'.opens == w.opens ==> !w'.panel.diffMode)
  {
    LeavingThrowsExactlyWhen(w.panel);
    FindPathFinds(w.panel.files, path);
    assert w.opens + multiset{path} != w.opens by {
      assert (w.opens + multiset{path})[path] == w.opens[path] + 1;
    }
  }

  // ---------------------------------------------------------------- paths

  function Paths(files: seq<EditorPanel.OpenFile>): seq<string> {
    seq(|files|, i requires 0 <= i < |files| => files[i].path)
  }

  predicate Distinct(paths: seq<string>) {
    forall i, j :: 0 <= i < j < |paths| ==> paths[i] != paths[j]
  }

  /** No path is open twice, and no request is outstanding for an open or already requested path. */
  ghost predicate Apart(paths: seq<string>, opens: multiset<string>) {
    && Distinct(paths)
    && (forall path :: path in opens ==> opens[path] == 1)
    && (forall i :: 0 <= i < |paths| ==> paths[i] !in opens)
  }

  ghost predicate PathsApart(w: World) {
    Apart(Paths(w.panel.files), w.opens)
  }

  /** The path that an event opens, if it opens one. */
  function Opened(w: World, e: Event): Option<string> {
    if e.OpenPath? && w.stage.Open? && !LeavingThrows(w.panel) then Some(e.path)
    else if e.MonacoReady? && w.panel.editor.NotCreated? && w.initial != "" then Some(w.initial)
    else None
  }

  /** The event opens no path for which a request is outstanding. */
  predicate OpensAlone(w: World, e: Event) {
    Opened(w, e).Some? ==> Opened(w, e).value !in w.opens
  }

  /** Every request for a path starts while no other request for it is outstanding. */
  ghost predicate OpensDoNotOverlap(w: World, es: seq<Event>) {
    forall i :: 0 <= i < |es| ==> OpensAlone(Run(w, es[..i]), es[i])
  }

  lemma SwitchKeepsPaths(p: Panel, idx: int)
    ensures Paths(SwitchToFile(p, idx).files) == Paths(p.files)
  {
  }

  lemma TabClickedKeepsPaths(p: Panel, idx: int)
    ensures Paths(TabClicked(p, idx).files) == Paths(p.files)
  {
    LeaveDiffKeepsFiles(p);
    SwitchKeepsPaths(LeaveDiff(p), idx);
  }

  lemma DiffOpensKeepsPaths(p: Panel)
    ensures Paths(DiffOpens(p).files) == Paths(p.files)
  {
    DisposeAllKeepsPanel(SaveActive(p.(diffMode := true)), DiffModels(p));
  }

  lemma OpenEndsAddsPath(p: Panel, path: string)
    ensures Paths(OpenEnds(p, path).files) == if p.editor.NotCreated? then Paths(p.files) else Paths(p.files) + [path]
  {
    if !p.editor.NotCreated? {
      var q := p.(models := Created(p.models), files := p.files + [EditorPanel.OpenFile(path, p.models.next, None)]);
      SwitchKeepsPaths(q, |p.files|);
      assert Paths(q.files) == Paths(p.files) + [path];
    }
  }

  lemma CloseTabDropsPath(p: Panel, idx: int)
    ensures var paths := Paths(p.files);
      Paths(CloseTab(p, idx).files) == if 0 <= idx < |paths| then paths[..idx] + paths[idx + 1..] else paths
  {
    if 0 <= idx < |p.files| {
      var rest := p.files[..idx] + p.files[idx + 1..];
      assert Paths(rest) == Paths(p.files)[..idx] + Paths(p.files)[idx + 1..];
      if rest != [] {
        var next := if idx < |rest| then idx else |rest| - 1;
        SwitchKeepsPaths(Dispose(p, p.files[idx].model).(files := rest, active := next), next);
      }
    }
  }

  lemma CloseOthersKeepsPath(p: Panel, keep: int)
    ensures Paths(CloseOthers(p, keep).files) == if 0 <= keep < |p.files| then [p.files[keep].path] else []
  {
    DisposeAllKeepsPanel(p, ModelsOf(AllBut(p.files, keep)));
    if 0 <= keep < |p.files| {
      SwitchKeepsPaths(DisposeAll(p, ModelsOf(AllBut(p.files, keep))).(files := [p.files[keep]], active := 0), 0);
    }
  }

  lemma {:induction false} FindPathFinds(files: seq<EditorPanel.OpenFile>, path: string)
    ensures FindPath(files, path) < 0 <==> path !in Paths(files)
    ensures FindPath(files, path) < |files|
    ensures FindPath(files, path) >= 0 ==> files[FindPath(files, path)].path == path
  {
    if files != [] {
      assert Paths(files) == [files[0].path] + Paths(files[1..]);
      FindPathFinds(files[1..], path);
    }
  }

  lemma ApartWithout(paths: seq<string>, opens: multiset<string>, idx: nat)
    requires Apart(paths, opens) && idx < |paths|
    ensures Apart(paths[..idx] + paths[idx + 1..], opens)
    ensures Apart([paths[idx]], opens)
  {
  }

  lemma ApartRequested(paths: seq<string>, opens: multiset<string>, path: string)
    requires Apart(paths, opens) && path !in opens && path !in paths
    ensures Apart(paths, opens + multiset{path})
  {
  }

  lemma ApartAnswered(paths: seq<string>, opens: multiset<string>, path: string)
    requires Apart(paths, opens) && path in opens
    ensures Apart(paths, opens - multiset{path}) && Apart(paths + [path], opens - multiset{path})
  {
    var rest := opens - multiset{path};
    assert forall other :: other in rest ==> other in opens && rest[other] <= opens[other];
    assert path !in rest;
  }

  lemma OpenBeginsKeepsPaths(p: Panel, path: string)
    ensures Paths(OpenBegins(p, path).files) == Paths(p.files)
  {
    LeaveDiffKeepsFiles(p);
    SwitchKeepsPaths(LeaveDiff(p), FindPath(p.files, path));
  }

  lemma RequestedIsApart(w: World, path: string)
    requires PathsApart(w) && (path !in w.opens || LeavingThrows(w.panel))
    ensures PathsApart(Requested(w, path))
  {
    OpenBeginsKeepsPaths(w.panel, path);
    FindPathFinds(w.panel.files, path);
    if OpenAsks(w.panel, path) {
      ApartRequested(Paths(w.panel.files), w.opens, path);
    }
  }

  lemma CloseIsApart(p: Panel, opens: multiset<string>, idx: int)
    requires Apart(Paths(p.files), opens)
    ensures Apart(Paths(CloseTab(p, idx).files), opens)
  {
    CloseTabDropsPath(p, idx);
    if 0 <= idx < |p.files| {
      ApartWithout(Paths(p.files), opens, idx);
    }
  }

  lemma CloseOthersIsApart(p: Panel, opens: multiset<string>, keep: int)
    requires Apart(Paths(p.files), opens)
    ensures Apart(Paths(CloseOthers(p, keep).files), opens)
  {
    CloseOthersKeepsPath(p, keep);
    if 0 <= keep < |p.files| {
      ApartWithout(Paths(p.files), opens, keep);
      assert [Paths(p.files)[keep]] == [p.files[keep].path];
    }
  }

  lemma PathsStep(w: World, e: Event)
    requires PathsApart(w) && OpensAlone(w, e)
    ensures PathsApart(Next(w, e))
  {
    match e
    case MonacoReady =>
      if w.panel.editor.NotCreated? && w.initial != "" {
        RequestedIsApart(WithEditor(w), w.initial);
      }
    case DiffFires =>
    case FileReply(path, _) =>
      OpenEndsAddsPath(w.panel, path);
      if path in w.opens {
        ApartAnswered(Paths(w.panel.files), w.opens, path);
      }
    case DiffReply(_) => DiffOpensKeepsPaths(w.panel);
    case OpenPath(path) => if w.stage.Open? { RequestedIsApart(w, path); }
    case OpenDiff =>
    case ClickTab(idx) => TabClickedKeepsPaths(w.panel, idx);
    case Close(idx) => CloseIsApart(w.panel, w.opens, idx);
    case CloseOthersOf(keep) => CloseOthersIsApart(w.panel, w.opens, keep);
    case Scroll(_) =>
    case Detach =>
    case Destroy => DestroyKeepsFiles(w.panel);
  }

  lemma {:induction false} PathsStayApart(w: World, es: seq<Event>)
    requires PathsApart(w) && OpensDoNotOverlap(w, es)
    ensures PathsApart(Run(w, es))
  {
    if es != [] {
      var before, e := es[..|es| - 1], es[|es| - 1];
      assert forall i :: 0 <= i < |before| ==> before[i] == es[i] && before[..i] == es[..i];
      assert es[..|before|] == before;
      PathsStayApart(w, before);
      PathsStep(Run(w, before), e);
    }
  }

  /** As long as requests for one path never overlap, no path is open twice. */
  lemma PathsStayDistinct(start: World, es: seq<Event>)
    requires IsStart(start) && OpensDoNotOverlap(start, es)
    ensures PathsApart(Run(start, es))
  {
    var ready: bool, initial: string, withDiff: bool :| start == Attach(ready, initial, withDiff);
    var bare := Attach(false, initial, withDiff);
    PathsStep(bare, MonacoReady);
    PathsStayApart(start, es);
  }

  predicate OpensNothing(es: seq<Event>) {
    forall i :: 0 <= i < |es| ==> !es[i].OpenPath?
  }

  lemma {:induction false} EditorStays(w: World, es: seq<Event>)
    requires IsEarly(w) && !w.panel.editor.NotCreated?
    ensures IsEarly(Run(w, es)) && !Run(w, es).panel.editor.NotCreated?
  {
    if es != [] {
      EditorStays(w, es[..|es| - 1]);
      WithEditorStays(Run(w, es[..|es| - 1]), es[|es| - 1]);
      EarlyStep(Run(w, es[..|es| - 1]), es[|es| - 1]);
    }
  }

  lemma NothingOpenedIsApart(w: World, es: seq<Event>)
    requires IsEarly(w) && !w.panel.editor.NotCreated? && OpensNothing(es)
    ensures OpensDoNotOverlap(w, es)
  {
    forall i | 0 <= i < |es|
      ensures OpensAlone(Run(w, es[..i]), es[i])
    {
      EditorStays(w, es[..i]);
    }
  }

  lemma ReplyAddsPath(w: World, path: string)
    requires !w.panel.editor.NotCreated? && path in w.opens
    ensures var w' := Next(w, FileReply(path, true));
      && !w'.panel.editor.NotCreated? && w'.opens == w.opens - multiset{path}
      && Paths(w'.panel.files) == Paths(w.panel.files) + [path]
  {
    OpenEndsAddsPath(w.panel, path);
  }

  lemma RunTwo(w: World, d: Event, e: Event)
    ensures Run(w, [d, e]) == Next(Next(w, d), e)
  {
    RunSnoc(w, [], d);
    RunSnoc(w, [d], e);
    assert [] + [d] == [d] && [d] + [e] == [d, e];
  }

  lemma RunTwoMore(w: World, es: seq<Event>, d: Event, e: Event)
    ensures Run(w, es + [d] + [e]) == Next(Next(Run(w, es), d), e)
  {
    RunSnoc(w, es, d);
    RunSnoc(w, es + [d], e);
  }

  /** Two replies for one path open it twice. */
  lemma TwoRepliesDuplicate(w: World, path: string)
    requires !w.panel.editor.NotCreated? && w.opens[path] >= 2
    ensures !Distinct(Paths(Run(w, [FileReply(path, true), FileReply(path, true)]).panel.files))
  {
    var reply := FileReply(path, true);
    RunTwo(w, reply, reply);
    ReplyAddsPath(w, path);
    ReplyAddsPath(Next(w, reply), path);
    TwiceIsNotDistinct(Paths(w.panel.files), path);
  }

  lemma TwiceIsNotDistinct(paths: seq<string>, path: string)
    ensures !Distinct(paths + [path] + [path])
  {
    var all, n := paths + [path] + [path], |paths|;
    assert all[n] == all[n + 1];
  }

  /**
    The check for an open path precedes the request.  So opening a path leads to no duplicate,
    whatever happens next short of another open, exactly when no request for it was outstanding
    or leaving diff mode throws and none is sent.
   */
  lemma OpenIsSafeExactlyWhen(w: World, path: string)
    requires w.stage.Open? && w.panel.editor.Editor? && PathsApart(w)
    ensures (forall later: seq<Event> | OpensNothing(later) ::
              Distinct(Paths(Run(Next(w, OpenPath(path)), later).panel.files)))
            <==> path !in w.opens || LeavingThrows(w.panel)
  {
    var asked := Next(w, OpenPath(path));
    EditorStep(w, OpenPath(path));
    EarlyStep(w, OpenPath(path));
    if path !in w.opens || LeavingThrows(w.panel) {
      RequestedIsApart(w, path);
      forall later: seq<Event> | OpensNothing(later)
        ensures Distinct(Paths(Run(asked, later).panel.files))
      {
        NothingOpenedIsApart(asked, later);
        PathsStayApart(asked, later);
      }
    } else {
      AskedTwice(w, path);
      TwoRepliesDuplicate(asked, path);
      assert OpensNothing([FileReply(path, true), FileReply(path, true)]);
    }
  }

  lemma AskedTwice(w: World, path: string)
    requires w.stage.Open? && PathsApart(w) && path in w.opens && !LeavingThrows(w.panel)
    ensures Next(w, OpenPath(path)).opens[path] >= 2
  {
    FindPathFinds(w.panel.files, path);
    assert path !in Paths(w.panel.files);
  }

  lemma NothingToShow(p: Panel, path: string)
    requires !p.diffMode && path !in Paths(p.files)
    ensures OpenBegins(p, path) == p && FindPath(p.files, path) < 0
  {
    FindPathFinds(p.files, path);
  }

  lemma OpenOnlyAsks(w: World, path: string)
    requires w.stage.Open? && !w.panel.diffMode && path !in Paths(w.panel.files)
    ensures Next(w, OpenPath(path)) == w.(opens := w.opens + multiset{path})
  {
    NothingToShow(w.panel, path);
  }

  /** A run from a new panel that opens a path twice. */
  lemma DuplicateIsReached(path: string)
    ensures !Distinct(Paths(Run(Attach(true, "", false),
      [OpenPath(path), OpenPath(path)] + [FileReply(path, true)] + [FileReply(path, true)]).panel.files))
  {
    var start, open, reply := Attach(true, "", false), OpenPath(path), FileReply(path, true);
    OpenOnlyAsks(start, path);
    OpenOnlyAsks(Next(start, open), path);
    RunTwo(start, open, open);
    RunTwoMore(start, [open, open], reply, reply);
    RunTwo(Next(Next(start, open), open), reply, reply);
    TwoRepliesDuplicate(Next(Next(start, open), open), path);
  }

  // ---------------------------------------------------------------- which file is shown

  /** The file at `idx` is the active one, and the editor shows its model outside diff mode. */
  predicate IsShown(p: Panel, idx: nat) {
    && p.active == idx < |p.files| && Shows(p, p.files[idx].model)
    && !p.diffMode && p.diff.None?
  }

  /** The same files with the same models in the same places. */
  predicate SameFiles(p: Panel, q: Panel) {
    |p.files| == |q.files|
    && forall i :: 0 <= i < |p.files| ==> p.files[i].path == q.files[i].path && p.files[i].model == q.files[i].model
  }

  lemma SwitchShowsFile(p: Panel, idx: int)
    requires 0 <= idx < |p.files| && p.editor.Editor?
    ensures var q := SwitchToFile(p, idx);
      q.active == idx && Shows(q, q.files[idx].model) && SameFiles(p, q) && q.diffMode == p.diffMode && q.diff == p.diff
  {
  }

  lemma LeaveDiffLeaves(p: Panel)
    requires Sound(p)
    ensures !LeaveDiff(p).diffMode && LeaveDiff(p).diff.None? && LeaveDiff(p).files == p.files
    ensures LeaveDiff(p).editor == p.editor
    ensures p.files != [] ==> !LeavingThrows(p)
  {
    LeaveDiffIsSound(p);
    LeavingThrowsExactlyWhen(p);
  }

  /** Clicking a tab shows its file, and no other file is touched. */
  lemma ClickShowsFile(w: World, idx: int)
    requires w.stage.Open? && Sound(w.panel) && 0 <= idx < |w.panel.files|
    ensures IsShown(Next(w, ClickTab(idx)).panel, idx) && SameFiles(w.panel, Next(w, ClickTab(idx)).panel)
    ensures Next(w, ClickTab(idx)).opens == w.opens
  {
    LeaveDiffLeaves(w.panel);
    SwitchShowsFile(LeaveDiff(w.panel), idx);
  }

  /** Opening a path that is open shows the first file with it, and no other file is touched. */
  lemma OpenShowsFile(w: World, path: string)
    requires w.stage.Open? && Sound(w.panel) && path in Paths(w.panel.files)
    ensures var q := Next(w, OpenPath(path)).panel;
      && 0 <= q.active && IsShown(q, q.active) && SameFiles(w.panel, q)
      && q.files[q.active].path == path && path !in Paths(q.files)[..q.active]
    ensures Next(w, OpenPath(path)).opens == w.opens
  {
    LeaveDiffLeaves(w.panel);
    FindPathFinds(w.panel.files, path);
    FindPathIsFirst(w.panel.files, path);
    var idx := FindPath(w.panel.files, path);
    SwitchShowsFile(LeaveDiff(w.panel), idx);
    assert Paths(Next(w, OpenPath(path)).panel.files) == Paths(w.panel.files);
  }

  lemma {:induction false} FindPathIsFirst(files: seq<EditorPanel.OpenFile>, path: string)
    requires FindPath(files, path) >= 0
    ensures FindPath(files, path) <= |files| && path !in Paths(files)[..FindPath(files, path)]
  {
    if files[0].path != path {
      FindPathIsFirst(files[1..], path);
      var i := FindPath(files[1..], path);
      assert Paths(files)[..i + 1] == [files[0].path] + Paths(files[1..])[..i];
    }
  }

  /** The reply for a path adds a file with it at the end, on a new model, and shows it. */
  lemma ReplyShowsFile(w: World, path: string)
    requires Sound(w.panel) && path in w.opens && w.panel.editor.Editor?
    ensures var p, q := w.panel, Next(w, FileReply(path, true)).panel;
      && |q.files| == |p.files| + 1 && q.active == |p.files| && Shows(q, q.files[|p.files|].model)
      && q.files[|p.files|].path == path && q.files[|p.files|].model !in p.models.live
      && SameFiles(p, q.(files := q.files[..|p.files|]))
  {
  }

  /** A reply that failed changes nothing in the panel. */
  lemma FailedReplyIsIgnored(w: World, path: string)
    ensures Next(w, FileReply(path, false)).panel == w.panel && Next(w, DiffReply(false)).panel == w.panel
  {
  }

  // ---------------------------------------------------------------- view states

  /** The editor shows the model `m`. */
  predicate Shows(p: Panel, m: nat) {
    p.editor.Editor? && p.editor.shown == Model(m)
  }

  /** The file with model `m` is open behind another one, with `v` as its saved view state. */
  predicate Remembers(p: Panel, m: nat, v: View) {
    exists k :: 0 <= k < |p.files| && k != p.active && p.files[k].model == m && p.files[k].viewState == Some(v)
  }

  /** If `m` is shown it is shown with view `v`; if not, `v` is kept for it. */
  predicate Keeps(p: Panel, m: nat, v: View) {
    if Shows(p, m) then p.editor.view == v else Remembers(p, m, v)
  }

  predicate ClosesNothing(e: Event) {
    !e.Close? && !e.CloseOthersOf? && !e.Destroy?
  }

  lemma SwitchRemembers(p: Panel, idx: int, m: nat, v: View)
    requires Sound(p) && Keeps(p, m, v)
    ensures Keeps(SwitchToFile(p, idx), m, v)
  {
    if 0 <= idx < |p.files| {
      var q := SwitchToFile(p, idx);
      var k: int;
      if Shows(p, m) {
        k := p.active;
      } else {
        k :| 0 <= k < |p.files| && k != p.active && p.files[k].model == m && p.files[k].viewState == Some(v);
      }
      assert q.files[k].model == m && (k == idx || q.files[k].viewState == Some(v));
      if k != idx {
        assert q.files[idx].model != m;
        assert Remembers(q, m, v);
      }
    }
  }

  lemma LeaveDiffRemembers(p: Panel, m: nat, v: View)
    requires Sound(p)
    ensures LeaveDiff(p).editor == p.editor
    ensures Remembers(p, m, v) ==> Remembers(LeaveDiff(p), m, v)
  {
    LeaveDiffIsSound(p);
    LeaveDiffKeepsFiles(p);
  }

  lemma TabClickedRemembers(p: Panel, idx: int, m: nat, v: View)
    requires Sound(p) && Keeps(p, m, v)
    ensures Keeps(TabClicked(p, idx), m, v)
  {
    LeaveDiffIsSound(p);
    LeaveDiffRemembers(p, m, v);
    SwitchRemembers(LeaveDiff(p), idx, m, v);
  }

  lemma OpenBeginsRemembers(p: Panel, path: string, m: nat, v: View)
    requires Sound(p) && Keeps(p, m, v)
    ensures Keeps(OpenBegins(p, path), m, v)
  {
    LeaveDiffKeepsFiles(p);
    TabClickedRemembers(p, FindPath(p.files, path), m, v);
  }

  lemma OpenEndsRemembers(p: Panel, path: string, m: nat, v: View)
    requires Sound(p) && Keeps(p, m, v)
    ensures Keeps(OpenEnds(p, path), m, v)
  {
    if p.editor.Editor? {
      var file := EditorPanel.OpenFile(path, p.models.next, None);
      var q := p.(models := Created(p.models), files := p.files + [file]);
      var k: int;
      if Shows(p, m) {
        k := p.active;
      } else {
        k :| 0 <= k < |p.files| && k != p.active && p.files[k].model == m && p.files[k].viewState == Some(v);
      }
      assert p.files[k].model in FileModels(p.files);
      var r := SwitchToFile(q, |p.files|);
      assert r.files[k].model == m && r.files[k].viewState == Some(v) && k != r.active;
    }
  }

  lemma DiffOpensRemembers(p: Panel, m: nat, v: View)
    requires Sound(p)
    ensures DiffOpens(p).editor == p.editor
    ensures Remembers(p, m, v) ==> Remembers(DiffOpens(p), m, v)
  {
    var saved := SaveActive(p.(diffMode := true));
    DisposeAllKeepsPanel(saved, DiffModels(p));
    SaveActiveIsSound(p);
    DisposeAllFrees(saved, DiffModels(p));
    if p.files != [] {
      assert p.files[p.active] in p.files;
    }
    if Remembers(p, m, v) {
      var k :| 0 <= k < |p.files| && k != p.active && p.files[k].model == m && p.files[k].viewState == Some(v);
      assert DiffOpens(p).files[k] == p.files[k];
    }
  }

  /** A file that was left with view `v` comes back with view `v`, and until then keeps it. */
  lemma ViewStep(w: World, e: Event, m: nat, v: View)
    requires !w.stage.Destroyed? && Sound(w.panel) && ClosesNothing(e)
    requires Keeps(w.panel, m, v) && (Shows(w.panel, m) ==> !Shows(Next(w, e).panel, m))
    ensures Keeps(Next(w, e).panel, m, v)
  {
    var p := w.panel;
    match e
    case OpenPath(path) => OpenBeginsRemembers(p, path, m, v);
    case ClickTab(idx) => TabClickedRemembers(p, idx, m, v);
    case FileReply(path, _) => OpenEndsRemembers(p, path, m, v);
    case DiffReply(_) => DiffOpensRemembers(p, m, v);
    case MonacoReady =>
    case DiffFires =>
    case OpenDiff =>
    case Scroll(_) =>
    case Detach =>
  }

  function At(start: World, es: seq<Event>, i: nat): World
    requires i <= |es|
  {
    Run(start, es[..i])
  }

  lemma AtStep(start: World, es: seq<Event>, i: nat)
    requires i < |es|
    ensures At(start, es, i + 1) == Next(At(start, es, i), es[i])
  {
    assert es[..i + 1][..i] == es[..i];
  }

  lemma SoundAt(start: World, es: seq<Event>, i: nat)
    requires IsStart(start) && i <= |es| && forall e :: e in es ==> ClosesNothing(e)
    ensures !At(start, es, i).stage.Destroyed? && Sound(At(start, es, i).panel)
  {
    assert forall e :: e in es[..i] ==> e in es;
    StartIsSound(start);
    NothingDestroys(start, es[..i]);
    RunsAreSound(start, es[..i]);
  }

  lemma KeptStep(start: World, es: seq<Event>, k: nat, m: nat, v: View)
    requires IsStart(start) && k < |es| && forall e :: e in es ==> ClosesNothing(e)
    requires Keeps(At(start, es, k).panel, m, v)
    requires Shows(At(start, es, k).panel, m) ==> !Shows(At(start, es, k + 1).panel, m)
    ensures Keeps(At(start, es, k + 1).panel, m, v)
  {
    SoundAt(start, es, k);
    AtStep(start, es, k);
    assert es[k] in es;
    ViewStep(At(start, es, k), es[k], m, v);
  }

  ghost predicate StepKeeps(p: Panel, q: Panel, m: nat) {
    forall v :: Keeps(p, m, v) && (Shows(p, m) ==> !Shows(q, m)) ==> Keeps(q, m, v)
  }

  lemma {:induction false} KeptAlong(ps: seq<Panel>, i: nat, j: nat, m: nat)
    requires i < j < |ps|
    requires forall k :: 0 <= k < |ps| - 1 ==> StepKeeps(ps[k], ps[k + 1], m)
    requires Shows(ps[i], m)
    requires forall k :: i < k < j ==> !Shows(ps[k], m)
    requires j == i + 1 ==> !Shows(ps[j], m)
    ensures Keeps(ps[j], m, ps[i].editor.view)
    decreases j
  {
    if j > i + 1 {
      KeptAlong(ps, i, j - 1, m);
    }
    assert StepKeeps(ps[j - 1], ps[j - 1 + 1], m);
  }

  lemma {:induction false} NothingDestroys(start: World, es: seq<Event>)
    requires start.stage.Open? && forall e :: e in es ==> ClosesNothing(e)
    ensures !Run(start, es).stage.Destroyed?
  {
    if es != [] {
      NothingDestroys(start, es[..|es| - 1]);
      assert es[|es| - 1] in es;
    }
  }

  /**
    In any run of opens, diffs, tab clicks and scrolling, a file that was shown at moment `i`
    and is next shown at moment `j` comes back with exactly the view it had at moment `i`.
   */
  lemma ShowingAgainRestoresView(start: World, es: seq<Event>, i: nat, j: nat, m: nat)
    requires IsStart(start) && i + 1 < j <= |es|
    requires forall e :: e in es ==> ClosesNothing(e)
    requires Shows(At(start, es, i).panel, m) && Shows(At(start, es, j).panel, m)
    requires forall k :: i < k < j ==> !Shows(At(start, es, k).panel, m)
    ensures At(start, es, j).panel.editor.view == At(start, es, i).panel.editor.view
  {
    var ps := seq(|es| + 1, k requires 0 <= k <= |es| => At(start, es, k).panel);
    forall k | 0 <= k < |ps| - 1
      ensures StepKeeps(ps[k], ps[k + 1], m)
    {
      forall v | Keeps(ps[k], m, v) && (Shows(ps[k], m) ==> !Shows(ps[k + 1], m))
        ensures Keeps(ps[k + 1], m, v)
      {
        KeptStep(start, es, k, m, v);
      }
    }
    KeptAlong(ps, i, j, m);
  }

  // ---------------------------------------------------------------- view states and closing

  /** The view the user last had of the file at `k`. */
  function LastView(p: Panel, k: nat): View
    requires k < |p.files| && p.editor.Editor?
  {
    if k == p.active then p.editor.view
    else if p.files[k].viewState.Some? then p.files[k].viewState.value else TOP
  }

  /** The index, before closing tab `idx`, of the file that closing brings to the front. */
  function Successor(p: Panel, idx: nat): nat
    requires idx < |p.files| && |p.files| > 1
  {
    if idx + 1 < |p.files| then idx + 1 else idx - 1
  }

  /**
    Closing a tab moves the active index before the view state is saved, so the file brought
    to the front is given the view of whatever the editor showed.  It keeps its own view
    exactly when it was already at the front, or when the two views happen to be equal.
   */
  lemma CloseKeepsViewExactlyWhen(p: Panel, idx: nat)
    requires Sound(p) && idx < |p.files| && |p.files| > 1
    ensures var q, j := CloseTab(p, idx), Successor(p, idx);
      && Shows(q, p.files[j].model)
      && (q.editor.view == LastView(p, j) <==>
            j == p.active || LastView(p, j) == if idx == p.active then TOP else p.editor.view)
      && (j == p.active <==> idx == p.active - 1 || (idx == |p.files| - 1 && p.active == |p.files| - 2))
  {
    var rest := p.files[..idx] + p.files[idx + 1..];
    var j := Successor(p, idx);
    var next := if idx < |rest| then idx else |rest| - 1;
    assert rest[next] == p.files[j];
    assert p.files[idx].model in FileModels(p.files);
    assert p.files[idx].model != p.files[j].model;
    var q := Dispose(p, p.files[idx].model).(files := rest, active := next);
    assert CloseTab(p, idx) == SwitchToFile(q, next);
    ReopenedInPlace(q, next);
  }

  /** Switching to the index that is already active gives its file the editor's view, if there is one. */
  lemma ReopenedInPlace(q: Panel, i: nat)
    requires i < |q.files| && q.active == i && q.editor.Editor?
    ensures SwitchToFile(q, i).editor == Editor(
      Model(q.files[i].model),
      if q.editor.shown.NoModel? then TOP else q.editor.view)
  {
  }

  /** Keeping one tab loses its view exactly when it was at the back with a view of its own. */
  lemma CloseOthersKeepsViewExactlyWhen(p: Panel, keep: nat)
    requires Sound(p) && keep < |p.files|
    ensures var q := CloseOthers(p, keep);
      && Shows(q, p.files[keep].model)
      && (q.editor.view == LastView(p, keep) <==> keep == p.active || LastView(p, keep) == TOP)
  {
    var gone := AllBut(p.files, keep);
    FileModelsWithout(p.files, keep);
    ModelsOfIsLive(p, gone);
    DisposeAllFrees(p, ModelsOf(gone));
    DisposeAllKeepsPanel(p, ModelsOf(gone));
    assert p.files[p.active].model in FileModels(p.files);
    assert p.files[keep].model !in FileModels(gone);
    if keep != p.active {
      assert p.files[keep].model != p.files[p.active].model;
      assert gone == p.files[..keep] + p.files[keep + 1..];
      assert p.files[p.active].model in FileModels(gone);
    }
  }

  /** Opens `a`, scrolls to `v`, and opens `b`. */
  function TwoFiles(a: string, b: string, v: View): seq<Event> {
    [OpenPath(a), FileReply(a, true), Scroll(v)] + [OpenPath(b)] + [FileReply(b, true)]
  }

  function OneFile(a: string, v: View): Panel {
    Panel([EditorPanel.OpenFile(a, 0, None)], 0, Editor(Model(0), v), None, false, Models(1, {0}, false))
  }

  function BothFiles(a: string, b: string, v: View): Panel {
    Panel([EditorPanel.OpenFile(a, 0, Some(v)), EditorPanel.OpenFile(b, 1, None)], 1, Editor(Model(1), TOP),
          None, false, Models(2, {0, 1}, false))
  }

  lemma OpenEndsTwice(a: string, b: string, v: View)
    ensures OpenEnds(Attach(true, "", false).panel, a) == OneFile(a, TOP)
    ensures OpenEnds(OneFile(a, v), b) == BothFiles(a, b, v)
  {
  }

  lemma FirstOpened(a: string)
    ensures var w := Attach(true, "", false);
      && Next(w, OpenPath(a)) == w.(opens := multiset{a})
      && Next(w.(opens := multiset{a}), FileReply(a, true)) == w.(panel := OneFile(a, TOP))
  {
    OpenOnlyAsks(Attach(true, "", false), a);
    OpenEndsTwice(a, a, TOP);
  }

  lemma SecondOpened(a: string, b: string, v: View)
    requires a != b
    ensures var w := Attach(true, "", false).(panel := OneFile(a, v));
      && Next(w, OpenPath(b)) == w.(opens := multiset{b})
      && Next(w.(opens := multiset{b}), FileReply(b, true)) == w.(panel := BothFiles(a, b, v))
  {
    OpenOnlyAsks(Attach(true, "", false).(panel := OneFile(a, v)), b);
    OpenEndsTwice(a, b, v);
  }

  lemma FirstIsOpen(a: string)
    ensures Run(Attach(true, "", false), [OpenPath(a), FileReply(a, true)])
            == Attach(true, "", false).(panel := OneFile(a, TOP))
  {
    RunTwo(Attach(true, "", false), OpenPath(a), FileReply(a, true));
    FirstOpened(a);
  }

  lemma FirstIsScrolled(a: string, v: View)
    ensures Run(Attach(true, "", false), [OpenPath(a), FileReply(a, true), Scroll(v)])
            == Attach(true, "", false).(panel := OneFile(a, v))
  {
    FirstIsOpen(a);
    RunSnoc(Attach(true, "", false), [OpenPath(a), FileReply(a, true)], Scroll(v));
    assert [OpenPath(a), FileReply(a, true)] + [Scroll(v)] == [OpenPath(a), FileReply(a, true), Scroll(v)];
  }

  lemma TwoFilesOpen(a: string, b: string, v: View)
    requires a != b
    ensures Run(Attach(true, "", false), TwoFiles(a, b, v)).panel == BothFiles(a, b, v)
  {
    FirstIsScrolled(a, v);
    RunTwoMore(Attach(true, "", false), [OpenPath(a), FileReply(a, true), Scroll(v)], OpenPath(b), FileReply(b, true));
    SecondOpened(a, b, v);
  }

  /** Closing a tab loses the view of the file behind it. */
  lemma CloseLosesView(a: string, b: string, v: View)
    requires a != b && v != TOP
    ensures var p := Run(Attach(true, "", false), TwoFiles(a, b, v)).panel;
      && |p.files| == 2 && p.editor.Editor? && LastView(p, 0) == v
      && CloseTab(p, 1).editor == Editor(Model(0), TOP)
  {
    TwoFilesOpen(a, b, v);
  }

  /** So does closing the others. */
  lemma CloseOthersLosesView(a: string, b: string, v: View)
    requires a != b && v != TOP
    ensures var p := Run(Attach(true, "", false), TwoFiles(a, b, v)).panel;
      && |p.files| == 2 && p.editor.Editor? && LastView(p, 0) == v
      && CloseOthers(p, 0).editor == Editor(Model(0), TOP)
  {
    TwoFilesOpen(a, b, v);
    var p := Run(Attach(true, "", false), TwoFiles(a, b, v)).panel;
    assert ModelsOf(AllBut(p.files, 0)) == [1];
    DisposeAllKeepsPanel(p, [1]);
    assert DisposeAll(p, [1]) == DisposeAll(Dispose(p, 1), []) == Dispose(p, 1);
  }
}
