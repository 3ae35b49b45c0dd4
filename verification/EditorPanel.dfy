/**
  The code-editor panel: open files with their Monaco text models, the editor that shows
  one of them, and an optional diff editor that owns two further models.

  Text models live until they are disposed.  Disposing the model an editor shows leaves
  that editor without a model.  An editor without a model, or a disposed one, has no view state
  to save and no element on the page: reading the style of its element throws.
 */
module EditorPanel {
  import opened Basics

  /** Scroll and cursor position inside a file. */
  datatype View = View(scrollTop: int, line: int)

  /** The view of a model that has just been put into an editor. */
  const TOP := View(0, 1)

  datatype OpenFile = OpenFile(path: string, model: nat, viewState: Option<View>)

  /** `Scratch` is the blank model the editor makes for itself when it is created. */
  datatype Shown = NoModel | Scratch | Model(id: nat)
  datatype Editor = NotCreated | Editor(shown: Shown, view: View) | Disposed
  datatype Diff = Diff(original: nat, modified: nat)

  /** The text models in memory; `disposedTwice` records a dispose of a model that is not live. */
  datatype Models = Models(next: nat, live: set<nat>, disposedTwice: bool)

  datatype Panel = Panel(files: seq<OpenFile>, active: int, editor: Editor,
                         diff: Option<Diff>, diffMode: bool, models: Models)

  const ATTACHED := Panel([], -1, NotCreated, None, false, Models(0, {}, false))

  // ---------------------------------------------------------------- Monaco

  function Created(m: Models): Models {
    Models(m.next + 1, m.live + {m.next}, m.disposedTwice)
  }

  function Dispose(p: Panel, id: nat): Panel {
    if id !in p.models.live then p.(models := p.models.(disposedTwice := true))
    else
      var editor := if p.editor.Editor? && p.editor.shown == Model(id) then p.editor.(shown := NoModel) else p.editor;
      p.(models := p.models.(live := p.models.live - {id}), editor := editor)
  }

  function DisposeAll(p: Panel, ids: seq<nat>): Panel
    decreases |ids|
  {
    if ids == [] then p else DisposeAll(Dispose(p, ids[0]), ids[1..])
  }

  /** The editor has an element on the page. */
  predicate HasView(e: Editor) {
    e.Editor? && !e.shown.NoModel?
  }

  /** Showing or hiding the editor throws. */
  predicate Throws(e: Editor) {
    !e.NotCreated? && !HasView(e)
  }

  function SavedView(e: Editor): Option<View> {
    if HasView(e) then Some(e.view) else None
  }

  /** Putting in the model that is already shown leaves the view alone. */
  function WithModel(e: Editor, id: nat): Editor
    requires e.Editor?
  {
    if e.shown == Model(id) then e else Editor(Model(id), TOP)
  }

  function Restored(e: Editor, v: Option<View>): Editor
    requires e.Editor?
  {
    if v.Some? then e.(view := v.value) else e
  }

  // ---------------------------------------------------------------- the panel's methods

  function SaveActive(p: Panel): Panel {
    if !p.editor.NotCreated? && 0 <= p.active < |p.files| then
      p.(files := p.files[p.active := p.files[p.active].(viewState := SavedView(p.editor))])
    else p
  }

  function SwitchToFile(p: Panel, idx: int): Panel {
    if !(0 <= idx < |p.files|) then p
    else
      var saved := SaveActive(p);
      var file := saved.files[idx];
      saved.(active := idx,
             editor := if p.editor.Editor? then Restored(WithModel(p.editor, file.model), file.viewState) else p.editor)
  }

  function DiffModels(p: Panel): seq<nat> {
    if p.diff.Some? then [p.diff.value.original, p.diff.value.modified] else []
  }

  function ExitDiff(p: Panel): Panel {
    DisposeAll(p, DiffModels(p)).(diff := None, diffMode := false)
  }

  function LeaveDiff(p: Panel): Panel {
    if p.diffMode then ExitDiff(p) else p
  }

  /** Leaving diff mode throws once the diff is gone, and what was to follow does not happen. */
  predicate LeavingThrows(p: Panel) {
    p.diffMode && Throws(ExitDiff(p).editor)
  }

  function FindPath(files: seq<OpenFile>, path: string): int {
    if files == [] then -1
    else if files[0].path == path then 0
    else
      var i := FindPath(files[1..], path);
      if i < 0 then -1 else i + 1
  }

  /** Before the `await` of `openFile`. */
  function OpenBegins(p: Panel, path: string): Panel {
    var q := LeaveDiff(p);
    if LeavingThrows(p) then q else SwitchToFile(q, FindPath(q.files, path))
  }

  /** A request leaves only when the path is not open yet, and when nothing throws before. */
  predicate OpenAsks(p: Panel, path: string) {
    !LeavingThrows(p) && FindPath(p.files, path) < 0
  }

  /** After the `await` of `openFile`; without Monaco the creation of the model throws. */
  function OpenEnds(p: Panel, path: string): Panel {
    if p.editor.NotCreated? then p
    else
      var q := p.(models := Created(p.models), files := p.files + [OpenFile(path, p.models.next, None)]);
      SwitchToFile(q, |p.files|)
  }

  /** After the `await` of `openDiff`: hiding the editor throws before the diff is made. */
  function DiffOpens(p: Panel): Panel {
    var saved := SaveActive(p.(diffMode := true));
    if Throws(p.editor) then saved else DiffMade(DisposeAll(saved, DiffModels(p)))
  }

  function DiffMade(q: Panel): Panel {
    q.(diff := Some(Diff(q.models.next, q.models.next + 1)), models := Created(Created(q.models)))
  }

  function TabClicked(p: Panel, idx: int): Panel {
    if LeavingThrows(p) then LeaveDiff(p) else SwitchToFile(LeaveDiff(p), idx)
  }

  function ShowNothing(p: Panel): Panel {
    p.(active := -1, editor := if p.editor.Editor? then p.editor.(shown := NoModel) else p.editor)
  }

  function Dropped(p: Panel, idx: nat): Panel
    requires idx < |p.files|
  {
    Dispose(p, p.files[idx].model).(files := p.files[..idx] + p.files[idx + 1..])
  }

  function CloseTab(p: Panel, idx: int): Panel {
    if !(0 <= idx < |p.files|) then p
    else
      var q := Dropped(p, idx);
      if q.files == [] then ShowNothing(q)
      else
        var next := if idx < |q.files| then idx else |q.files| - 1;
        SwitchToFile(q.(active := next), next)
  }

  function ModelsOf(files: seq<OpenFile>): seq<nat> {
    seq(|files|, i requires 0 <= i < |files| => files[i].model)
  }

  function AllBut(files: seq<OpenFile>, keep: int): seq<OpenFile> {
    if 0 <= keep < |files| then files[..keep] + files[keep + 1..] else files
  }

  function CloseOthers(p: Panel, keep: int): Panel {
    var q := DisposeAll(p, ModelsOf(AllBut(p.files, keep)));
    if 0 <= keep < |p.files| then SwitchToFile(q.(files := [p.files[keep]], active := 0), 0)
    else ShowNothing(q.(files := []))
  }

  /** A disposed diff editor holds no models. */
  function DestroyPanel(p: Panel): Panel {
    DisposeAll(DisposeAll(p, DiffModels(p)), ModelsOf(p.files))
      .(diff := None, editor := if p.editor.Editor? then Disposed else p.editor)
  }

  /** The `CockpitPanel` object in its role as a code editor, with Monaco's model table. */
  class CockpitPanel {
    var openFiles: seq<OpenFile>
    var activeFileIdx: int
    var monacoEditor: Editor
    var diffEditor: Option<Diff>
    var isDiffMode: bool
    var models: Models

    ghost function Value(): Panel
      reads this
    {
      Panel(openFiles, activeFileIdx, monacoEditor, diffEditor, isDiffMode, models)
    }

    constructor ()
      ensures Value() == ATTACHED
    {
      openFiles, activeFileIdx, monacoEditor := [], -1, NotCreated;
      diffEditor, isDiffMode, models := None, false, Models(0, {}, false);
    }

    method CreateModel() returns (id: nat)
      modifies this`models
      ensures id == old(models).next && models == Created(old(models))
    {
      id := models.next;
      models := Models(id + 1, models.live + {id}, models.disposedTwice);
    }

    method DisposeModel(id: nat)
      modifies this`models, this`monacoEditor
      ensures Value() == Dispose(old(Value()), id)
    {
      if id in models.live {
        models := models.(live := models.live - {id});
        if monacoEditor.Editor? && monacoEditor.shown == Model(id) {
          monacoEditor := monacoEditor.(shown := NoModel);
        }
      } else {
        models := models.(disposedTwice := true);
      }
    }

    method SaveViewState()
      modifies this`openFiles
      ensures Value() == SaveActive(old(Value()))
    {
      if !monacoEditor.NotCreated? && 0 <= activeFileIdx < |openFiles| {
        var file := openFiles[activeFileIdx];
        openFiles := openFiles[activeFileIdx := file.(viewState := SavedView(monacoEditor))];
      }
    }

    method Switch(idx: int)
      modifies this
      ensures Value() == SwitchToFile(old(Value()), idx)
    {
      if idx < 0 || idx >= |openFiles| {
        return;
      }
      SaveViewState();
      activeFileIdx := idx;
      var file := openFiles[idx];
      if monacoEditor.Editor? {
        monacoEditor := WithModel(monacoEditor, file.model);
        if file.viewState.Some? {
          monacoEditor := monacoEditor.(view := file.viewState.value);
        }
      }
    }

    /** Returns whether it throws at its end. */
    method ExitDiffMode() returns (threw: bool)
      modifies this
      ensures Value() == ExitDiff(old(Value())) && threw == Throws(monacoEditor)
    {
      ghost var was := Value();
      if diffEditor.Some? {
        var dm := diffEditor.value;
        DisposeModel(dm.original);
        DisposeModel(dm.modified);
        DisposeAllTwo(was, dm.original, dm.modified);
        diffEditor := None;
      }
      isDiffMode := false;
      threw := Throws(monacoEditor);
    }

    method FindOpen(path: string) returns (found: int)
      ensures found == FindPath(openFiles, path)
    {
      var i := 0;
      while i < |openFiles|
        invariant 0 <= i <= |openFiles|
        invariant FindPath(openFiles, path) ==
                  var rest := FindPath(openFiles[i..], path); if rest < 0 then -1 else rest + i
      {
        if openFiles[i].path == path {
          return i;
        }
        assert openFiles[i..][1..] == openFiles[i + 1..];
        i := i + 1;
      }
      found := -1;
    }

    /** Returns whether a request for the file has to be sent. */
    method OpenFileBegin(path: string) returns (fetch: bool)
      modifies this
      ensures Value() == OpenBegins(old(Value()), path)
      ensures fetch == OpenAsks(old(Value()), path)
    {
      LeaveDiffKeepsFiles(Value());
      if isDiffMode {
        var threw := ExitDiffMode();
        if threw {
          return false;
        }
      }
      var existing := FindOpen(path);
      fetch := existing < 0;
      if !fetch {
        Switch(existing);
      }
    }

    method OpenFileEnd(path: string)
      modifies this
      ensures Value() == OpenEnds(old(Value()), path)
    {
      if monacoEditor.NotCreated? {
        return;
      }
      var id := CreateModel();
      openFiles := openFiles + [OpenFile(path, id, None)];
      Switch(|openFiles| - 1);
    }

    method OpenDiffEnd()
      modifies this
      ensures Value() == DiffOpens(old(Value()))
    {
      isDiffMode := true;
      SaveViewState();
      if Throws(monacoEditor) {
        return;
      }
      ghost var saved := Value();
      if diffEditor.Some? {
        var dm := diffEditor.value;
        DisposeModel(dm.original);
        DisposeModel(dm.modified);
        DisposeAllTwo(saved, dm.original, dm.modified);
      }
      var original := CreateModel();
      var modified := CreateModel();
      diffEditor := Some(Diff(original, modified));
    }

    method CloseEditorTab(idx: int)
      modifies this
      ensures Value() == CloseTab(old(Value()), idx)
    {
      if idx < 0 || idx >= |openFiles| {
        return;
      }
      DisposeModel(openFiles[idx].model);
      openFiles := openFiles[..idx] + openFiles[idx + 1..];
      if |openFiles| == 0 {
        activeFileIdx := -1;
        if monacoEditor.Editor? {
          monacoEditor := monacoEditor.(shown := NoModel);
        }
      } else {
        activeFileIdx := if idx < |openFiles| then idx else |openFiles| - 1;
        Switch(activeFileIdx);
      }
    }

    /** Disposes the models of all files except the one at `keep`, in order. */
    method DisposeFiles(keep: int)
      modifies this`models, this`monacoEditor
      ensures Value() == DisposeAll(old(Value()), ModelsOf(AllBut(old(openFiles), keep)))
    {
      ghost var was := Value();
      var i := 0;
      while i < |openFiles|
        invariant 0 <= i <= |openFiles|
        invariant Value() == DisposeAll(was, ModelsOf(AllBut(openFiles[..i], keep)))
        invariant openFiles == was.files
      {
        DisposeOneMore(was, openFiles, i, keep);
        if i != keep {
          DisposeModel(openFiles[i].model);
        }
        i := i + 1;
      }
      assert openFiles[..i] == openFiles;
    }

    method CloseOtherEditorTabs(keep: int)
      modifies this
      ensures Value() == CloseOthers(old(Value()), keep)
    {
      DisposeAllKeepsPanel(Value(), ModelsOf(AllBut(openFiles, keep)));
      DisposeFiles(keep);
      if 0 <= keep < |openFiles| {
        openFiles := [openFiles[keep]];
        activeFileIdx := 0;
        Switch(0);
      } else {
        openFiles := [];
        activeFileIdx := -1;
        if monacoEditor.Editor? {
          monacoEditor := monacoEditor.(shown := NoModel);
        }
      }
    }

    method DestroyAll()
      modifies this
      ensures Value() == DestroyPanel(old(Value()))
    {
      ghost var was := Value();
      if diffEditor.Some? {
        DisposeModel(diffEditor.value.original);
        DisposeModel(diffEditor.value.modified);
        DisposeAllTwo(was, diffEditor.value.original, diffEditor.value.modified);
      }
      DisposeAllKeepsEditor(was, DiffModels(was));
      DisposeFiles(-1);
      DisposeAllKeepsEditor(DisposeAll(was, DiffModels(was)), ModelsOf(was.files));
      diffEditor := None;
      if monacoEditor.Editor? {
        monacoEditor := Disposed;
      }
    }
  }

  lemma DisposeAllTwo(p: Panel, a: nat, b: nat)
    ensures DisposeAll(p, [a, b]) == Dispose(Dispose(p, a), b)
  {
    assert [a, b][1..] == [b];
    assert DisposeAll(Dispose(p, a), [b]) == Dispose(Dispose(p, a), b);
  }

  lemma {:induction false} DisposeAllSnoc(p: Panel, ids: seq<nat>, id: nat)
    ensures DisposeAll(p, ids + [id]) == Dispose(DisposeAll(p, ids), id)
    decreases |ids|
  {
    if ids == [] {
      assert [] + [id] == [id];
      assert DisposeAll(Dispose(p, id), []) == Dispose(p, id);
    } else {
      assert (ids + [id])[1..] == ids[1..] + [id];
      DisposeAllSnoc(Dispose(p, ids[0]), ids[1..], id);
    }
  }

  lemma AllButSnoc(files: seq<OpenFile>, f: OpenFile, keep: int)
    requires keep != |files|
    ensures AllBut(files + [f], keep) == AllBut(files, keep) + [f]
  {
    if 0 <= keep < |files| {
      assert (files + [f])[..keep] == files[..keep] && (files + [f])[keep + 1..] == files[keep + 1..] + [f];
    }
  }

  lemma DisposeOneMore(p: Panel, files: seq<OpenFile>, i: nat, keep: int)
    requires i < |files|
    ensures var done := DisposeAll(p, ModelsOf(AllBut(files[..i], keep)));
      DisposeAll(p, ModelsOf(AllBut(files[..i + 1], keep))) == if i == keep then done else Dispose(done, files[i].model)
  {
    var done := AllBut(files[..i], keep);
    if i == keep {
      assert AllBut(files[..i + 1], keep) == files[..i];
    } else {
      assert files[..i + 1] == files[..i] + [files[i]];
      AllButSnoc(files[..i], files[i], keep);
      assert ModelsOf(done + [files[i]]) == ModelsOf(done) + [files[i].model];
      DisposeAllSnoc(p, ModelsOf(done), files[i].model);
    }
  }

  lemma {:induction false} DisposeAllKeepsPanel(p: Panel, ids: seq<nat>)
    ensures var q := DisposeAll(p, ids);
      q.files == p.files && q.active == p.active && q.diff == p.diff && q.diffMode == p.diffMode
    decreases |ids|
  {
    if ids != [] {
      DisposeAllKeepsPanel(Dispose(p, ids[0]), ids[1..]);
    }
  }

  lemma LeaveDiffKeepsFiles(p: Panel)
    ensures LeaveDiff(p).files == p.files && LeaveDiff(p).active == p.active
  {
    DisposeAllKeepsPanel(p, DiffModels(p));
  }

  // ---------------------------------------------------------------- ownership

  function FileModels(files: seq<OpenFile>): set<nat> {
    set f | f in files :: f.model
  }

  predicate DistinctModels(files: seq<OpenFile>) {
    forall i, j :: 0 <= i < j < |files| ==> files[i].model != files[j].model
  }

  /** The live text models are exactly those the panel can reach, and each is held once. */
  predicate ModelsOwned(p: Panel) {
    && DistinctModels(p.files)
    && (p.diff.Some? ==>
          && p.diff.value.original != p.diff.value.modified
          && p.diff.value.original !in FileModels(p.files)
          && p.diff.value.modified !in FileModels(p.files))
    && p.models.live == FileModels(p.files) + (set id | id in DiffModels(p))
    && (forall id :: id in p.models.live ==> id < p.models.next)
    && !p.models.disposedTwice
  }

  /** No active index exactly when no file is open; otherwise the editor shows the active file. */
  predicate ShowsActive(p: Panel) {
    && !p.editor.Disposed?
    && (p.active == -1 <==> p.files == [])
    && (p.files == [] ==> p.editor.Editor? ==> !p.editor.shown.Model?)
    && (p.files != [] ==>
          && 0 <= p.active < |p.files|
          && p.editor.Editor?
          && p.editor.shown == Model(p.files[p.active].model))
  }

  predicate Sound(p: Panel) {
    ModelsOwned(p) && ShowsActive(p) && (p.diff.Some? ==> p.diffMode)
  }

  lemma {:induction false} DisposeAllFrees(p: Panel, ids: seq<nat>)
    requires forall i, j :: 0 <= i < j < |ids| ==> ids[i] != ids[j]
    requires forall id :: id in ids ==> id in p.models.live
    ensures var q := DisposeAll(p, ids);
      && q.models == p.models.(live := p.models.live - set id | id in ids)
      && q.editor == if p.editor.Editor? && p.editor.shown.Model? && p.editor.shown.id in ids
                     then p.editor.(shown := NoModel) else p.editor
    decreases |ids|
  {
    if ids != [] {
      var q := Dispose(p, ids[0]);
      assert ids[0] in p.models.live;
      forall id | id in ids[1..]
        ensures id in q.models.live
      {
        var i :| 0 <= i < |ids[1..]| && ids[1..][i] == id;
        assert ids[i + 1] == id;
      }
      DisposeAllFrees(q, ids[1..]);
      assert ids == [ids[0]] + ids[1..];
      assert p.models.live - {ids[0]} - (set id | id in ids[1..]) == p.models.live - set id | id in ids;
    }
  }

  lemma SaveActiveIsSound(p: Panel)
    requires Sound(p)
    ensures Sound(SaveActive(p)) && FileModels(SaveActive(p).files) == FileModels(p.files)
    ensures |SaveActive(p).files| == |p.files|
    ensures forall i :: 0 <= i < |p.files| ==> SaveActive(p).files[i].model == p.files[i].model
  {
    SameModels(p.files, SaveActive(p).files);
  }

  lemma SameModels(a: seq<OpenFile>, b: seq<OpenFile>)
    requires |a| == |b| && forall i :: 0 <= i < |a| ==> a[i].model == b[i].model
    ensures FileModels(a) == FileModels(b)
  {
    forall m | m in FileModels(a)
      ensures m in FileModels(b)
    {
      var i :| 0 <= i < |a| && a[i].model == m;
      assert b[i] in b;
    }
    forall m | m in FileModels(b)
      ensures m in FileModels(a)
    {
      var i :| 0 <= i < |b| && b[i].model == m;
      assert a[i] in a;
    }
  }

  /** Switching keeps ownership whatever the editor showed before, as long as it exists. */
  lemma SwitchIsSound(p: Panel, idx: int)
    requires ModelsOwned(p) && p.editor.Editor? && (p.diff.Some? ==> p.diffMode)
    requires 0 <= idx < |p.files|
    ensures Sound(SwitchToFile(p, idx))
  {
    SameModels(p.files, SaveActive(p).files);
  }

  lemma LeaveDiffIsSound(p: Panel)
    requires Sound(p)
    ensures Sound(LeaveDiff(p)) && LeaveDiff(p).files == p.files && LeaveDiff(p).editor == p.editor
  {
    if p.diffMode {
      DisposeAllFrees(p, DiffModels(p));
      DisposeAllKeepsPanel(p, DiffModels(p));
      if p.files != [] {
        assert p.files[p.active] in p.files;
      }
    }
  }

  /** The editor of a sound panel throws exactly when it exists and no model is in it. */
  lemma LeavingThrowsExactlyWhen(p: Panel)
    requires Sound(p)
    ensures LeavingThrows(p) <==> p.diffMode && Throws(p.editor)
    ensures Throws(p.editor) ==> p.files == []
  {
    LeaveDiffIsSound(p);
  }

  lemma TabClickedIsSound(p: Panel, idx: int)
    requires Sound(p)
    ensures Sound(TabClicked(p, idx))
  {
    LeaveDiffIsSound(p);
    if 0 <= idx < |p.files| && !LeavingThrows(p) {
      SwitchIsSound(LeaveDiff(p), idx);
    }
  }

  lemma OpenBeginsIsSound(p: Panel, path: string)
    requires Sound(p)
    ensures Sound(OpenBegins(p, path))
  {
    LeaveDiffIsSound(p);
    TabClickedIsSound(p, FindPath(p.files, path));
  }

  lemma OpenEndsIsSound(p: Panel, path: string)
    requires Sound(p)
    ensures Sound(OpenEnds(p, path))
  {
    if p.editor.Editor? {
      var file := OpenFile(path, p.models.next, None);
      var q := p.(models := Created(p.models), files := p.files + [file]);
      FileModelsSnoc(p.files, file);
      forall i | 0 <= i < |p.files|
        ensures p.files[i].model < p.models.next
      {
        assert p.files[i].model in FileModels(p.files);
      }
      SwitchIsSound(q, |p.files|);
    }
  }

  lemma FileModelsSnoc(files: seq<OpenFile>, f: OpenFile)
    ensures FileModels(files + [f]) == FileModels(files) + {f.model}
  {
    assert forall g :: g in files + [f] <==> g in files || g == f;
  }

  lemma DiffMadeIsSound(p: Panel)
    requires ModelsOwned(p) && ShowsActive(p) && p.diff.None? && p.diffMode
    ensures Sound(DiffMade(p))
  {
    var q := DiffMade(p);
    assert DiffModels(q) == [q.diff.value.original, q.diff.value.modified];
  }

  /** Disposing the models of the diff leaves a panel without a diff that owns the rest. */
  lemma DiffDroppedIsOwned(p: Panel)
    requires ModelsOwned(p) && ShowsActive(p)
    ensures var q := DisposeAll(p, DiffModels(p)).(diff := None);
      ModelsOwned(q) && ShowsActive(q) && q.files == p.files && q.editor == p.editor && q.diffMode == p.diffMode
  {
    DisposeAllFrees(p, DiffModels(p));
    DisposeAllKeepsPanel(p, DiffModels(p));
    if p.files != [] {
      assert p.files[p.active] in p.files;
    }
  }

  lemma DiffOpensIsSound(p: Panel)
    requires Sound(p)
    ensures Sound(DiffOpens(p))
  {
    SaveActiveIsSound(p.(diffMode := true));
    var saved := SaveActive(p.(diffMode := true));
    if !Throws(p.editor) {
      DiffDroppedIsOwned(saved);
      var q := DisposeAll(saved, DiffModels(p));
      DiffMadeIsSound(q.(diff := None));
      assert DiffMade(q) == DiffMade(q.(diff := None));
    }
  }

  /** A diff reply shows its diff exactly when a model is in the editor. */
  lemma DiffShowsExactlyWhen(p: Panel)
    requires Sound(p) && p.editor.Editor?
    ensures var q := DiffOpens(p);
      && q.diffMode
      && (q.diff.Some? && q.diff != p.diff <==> HasView(p.editor))
      && (!HasView(p.editor) ==> q.diff == p.diff && q.models == p.models)
  {
    var saved := SaveActive(p.(diffMode := true));
    DisposeAllFrees(saved, DiffModels(p));
    DisposeAllKeepsPanel(saved, DiffModels(p));
    if p.diff.Some? {
      assert p.diff.value.original in DiffModels(p);
      assert p.diff.value.original in p.models.live;
      assert p.diff.value.original < p.models.next;
    }
    var q := DisposeAll(saved, DiffModels(p));
    assert q.models.next == p.models.next;
    assert HasView(p.editor) ==> DiffOpens(p) == DiffMade(q);
    assert !HasView(p.editor) ==> DiffOpens(p) == saved;
  }

  lemma FileModelsWithout(files: seq<OpenFile>, idx: nat)
    requires idx < |files| && DistinctModels(files)
    ensures DistinctModels(files[..idx] + files[idx + 1..])
    ensures FileModels(files[..idx] + files[idx + 1..]) == FileModels(files) - {files[idx].model}
  {
    var rest := files[..idx] + files[idx + 1..];
    forall m | m in FileModels(files) - {files[idx].model}
      ensures m in FileModels(rest)
    {
      var i :| 0 <= i < |files| && files[i].model == m;
      assert files[i] == rest[if i < idx then i else i - 1];
    }
    forall m | m in FileModels(rest)
      ensures m in FileModels(files) - {files[idx].model}
    {
      var i :| 0 <= i < |rest| && rest[i].model == m;
      assert rest[i] == files[if i < idx then i else i + 1];
    }
  }

  /** Disposing a file's model and dropping the file leaves everything else owned. */
  lemma DroppedIsOwned(p: Panel, idx: nat)
    requires ModelsOwned(p) && idx < |p.files|
    ensures ModelsOwned(Dropped(p, idx))
  {
    var q := Dropped(p, idx);
    assert p.files[idx].model in FileModels(p.files);
    FileModelsWithout(p.files, idx);
    assert DiffModels(q) == DiffModels(p);
  }

  lemma DroppedKeepsRest(p: Panel, idx: nat)
    requires idx < |p.files|
    ensures var q := Dropped(p, idx);
      && |q.files| == |p.files| - 1 && q.diff == p.diff && q.diffMode == p.diffMode
      && (q.editor.Editor? <==> p.editor.Editor?) && (q.editor.Disposed? <==> p.editor.Disposed?)
  {
  }

  lemma ShowNothingIsSound(p: Panel)
    requires ModelsOwned(p) && p.files == [] && !p.editor.Disposed? && (p.diff.Some? ==> p.diffMode)
    ensures Sound(ShowNothing(p))
  {
  }

  lemma CloseTabIsSound(p: Panel, idx: int)
    requires Sound(p)
    ensures Sound(CloseTab(p, idx))
  {
    if 0 <= idx < |p.files| {
      DroppedIsOwned(p, idx);
      DroppedKeepsRest(p, idx);
      NeighbourIsSound(Dropped(p, idx), idx);
    }
  }

  /** Showing the file that moved to a closed file's place, or the last one, or nothing. */
  lemma NeighbourIsSound(q: Panel, idx: nat)
    requires ModelsOwned(q) && q.editor.Editor? && (q.diff.Some? ==> q.diffMode)
    ensures var next := if idx < |q.files| then idx else |q.files| - 1;
      Sound(if q.files == [] then ShowNothing(q) else SwitchToFile(q.(active := next), next))
  {
    var next := if idx < |q.files| then idx else |q.files| - 1;
    if q.files == [] {
      ShowNothingIsSound(q);
    } else {
      assert DiffModels(q.(active := next)) == DiffModels(q);
      SwitchIsSound(q.(active := next), next);
    }
  }

  lemma ModelsOfIsLive(p: Panel, files: seq<OpenFile>)
    requires ModelsOwned(p) && DistinctModels(files) && FileModels(files) <= FileModels(p.files)
    ensures forall i, j :: 0 <= i < j < |ModelsOf(files)| ==> ModelsOf(files)[i] != ModelsOf(files)[j]
    ensures forall id :: id in ModelsOf(files) ==> id in p.models.live
    ensures (set id | id in ModelsOf(files)) == FileModels(files)
  {
    forall id | id in ModelsOf(files)
      ensures id in FileModels(files)
    {
      var i :| 0 <= i < |files| && ModelsOf(files)[i] == id;
      assert files[i] in files;
    }
    forall id | id in FileModels(files)
      ensures id in ModelsOf(files)
    {
      var i :| 0 <= i < |files| && files[i].model == id;
      assert ModelsOf(files)[i] == id;
    }
  }

  /** Disposing the models of some files and dropping those files leaves everything else owned. */
  lemma KeptIsOwned(p: Panel, gone: seq<OpenFile>, kept: seq<OpenFile>)
    requires ModelsOwned(p) && DistinctModels(gone) && DistinctModels(kept)
    requires FileModels(kept) == FileModels(p.files) - FileModels(gone) && FileModels(gone) <= FileModels(p.files)
    ensures ModelsOwned(DisposeAll(p, ModelsOf(gone)).(files := kept))
  {
    ModelsOfIsLive(p, gone);
    DisposeAllFrees(p, ModelsOf(gone));
    DisposeAllKeepsPanel(p, ModelsOf(gone));
    var q := DisposeAll(p, ModelsOf(gone)).(files := kept);
    assert DiffModels(q) == DiffModels(p);
  }

  lemma CloseOthersIsSound(p: Panel, keep: int)
    requires Sound(p)
    ensures Sound(CloseOthers(p, keep))
  {
    var gone := AllBut(p.files, keep);
    var q := DisposeAll(p, ModelsOf(gone));
    DisposeAllKeepsPanel(p, ModelsOf(gone));
    DisposeAllKeepsEditor(p, ModelsOf(gone));
    if 0 <= keep < |p.files| {
      var kept := [p.files[keep]];
      FileModelsWithout(p.files, keep);
      assert p.files[keep].model in FileModels(p.files);
      assert FileModels(kept) == {p.files[keep].model};
      KeptIsOwned(p, gone, kept);
      SwitchIsSound(q.(files := kept, active := 0), 0);
    } else {
      KeptIsOwned(p, gone, []);
      ShowNothingIsSound(q.(files := []));
    }
  }

  lemma {:induction false} DisposeAllKeepsEditor(p: Panel, ids: seq<nat>)
    ensures DisposeAll(p, ids).editor.Editor? <==> p.editor.Editor?
    ensures DisposeAll(p, ids).editor.NotCreated? <==> p.editor.NotCreated?
    decreases |ids|
  {
    if ids != [] {
      DisposeAllKeepsEditor(Dispose(p, ids[0]), ids[1..]);
    }
  }

  lemma DestroyFreesEverything(p: Panel)
    requires Sound(p)
    ensures DestroyPanel(p).models.live == {} && !DestroyPanel(p).models.disposedTwice
  {
    DisposeAllFrees(p, DiffModels(p));
    var q := DisposeAll(p, DiffModels(p));
    ModelsOfIsLive(p, p.files);
    forall id | id in ModelsOf(p.files)
      ensures id in q.models.live
    {
    }
    DisposeAllFrees(q, ModelsOf(p.files));
  }
}
