/** The script's session: the `prompts` collection, and the per-user `st.session_state` entries
  * `fields` (the editing buffer), `last_selected_idx` and `open_expander_idx`. Each user action
  * of one render pass is a method; `RenderPass` runs them in the order the script does. */
module Session {
  import opened Wrappers
  import opened Text
  import opened Records
  import opened PromptIds
  import opened Sidebar

  /** The button activated in a render pass; a pass reports at most one. */
  datatype Button =
    | NoButton
    | AddExampleButton
    | DeleteExampleButton(index: nat)
    | AddVersionNoteButton
    | DeleteVersionButton(index: nat)
    | SaveDraftButton
    | ApproveButton
    | DeleteButton
    | BackToListButton

  predicate NoDuplicates(s: seq<Id>)
  {
    forall i, j :: 0 <= i < j < |s| ==> s[i] != s[j]
  }

  /** `s` with every occurrence of `x` removed, the rest in order. */
  function Without(s: seq<Id>, x: Id): (r: seq<Id>)
    ensures forall y :: y in r <==> y in s && y != x
    ensures NoDuplicates(s) ==> NoDuplicates(r)
    ensures x !in s ==> r == s
    ensures NoDuplicates(s) && x in s ==>
      exists k :: 0 <= k < |s| && s[k] == x && r == s[..k] + s[k + 1..]
  {
    if s == [] then []
    else
      var rest := Without(s[1..], x);
      WithoutMembers(s, x, rest);
      WithoutNoDuplicates(s, x, rest);
      WithoutAbsent(s, x, rest);
      WithoutOrder(s, x, rest);
      if s[0] == x then rest else [s[0]] + rest
  }

  // One step of `Without` at the head of `s`, given what it did to the tail; one property each.

  lemma WithoutMembers(s: seq<Id>, x: Id, rest: seq<Id>)
    requires s != []
    requires forall y :: y in rest <==> y in s[1..] && y != x
    ensures var r := if s[0] == x then rest else [s[0]] + rest;
            forall y :: y in r <==> y in s && y != x
  {
    assert s == [s[0]] + s[1..];
  }

  lemma WithoutNoDuplicates(s: seq<Id>, x: Id, rest: seq<Id>)
    requires s != []
    requires forall y :: y in rest <==> y in s[1..] && y != x
    requires NoDuplicates(s[1..]) ==> NoDuplicates(rest)
    ensures var r := if s[0] == x then rest else [s[0]] + rest;
            NoDuplicates(s) ==> NoDuplicates(r)
  {
    if NoDuplicates(s) {
      NoDuplicatesTail(s);
      if s[0] != x {
        NoDuplicatesCons(s[0], rest);
      }
    }
  }

  lemma WithoutAbsent(s: seq<Id>, x: Id, rest: seq<Id>)
    requires s != []
    requires x !in s[1..] ==> rest == s[1..]
    ensures var r := if s[0] == x then rest else [s[0]] + rest;
            x !in s ==> r == s
  {
    assert s == [s[0]] + s[1..];
  }

  lemma WithoutOrder(s: seq<Id>, x: Id, rest: seq<Id>)
    requires s != []
    requires x !in s[1..] ==> rest == s[1..]
    requires NoDuplicates(s[1..]) && x in s[1..] ==>
      exists k :: 0 <= k < |s[1..]| && s[1..][k] == x && rest == s[1..][..k] + s[1..][k + 1..]
    ensures var r := if s[0] == x then rest else [s[0]] + rest;
            NoDuplicates(s) && x in s ==> exists k :: 0 <= k < |s| && s[k] == x && r == s[..k] + s[k + 1..]
  {
    if NoDuplicates(s) && x in s {
      NoDuplicatesTail(s);
      if s[0] == x {
        assert s[..0] + s[0 + 1..] == s[1..];
      } else {
        assert x in s[1..] by { assert s == [s[0]] + s[1..]; }
        RemovedBehindHead(s, x, rest);
      }
    }
  }

  lemma NoDuplicatesTail(s: seq<Id>)
    requires s != [] && NoDuplicates(s)
    ensures NoDuplicates(s[1..]) && s[0] !in s[1..]
  {
    forall i, j | 0 <= i < j < |s[1..]| ensures s[1..][i] != s[1..][j] {
      assert s[1..][i] == s[i + 1] && s[1..][j] == s[j + 1];
    }
    forall i | 0 <= i < |s[1..]| ensures s[1..][i] != s[0] {
      assert s[1..][i] == s[i + 1];
    }
  }

  lemma NoDuplicatesSnoc(t: seq<Id>, x: Id)
    requires x !in t && NoDuplicates(t)
    ensures NoDuplicates(t + [x])
  {
  }

  lemma NoDuplicatesCons(h: Id, t: seq<Id>)
    requires h !in t && NoDuplicates(t)
    ensures NoDuplicates([h] + t)
  {
    var r := [h] + t;
    forall i, j | 0 <= i < j < |r| ensures r[i] != r[j] {
      assert r[j] == t[j - 1];
      if i > 0 { assert r[i] == t[i - 1]; }
    }
  }

  /** Removing `x` from the tail of `s` at position `k` removes it from `s` at `k + 1`. */
  lemma RemovedBehindHead(s: seq<Id>, x: Id, rest: seq<Id>)
    requires s != [] && s[0] != x
    requires exists k :: 0 <= k < |s| - 1 && s[k + 1] == x && rest == s[1..][..k] + s[1..][k + 1..]
    ensures exists k :: 0 <= k < |s| && s[k] == x && [s[0]] + rest == s[..k] + s[k + 1..]
  {
    var k' :| 0 <= k' < |s| - 1 && s[k' + 1] == x && rest == s[1..][..k'] + s[1..][k' + 1..];
    var k := k' + 1;
    var front, back := s[1..][..k'], s[1..][k' + 1..];
    assert s[..k] == [s[0]] + front;
    assert s[k + 1..] == back;
    assert [s[0]] + rest == [s[0]] + front + back;
    assert s[k] == x && [s[0]] + rest == s[..k] + s[k + 1..];
  }

  /** `prompt_collection.find({}, projection)`: every stored record once, in collection order. */
  function FetchAll(order: seq<Id>, store: map<Id, Doc>): (s: seq<Summary>)
    requires forall i :: 0 <= i < |order| ==> order[i] in store
    ensures |s| == |order|
    ensures forall i :: 0 <= i < |s| ==> s[i] == Project(order[i], store[order[i]])
  {
    seq(|order|, i requires 0 <= i < |order| => Project(order[i], store[order[i]]))
  }

  /** The list a widget loop leaves behind: entry `i` takes the value its widget reported, and
    * an entry with no reported value keeps its current one. */
  function Overlay<T>(cur: seq<T>, typed: seq<T>): (r: seq<T>)
    ensures |r| == |cur|
    ensures forall i :: 0 <= i < |r| ==> r[i] == if i < |typed| then typed[i] else cur[i]
  {
    seq(|cur|, i requires 0 <= i < |cur| => if i < |typed| then typed[i] else cur[i])
  }

  /** A delete button `deleteAt` names an entry of a list of length `n`. */
  predicate Deletes(n: nat, deleteAt: Option<nat>)
  {
    deleteAt.Some? && deleteAt.value < n
  }

  /** The list a widget loop with a per-entry delete button leaves behind: every entry takes
    * its widget's value, except that when entry `d`'s delete button was pressed the loop stops
    * there, entry `d` is gone and the later entries keep their current values. */
  function AfterListLoop<T>(cur: seq<T>, typed: seq<T>, deleteAt: Option<nat>): (r: seq<T>)
    ensures !Deletes(|cur|, deleteAt) ==> r == Overlay(cur, typed)
    ensures Deletes(|cur|, deleteAt) ==> |r| == |cur| - 1
    ensures Deletes(|cur|, deleteAt) ==> forall i :: 0 <= i < |r| ==>
      r[i] == if i >= deleteAt.value then cur[i + 1] else if i < |typed| then typed[i] else cur[i]
  {
    if Deletes(|cur|, deleteAt) then Overlay(cur, typed)[..deleteAt.value] + cur[deleteAt.value + 1..]
    else Overlay(cur, typed)
  }

  /** The version label of a note added in front of `count` notes: `f"v{count + 1}.0"`. */
  function NewVersionLabel(count: nat): (r: string)
    ensures |r| >= 4 && r[0] == 'v' && r[|r| - 2..] == ".0"
    ensures IsDigits(r[1..|r| - 2]) && Value(r[1..|r| - 2]) == count + 1
    ensures r[1] != '0'
  {
    var d := NatToString(count + 1);
    assert |d| == 1 ==> Value(d) == DigitValue(d[0]) by {
      if |d| == 1 { assert d[..0] == []; }
    }
    assert ("v" + d + ".0")[1..|d| + 1] == d;
    "v" + d + ".0"
  }

  /** The buffer a commit writes, and where: a new record (`target` is `None`) is inserted
    * under `newId` with the allocated `pid`; an existing record gets the buffer's eight keys
    * and keeps its `prompt_id`; an `_id` no longer stored matches nothing and nothing changes.
    * Every other record is left as it was. */
  function CommittedStore(store: map<Id, Doc>, newId: Id, target: Option<Id>, f: Fields, pid: string)
    : (r: map<Id, Doc>)
    requires newId !in store
    ensures target.None? ==>
      r.Keys == store.Keys + {newId} && BuildFields(r[newId]) == f && r[newId].promptId == Some(pid)
    ensures target.Some? ==> r.Keys == store.Keys
    ensures target.Some? && target.value in store ==> BuildFields(r[target.value]) == f
    // The written document is the whole insert or `$set` result, every buffer key present.
    ensures target.None? ==> r[newId] == InsertedDoc(f, pid)
    ensures target.Some? && target.value in store ==> r[target.value] == UpdatedDoc(store[target.value], f)
    ensures forall id :: id in store && Some(id) != target ==> r[id] == store[id]
    ensures forall id :: id in store ==> r[id].promptId == store[id].promptId
  {
    if target.None? then store[newId := InsertedDoc(f, pid)]
    else if target.value in store then store[target.value := UpdatedDoc(store[target.value], f)]
    else store
  }

  /** What the form part of a pass leaves: the buffer, the open version expander, and whether a
    * delete button ended the pass. */
  datatype EditOutcome = EditOutcome(fields: Fields, openExpander: Option<nat>, rerun: bool)

  /** The form part of one pass (app.py:119-174) on buffer `f`: the scalar widgets report `w`'s
    * values, then "Add Example" and the examples' loop run, then (unless a delete ended the
    * pass) "Add Version Note" and the version notes' loop; `open` is the open expander. */
  function EditPass(f: Fields, w: Fields, button: Button, today: string, open: Option<nat>): (e: EditOutcome)
    // The scalar widgets' values are in the buffer, whatever the button.
    ensures e.fields.title == w.title && e.fields.description == w.description &&
            e.fields.status == w.status && e.fields.model == w.model &&
            e.fields.tags == w.tags && e.fields.promptBody == w.promptBody
    // Only a delete button naming an existing entry ends the pass early.
    ensures e.rerun <==>
      (button.DeleteExampleButton? && button.index < |f.examples|) ||
      (button.DeleteVersionButton? && button.index < |f.versionHistory|)
    // Without a delete, an add button grows its list by one and nothing else changes its length.
    ensures !e.rerun ==>
      |e.fields.examples| == |f.examples| + (if button == AddExampleButton then 1 else 0) &&
      |e.fields.versionHistory| == |f.versionHistory| + (if button == AddVersionNoteButton then 1 else 0)
    // Deleting an example ends the pass before the version notes take their widgets' values.
    ensures e.rerun && button.DeleteExampleButton? ==>
      |e.fields.examples| == |f.examples| - 1 && e.fields.versionHistory == f.versionHistory &&
      e.openExpander == open
    // Deleting a version note closes its expander if it was the open one.
    ensures e.rerun && button.DeleteVersionButton? ==>
      |e.fields.versionHistory| == |f.versionHistory| - 1 &&
      e.openExpander == (if open == Some(button.index) then None else open)
    // "Add Version Note" opens the new note's expander; other buttons leave it unless deleting.
    ensures button == AddVersionNoteButton ==> e.openExpander == Some(0)
    ensures !button.DeleteVersionButton? && button != AddVersionNoteButton ==> e.openExpander == open
  {
    var f1 := w.(examples := f.examples, versionHistory := f.versionHistory);
    var f2 := if button == AddExampleButton then f1.(examples := f1.examples + [Example("", "")]) else f1;
    var delEx := if button.DeleteExampleButton? then Some(button.index) else None;
    var f3 := f2.(examples := AfterListLoop(f2.examples, w.examples, delEx));
    if Deletes(|f2.examples|, delEx) then
      EditOutcome(f3, open, true)
    else
      var f4 := if button == AddVersionNoteButton
        then f3.(versionHistory := [VersionNote(NewVersionLabel(|f3.versionHistory|), today, "")] + f3.versionHistory)
        else f3;
      var open4 := if button == AddVersionNoteButton then Some(0) else open;
      var delVer := if button.DeleteVersionButton? then Some(button.index) else None;
      var rerun := Deletes(|f4.versionHistory|, delVer);
      EditOutcome(f4.(versionHistory := AfterListLoop(f4.versionHistory, w.versionHistory, delVer)),
                  if rerun && open4 == delVer then None else open4,
                  rerun)
  }

  /** Widgets that report the buffer's own values and no button leave the buffer, and the open
    * expander, exactly as they were. */
  lemma EditPassIdle(f: Fields, today: string, open: Option<nat>)
    ensures EditPass(f, f, NoButton, today, open) == EditOutcome(f, open, false)
  {
    OverlayOfOwnValues(f.examples);
    OverlayOfOwnValues(f.versionHistory);
  }

  /** On a buffer with no examples and no version notes, a pass without an add button leaves
    * both lists empty, whatever the list widgets report. */
  lemma EditPassKeepsEmptyLists(f: Fields, w: Fields, button: Button, today: string, open: Option<nat>)
    requires f.examples == [] && f.versionHistory == []
    requires button != AddExampleButton && button != AddVersionNoteButton
    ensures var e := EditPass(f, w, button, today, open);
            !e.rerun && e.fields == w.(examples := [], versionHistory := [])
  {
  }

  /** Saving from "New Prompt" inserts one record carrying the allocated id and the typed
    * title, with the template's empty example and version lists whatever the list widgets
    * report, since the buffer is rebuilt from the template on every such pass. */
  lemma SavedNewPrompt(store: map<Id, Doc>, newId: Id, w: Fields, button: Button, today: string,
                       open: Option<nat>, pid: string)
    requires newId !in store
    requires button == SaveDraftButton || button == ApproveButton
    ensures var e := EditPass(BuildFields(EmptyDoc), w, button, today, open);
            var saved := if button == ApproveButton then e.fields.(status := Approved) else e.fields;
            var r := CommittedStore(store, newId, None, saved, pid);
            r.Keys == store.Keys + {newId} && r[newId].promptId == Some(pid) &&
            r[newId].title == Some(w.title) &&
            r[newId].examples == Some([]) && r[newId].versionHistory == Some([])
  {
    EditPassKeepsEmptyLists(BuildFields(EmptyDoc), w, button, today, open);
  }

  class PromptApp {
    /** The `prompts` collection, by `_id`. */
    var store: map<Id, Doc>
    /** The collection's natural order: the order `find({})` returns documents in. */
    var order: seq<Id>
    /** The next `_id` the store assigns. */
    var nextOid: Id
    /** `st.session_state['fields']`; `None` when the key is absent. */
    var fields: Option<Fields>
    /** `st.session_state['last_selected_idx']`; `None` before the first pass. */
    var lastSelectedIdx: Option<nat>
    /** `st.session_state['open_expander_idx']`; absent and `None` read alike. */
    var openExpanderIdx: Option<nat>

    ghost predicate Valid()
      reads this`order, this`store, this`nextOid
    {
      NoDuplicates(order) &&
      (forall id :: id in store <==> id in order) &&
      (forall id :: id in store ==> id < nextOid)
    }

    /** A fresh session attached to a collection holding `docs`, in that natural order; each
      * document gets its own `_id`. */
    constructor (docs: seq<Doc>)
      ensures Valid()
      ensures |order| == |docs| && forall i :: 0 <= i < |docs| ==> store[order[i]] == docs[i]
      ensures fields.None? && lastSelectedIdx.None? && openExpanderIdx.None?
    {
      var ids: seq<Id> := seq(|docs|, i requires 0 <= i < |docs| => i);
      assert forall id: Id :: id in ids <==> id < |docs| by {
        forall id: Id ensures id in ids <==> id < |docs| {
          if id < |docs| { assert ids[id] == id; }
        }
      }
      store := map i | 0 <= i < |docs| :: docs[i];
      order := ids;
      nextOid := |docs|;
      fields := None;
      lastSelectedIdx := None;
      openExpanderIdx := None;
    }

    /** `get_all_prompts()`: one summary per stored record, in collection order. */
    function AllPrompts(): (s: seq<Summary>)
      reads this`order, this`store, this`nextOid
      requires Valid()
      ensures |s| == |order|
      ensures forall i :: 0 <= i < |s| ==> s[i].id == order[i] && s[i] == Project(order[i], store[order[i]])
    {
      FetchAll(order, store)
    }

    /** `get_new_prompt_id()` against the current collection. */
    function AllocatePromptId(): (pid: string)
      reads this`order, this`store, this`nextOid
      requires Valid()
      ensures |pid| >= 7 && pid[..4] == "PRM-" && IsDigits(pid[4..])
      ensures (forall id :: id in store ==> store[id].promptId.None?) ==> pid == FirstPromptId
    {
      var all := AllPrompts();
      FirstIsFormatted();
      NextPromptId(MaxPromptId(all))
    }

    // -------------------------------------------------------------------------
    // Selection (app.py:51-57) and the editing buffer (app.py:91-116)
    // -------------------------------------------------------------------------

    /** Remembers the selected option; a change of selection drops the buffer and ends the pass. */
    method Select(selectedIdx: nat) returns (rerun: bool)
      modifies this`lastSelectedIdx, this`fields
      ensures old(lastSelectedIdx).None? ==>
        !rerun && lastSelectedIdx == Some(selectedIdx) && fields == old(fields)
      ensures old(lastSelectedIdx) == Some(selectedIdx) ==>
        !rerun && lastSelectedIdx == old(lastSelectedIdx) && fields == old(fields)
      ensures old(lastSelectedIdx).Some? && old(lastSelectedIdx) != Some(selectedIdx) ==>
        rerun && lastSelectedIdx == Some(selectedIdx) && fields.None?
    {
      if lastSelectedIdx.None? {
        lastSelectedIdx := Some(selectedIdx);
      }
      rerun := false;
      if lastSelectedIdx != Some(selectedIdx) {
        lastSelectedIdx := Some(selectedIdx);
        fields := None;
        rerun := true;
      }
    }

    /** The buffer the form starts from for option `selectedIdx`: rebuilt from the template for
      * "New Prompt", rebuilt from the selected record when there is no buffer, and otherwise the
      * buffer as it is. */
    function LoadedBuffer(selectedIdx: nat): (f: Fields)
      reads this`order, this`store, this`nextOid, this`fields
      requires Valid() && selectedIdx <= |order|
      ensures selectedIdx == 0 ==> f == BuildFields(EmptyDoc)
      ensures selectedIdx > 0 && fields.None? ==>
        f == BuildFields(store[SelectedRecord(AllPrompts(), selectedIdx).value])
      ensures selectedIdx > 0 && fields.Some? ==> f == fields.value
    {
      if selectedIdx == 0 then BuildFields(NewPromptTemplate())
      else if fields.None? then BuildFields(store[order[selectedIdx - 1]])
      else fields.value
    }

    /** Loads the selected document (the template for option 0) and rebuilds the buffer from it
      * exactly when there is no buffer or "New Prompt" is selected; otherwise the buffer, with
      * whatever was typed into it, is kept as it is. Returns the `_id` under edit. */
    method LoadEditing(selectedIdx: nat) returns (target: Option<Id>)
      requires Valid() && selectedIdx <= |order|
      modifies this`fields
      ensures target == SelectedRecord(AllPrompts(), selectedIdx)
      ensures target.Some? ==> target.value in store
      ensures var doc := if target.None? then NewPromptTemplate() else store[target.value];
              fields == if old(fields).None? || selectedIdx == 0 then Some(BuildFields(doc)) else old(fields)
      ensures fields == Some(old(LoadedBuffer(selectedIdx)))
    {
      var all := AllPrompts();
      target := SelectedRecord(all, selectedIdx);
      var doc := if target.None? then NewPromptTemplate() else store[target.value];
      if fields.None? || selectedIdx == 0 {
        fields := Some(BuildFields(doc));
      }
    }

    /** The form's scalar widgets write their values back into the buffer (app.py:121-129). */
    method ApplyForm(w: Fields)
      requires fields.Some?
      modifies this`fields
      ensures fields == Some(old(fields).value.(title := w.title, description := w.description,
                status := w.status, model := w.model, tags := w.tags, promptBody := w.promptBody))
    {
      fields := Some(fields.value.(title := w.title, description := w.description,
                status := w.status, model := w.model, tags := w.tags, promptBody := w.promptBody));
    }

    // -------------------------------------------------------------------------
    // List edits on the buffer (app.py:133-174)
    // -------------------------------------------------------------------------

    /** "Add Example": a blank example at the end. */
    method AddExample()
      requires fields.Some?
      modifies this`fields
      ensures fields == Some(old(fields).value.(examples := old(fields).value.examples + [Example("", "")]))
    {
      var f := fields.value;
      fields := Some(f.(examples := f.examples + [Example("", "")]));
    }

    /** The loop over the examples: each example takes its widgets' values in turn; when the
      * "Delete Example" button of entry `d` was pressed, entry `d` is popped and the pass ends,
      * leaving the later entries as they were. */
    method WriteBackExamples(typed: seq<Example>, deleteAt: Option<nat>) returns (rerun: bool)
      requires fields.Some?
      modifies this`fields
      ensures var f := old(fields).value;
              rerun == Deletes(|f.examples|, deleteAt) &&
              fields == Some(f.(examples := AfterListLoop(f.examples, typed, deleteAt)))
    {
      var f := fields.value;
      ghost var cur := f.examples;
      var exs := f.examples;
      var i := 0;
      rerun := false;
      while i < |exs|
        invariant 0 <= i <= |exs| == |cur|
        invariant exs[..i] == Overlay(cur, typed)[..i]
        invariant exs[i..] == cur[i..]
        invariant deleteAt.Some? && deleteAt.value < i ==> false
      {
        if i < |typed| {
          exs := exs[i := typed[i]];
        }
        if deleteAt == Some(i) {
          assert exs[..i] == Overlay(cur, typed)[..i];
          assert exs[i + 1..] == cur[i + 1..];
          exs := exs[..i] + exs[i + 1..];
          rerun := true;
          break;
        }
        i := i + 1;
      }
      if !rerun {
        assert exs == exs[..i] && Overlay(cur, typed) == Overlay(cur, typed)[..i];
      }
      fields := Some(f.(examples := exs));
    }

    /** "Add Version Note": a note for `today` in front of the others, labelled one past their
      * count, and its expander marked open. */
    method AddVersionNote(today: string)
      requires fields.Some?
      modifies this`fields, this`openExpanderIdx
      ensures var f := old(fields).value;
              fields == Some(f.(versionHistory :=
                [VersionNote(NewVersionLabel(|f.versionHistory|), today, "")] + f.versionHistory))
      ensures openExpanderIdx == Some(0)
    {
      var f := fields.value;
      var vhs := [VersionNote(NewVersionLabel(|f.versionHistory|), today, "")] + f.versionHistory;
      fields := Some(f.(versionHistory := vhs));
      openExpanderIdx := Some(0);
    }

    /** The loop over the version notes: each note takes its widgets' values in turn; when the
      * "Delete Version" button of note `d` was pressed, note `d` is popped, the open expander is
      * closed if it was `d`'s (and otherwise left pointing where it was), and the pass ends. */
    method WriteBackVersions(typed: seq<VersionNote>, deleteAt: Option<nat>) returns (rerun: bool)
      requires fields.Some?
      modifies this`fields, this`openExpanderIdx
      ensures var f := old(fields).value;
              rerun == Deletes(|f.versionHistory|, deleteAt) &&
              fields == Some(f.(versionHistory := AfterListLoop(f.versionHistory, typed, deleteAt)))
      ensures openExpanderIdx == if rerun && old(openExpanderIdx) == deleteAt then None else old(openExpanderIdx)
    {
      var f := fields.value;
      ghost var cur := f.versionHistory;
      var vhs := f.versionHistory;
      var i := 0;
      rerun := false;
      while i < |vhs|
        invariant 0 <= i <= |vhs| == |cur|
        invariant vhs[..i] == Overlay(cur, typed)[..i]
        invariant vhs[i..] == cur[i..]
        invariant deleteAt.Some? && deleteAt.value < i ==> false
        invariant openExpanderIdx == old(openExpanderIdx)
      {
        var expanded := openExpanderIdx == Some(i);
        if i < |typed| {
          vhs := vhs[i := typed[i]];
        }
        if deleteAt == Some(i) {
          assert vhs[..i] == Overlay(cur, typed)[..i];
          assert vhs[i + 1..] == cur[i + 1..];
          vhs := vhs[..i] + vhs[i + 1..];
          if openExpanderIdx == Some(i) {
            openExpanderIdx := None;
          }
          rerun := true;
          break;
        }
        if expanded {
          openExpanderIdx := Some(i);
        }
        i := i + 1;
      }
      if !rerun {
        assert vhs == vhs[..i] && Overlay(cur, typed) == Overlay(cur, typed)[..i];
      }
      fields := Some(f.(versionHistory := vhs));
    }

    // -------------------------------------------------------------------------
    // Commit actions (app.py:193-240)
    // -------------------------------------------------------------------------

    /** Writes a buffer snapshot: a new record is inserted with a freshly allocated `prompt_id`,
      * an existing one gets the eight buffer keys `$set` (nothing happens when its `_id` is
      * gone). `writeOk` is whether the store call succeeds; success drops the buffer, failure
      * leaves the store and the buffer as they were. */
    method Commit(target: Option<Id>, f: Fields, writeOk: bool) returns (ok: bool)
      requires Valid()
      modifies this`store, this`order, this`nextOid, this`fields
      ensures Valid()
      ensures ok == writeOk
      ensures !ok ==> store == old(store) && order == old(order) && nextOid == old(nextOid) && fields == old(fields)
      ensures ok ==> fields.None?
      // A record's prompt_id is written only when the record is inserted.
      ensures forall id :: id in old(store) ==> id in store && store[id].promptId == old(store)[id].promptId
      ensures ok ==>
        old(nextOid) !in old(store) &&
        store == CommittedStore(old(store), old(nextOid), target, f, old(AllocatePromptId()))
      ensures ok && target.None? ==> order == old(order) + [old(nextOid)] && nextOid == old(nextOid) + 1
      ensures ok && target.Some? ==> order == old(order) && nextOid == old(nextOid)
    {
      ok := writeOk;
      if !ok {
        return;
      }
      assert nextOid !in store;
      var pid := if target.None? then AllocatePromptId() else "";
      var written := CommittedStore(store, nextOid, target, f, pid);
      if target.None? {
        assert written.Keys == store.Keys + {nextOid};
        order := order + [nextOid];
        NoDuplicatesSnoc(old(order), nextOid);
        nextOid := nextOid + 1;
      }
      store := written;
      fields := None;
    }

    /** "Save Draft": commits the buffer as it is. */
    method SaveDraft(target: Option<Id>, writeOk: bool) returns (ok: bool)
      requires Valid() && fields.Some?
      modifies this`store, this`order, this`nextOid, this`fields
      ensures Valid()
      ensures ok == writeOk
      ensures !ok ==> store == old(store) && order == old(order) && fields == old(fields)
      ensures ok ==> fields.None?
      ensures ok ==>
        old(nextOid) !in old(store) &&
        store == CommittedStore(old(store), old(nextOid), target, old(fields).value, old(AllocatePromptId()))
      ensures ok ==> order == if target.None? then old(order) + [old(nextOid)] else old(order)
    {
      ok := Commit(target, fields.value, writeOk);
    }

    /** "Approve": sets the buffer's status to Approved, then commits it; the status stays
      * Approved in the buffer when the write fails. */
    method Approve(target: Option<Id>, writeOk: bool) returns (ok: bool)
      requires Valid() && fields.Some?
      modifies this`store, this`order, this`nextOid, this`fields
      ensures Valid()
      ensures ok == writeOk
      ensures !ok ==> store == old(store) && order == old(order) &&
                      fields == Some(old(fields).value.(status := Approved))
      ensures ok ==> fields.None?
      ensures ok ==>
        old(nextOid) !in old(store) &&
        store == CommittedStore(old(store), old(nextOid), target, old(fields).value.(status := Approved), old(AllocatePromptId()))
      ensures ok ==> order == if target.None? then old(order) + [old(nextOid)] else old(order)
      // The written record is Approved, whatever the status widget showed.
      ensures ok && target.None? ==> store[old(nextOid)].status == Some(Approved)
      ensures ok && target.Some? && target.value in old(store) ==> store[target.value].status == Some(Approved)
    {
      fields := Some(fields.value.(status := Approved));
      ok := Commit(target, fields.value, writeOk);
    }

    /** "Delete" (offered for stored records only): `delete_one` by `_id`, a no-op when the
      * record is already gone; success drops the buffer. */
    method Delete(target: Id, writeOk: bool) returns (ok: bool)
      requires Valid()
      modifies this`store, this`order, this`fields
      ensures Valid()
      ensures ok == writeOk
      ensures !ok ==> store == old(store) && order == old(order) && fields == old(fields)
      ensures ok ==> store == old(store) - {target} && order == Without(old(order), target) && fields.None?
    {
      ok := writeOk;
      if ok {
        store := store - {target};
        order := Without(order, target);
        fields := None;
      }
    }

    /** "Back to List": drops the buffer without writing anything. */
    method BackToList()
      requires fields.Some?
      modifies this`fields
      ensures fields.None?
    {
      fields := None;
    }

    // -------------------------------------------------------------------------
    // One execution of the script
    // -------------------------------------------------------------------------

    /** The form part of a pass (app.py:119-174): scalar widgets, then the examples, then the
      * version notes, with the list button of this pass, if any. Returns whether a delete
      * button ended the pass. */
    method EditBuffer(w: Fields, button: Button, today: string) returns (rerun: bool)
      requires fields.Some?
      modifies this`fields, this`openExpanderIdx
      ensures var e := EditPass(old(fields).value, w, button, today, old(openExpanderIdx));
              fields == Some(e.fields) && openExpanderIdx == e.openExpander && rerun == e.rerun
    {
      ApplyForm(w);
      if button == AddExampleButton {
        AddExample();
      }
      rerun := WriteBackExamples(w.examples, if button.DeleteExampleButton? then Some(button.index) else None);
      if rerun {
        return;
      }
      if button == AddVersionNoteButton {
        AddVersionNote(today);
      }
      rerun := WriteBackVersions(w.versionHistory, if button.DeleteVersionButton? then Some(button.index) else None);
    }

    /** Loads the buffer for the selected option and runs the form part of the pass on it.
      * Returns the `_id` under edit and whether a delete button ended the pass. */
    method LoadAndEdit(selectedIdx: nat, w: Fields, button: Button, today: string)
      returns (target: Option<Id>, rerun: bool)
      requires Valid() && selectedIdx <= |order|
      modifies this`fields, this`openExpanderIdx
      ensures target == SelectedRecord(AllPrompts(), selectedIdx)
      ensures var e := EditPass(old(LoadedBuffer(selectedIdx)), w, button, today, old(openExpanderIdx));
              fields == Some(e.fields) && openExpanderIdx == e.openExpander && rerun == e.rerun
    {
      target := LoadEditing(selectedIdx);
      rerun := EditBuffer(w, button, today);
    }

    /** What the action buttons (app.py:193-240) leave behind, given the buffer `buf` they
      * act on, the record `target` under edit (`None` for "New Prompt"), the id `pid` the
      * allocator would hand out and the store before them (`store0`, `order0`, `nextOid0`).
      * `saveFailed` is whether an error is shown; "Delete" exists only for a stored record. */
    ghost predicate Acted(target: Option<Id>, button: Button, writeOk: bool, saveFailed: bool, buf: Fields,
                          pid: string, store0: map<Id, Doc>, order0: seq<Id>, nextOid0: Id)
      reads this`store, this`order, this`fields
    {
      var saved := if button == ApproveButton then buf.(status := Approved) else buf;
      // "Save Draft" and "Approve" write the buffer (Approve with status Approved) to the record
      // under edit, or insert it under `pid` for "New Prompt"; an error is shown exactly when
      // the write fails, and then the store is untouched and the buffer kept.
      (button == SaveDraftButton || button == ApproveButton ==>
        saveFailed == !writeOk &&
        (writeOk ==> nextOid0 !in store0 && store == CommittedStore(store0, nextOid0, target, saved, pid) &&
                     order == (if target.None? then order0 + [nextOid0] else order0) && fields.None?) &&
        (!writeOk ==> store == store0 && order == order0 && fields == Some(saved))) &&
      // "Delete" on a stored record removes it; a failure keeps store and buffer.
      (button == DeleteButton && target.Some? ==>
        saveFailed == !writeOk &&
        (writeOk ==> store == store0 - {target.value} && order == Without(order0, target.value) && fields.None?) &&
        (!writeOk ==> store == store0 && order == order0 && fields == Some(buf))) &&
      // "Back to List" drops the buffer and writes nothing.
      (button == BackToListButton ==>
        !saveFailed && fields.None? && store == store0 && order == order0) &&
      // Any other button (or none) writes nothing and keeps the buffer.
      (button !in {SaveDraftButton, ApproveButton, BackToListButton} && (button == DeleteButton ==> target.None?) ==>
        !saveFailed && fields == Some(buf) && store == store0 && order == order0)
    }

    /** The action buttons of a pass (app.py:193-240) on the current buffer. Returns whether an
      * error is shown. */
    method RunAction(target: Option<Id>, button: Button, writeOk: bool) returns (saveFailed: bool)
      requires Valid() && fields.Some?
      modifies this`store, this`order, this`nextOid, this`fields
      ensures Valid()
      ensures Acted(target, button, writeOk, saveFailed, old(fields).value, old(AllocatePromptId()),
                    old(store), old(order), old(nextOid))
    {
      var ok := true;
      match button {
        case SaveDraftButton =>
          ok := SaveDraft(target, writeOk);
        case ApproveButton =>
          ok := Approve(target, writeOk);
        case DeleteButton =>
          if target.Some? {
            ok := Delete(target.value, writeOk);
          }
        case BackToListButton =>
          BackToList();
        case _ =>
      }
      saveFailed := !ok;
    }

    /** What the rest of a pass, once the selection is settled, leaves behind, given the state
      * before it (`store0` … `open0`), the buffer `loaded` the form starts from, the record
      * `target` under edit (`None` for "New Prompt") and the id `pid` the allocator would hand
      * out: the form's outcome (`EditPass`), and unless a list's delete button ended the pass
      * there, the action buttons' outcome on the edited buffer. No action moves the open
      * expander. */
    ghost predicate Continued(w: Fields, button: Button, today: string, writeOk: bool, saveFailed: bool,
                              loaded: Fields, target: Option<Id>, pid: string,
                              store0: map<Id, Doc>, order0: seq<Id>, nextOid0: Id,
                              open0: Option<nat>)
      reads this`store, this`order, this`fields, this`openExpanderIdx
    {
      var e := EditPass(loaded, w, button, today, open0);
      openExpanderIdx == e.openExpander &&
      (e.rerun ==> !saveFailed && fields == Some(e.fields) && store == store0 && order == order0) &&
      (!e.rerun ==> Acted(target, button, writeOk, saveFailed, e.fields, pid, store0, order0, nextOid0))
    }

    /** The rest of a pass once the selection is settled (app.py:91-240): the buffer is loaded,
      * the form edits it, and the action button, if any, runs. Returns whether an error is
      * shown. */
    method ContinuePass(selectedIdx: nat, w: Fields, button: Button, today: string, writeOk: bool)
      returns (saveFailed: bool)
      requires Valid() && selectedIdx <= |order|
      modifies this`store, this`order, this`nextOid, this`fields, this`openExpanderIdx
      ensures Valid()
      ensures Continued(w, button, today, writeOk, saveFailed, old(LoadedBuffer(selectedIdx)),
                        SelectedRecord(old(AllPrompts()), selectedIdx), old(AllocatePromptId()),
                        old(store), old(order), old(nextOid), old(openExpanderIdx))
    {
      var target, rerun := LoadAndEdit(selectedIdx, w, button, today);
      assert Valid();
      saveFailed := false;
      if rerun {
        return;
      }
      saveFailed := RunAction(target, button, writeOk);
    }

    /** One render pass: `selectedIdx` is the radio's value, `w` what the form's widgets report
      * (list entries by position), `button` the one button pressed, `today` the date and
      * `writeOk` whether a store write succeeds. Returns whether an error is shown. */
    method RenderPass(selectedIdx: nat, w: Fields, button: Button, today: string, writeOk: bool)
      returns (saveFailed: bool)
      requires Valid() && selectedIdx <= |order|
      modifies this
      ensures Valid()
      // A different selection drops the buffer before anything is loaded or written.
      ensures old(lastSelectedIdx).Some? && old(lastSelectedIdx) != Some(selectedIdx) ==>
        !saveFailed && fields.None? && store == old(store) && order == old(order) &&
        openExpanderIdx == old(openExpanderIdx) && lastSelectedIdx == Some(selectedIdx)
      // Otherwise the selection is remembered and the rest of the pass runs on the buffer
      // loaded for it.
      ensures old(lastSelectedIdx).None? || old(lastSelectedIdx) == Some(selectedIdx) ==>
        lastSelectedIdx == Some(selectedIdx) &&
        Continued(w, button, today, writeOk, saveFailed, old(LoadedBuffer(selectedIdx)),
                  SelectedRecord(old(AllPrompts()), selectedIdx), old(AllocatePromptId()),
                  old(store), old(order), old(nextOid), old(openExpanderIdx))
    {
      saveFailed := false;
      var rerun := Select(selectedIdx);
      assert Valid();
      if rerun {
        return;
      }
      saveFailed := ContinuePass(selectedIdx, w, button, today, writeOk);
    }

    /** A pass whose widgets report the buffer and in which nothing is pressed changes nothing. */
    lemma ContinuedIdle(w: Fields, today: string, writeOk: bool, saveFailed: bool, target: Option<Id>,
                        pid: string, store0: map<Id, Doc>, order0: seq<Id>, nextOid0: Id, open0: Option<nat>)
      requires Continued(w, NoButton, today, writeOk, saveFailed, w, target, pid,
                         store0, order0, nextOid0, open0)
      ensures fields == Some(w) && store == store0 && order == order0 && openExpanderIdx == open0
    {
      EditPassIdle(w, today, open0);
    }

    /** Saving from "New Prompt" inserts one record with the allocated id, the typed title and
      * the template's empty lists. */
    lemma ContinuedNewPrompt(w: Fields, button: Button, today: string, saveFailed: bool, pid: string,
                             store0: map<Id, Doc>, order0: seq<Id>, nextOid0: Id, open0: Option<nat>)
      requires button == SaveDraftButton || button == ApproveButton
      requires Continued(w, button, today, true, saveFailed, BuildFields(EmptyDoc), None, pid,
                         store0, order0, nextOid0, open0)
      ensures store.Keys == store0.Keys + {nextOid0} && store[nextOid0].promptId == Some(pid) &&
              store[nextOid0].title == Some(w.title) &&
              store[nextOid0].examples == Some([]) && store[nextOid0].versionHistory == Some([]) &&
              fields.None?
    {
      SavedNewPrompt(store0, nextOid0, w, button, today, open0, pid);
    }
  }

  /** Widgets that report the entries' own values change nothing. */
  lemma OverlayOfOwnValues<T>(cur: seq<T>)
    ensures Overlay(cur, cur) == cur
  {
  }
}
