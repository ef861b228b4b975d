# Prompt maintenance editor — record lifecycle model

`app.py` is a Streamlit page that edits "prompt" documents kept in the MongoDB collection
`prompts`: title, description, status, model, tags, prompt body, examples and version history.
Under its widget calls sit five pieces of logic, modelled here in Dafny:

1. the sequential `PRM-###` allocator `get_new_prompt_id` (`prompt_ids.dfy`);
2. the sidebar: status emoji, the stable (status rank, title) sort of the fetched records, the
   radio's option labels and the record an option loads (`sidebar.dfy`);
3. the selection / editing-buffer state machine in `st.session_state` (`session.dfy`);
4. the in-place list edits on the buffer: examples and version notes (`session.dfy`);
5. the Save Draft / Approve / Delete / Back actions over the store (`session.dfy`).

`records.dfy` holds the document, projection and buffer types with the per-key defaults, and
`text.dfy` the Python string behaviour the script leans on (`str` ordering, `str(n)`, `int(s)` on
digits, `%03d`, `str.split`).

The store is a map from `_id` to document plus the collection's natural order (the order in which
`find({})` returns documents), because that order is visible: equal sort keys keep it, and the
record an option loads is picked by position in it. The session is the class
`Session.PromptApp` with the store, the buffer `fields`, `last_selected_idx` and
`open_expander_idx`; each user action is a method, and `RenderPass` runs one execution of the
script: selection, load, form, examples, version notes, action button. `st.experimental_rerun()`
is modelled as "the pass ends here" (a `rerun` result), not as re-execution. Widget values, the
pressed button, today's date and whether a store write succeeds are method parameters.

Behaviour of the code that the model reproduces rather than corrects:

- Option `i` of the radio is labelled from the **sorted** list (app.py:39-42) but loads entry
  `i - 1` of the **fetched, unsorted** list (app.py:92). `Sidebar.OptionLoadsOtherRecord` gives
  two records for which option 1 names one and loads the other; the two agree for every option
  exactly when the fetched list is already in key order (`Sidebar.SortIsIdentityIffSorted`).
- The allocator takes the record whose `prompt_id` is greatest as a **string**. Once `PRM-999`
  and `PRM-1000` both exist, `PRM-999` remains the greatest and `PRM-1000` is handed out again
  (`PromptIds.AllocatorRepeatsAfterThousand`).
- On "New Prompt" the buffer is rebuilt from the template on every pass (app.py:105), so added
  examples and version notes never survive to the pass where Save or Approve is pressed: a new
  record is always stored with empty example and version lists (`Session.PromptApp.ContinuedNewPrompt`,
  from the contract of `Session.PromptApp.RenderPass`).
- `update_one` on an `_id` that no longer exists matches nothing and raises nothing, so Save and
  Approve on a vanished record succeed without writing and drop the buffer; there is no
  `NotFound` error in the code.

## Model

| member | source | states |
|---|---|---|
| `Text.StrLtIsLexicographic` | app.py:26 | the `str` order used for titles (and for `prompt_id` in the allocator's sort) holds exactly when `a` is a proper prefix of `b` or has the smaller code point at the first difference |
| `Text.StrLtTransitive` | app.py:26 | the `str` order is transitive |
| `Text.StrLtTotal` | app.py:26 | any two strings are equal or ordered one way |
| `Text.StrLtAsymmetric` | app.py:26 | the `str` order never holds both ways |
| `Text.NatToString` | app.py:153 | the decimal text of `n`: non-empty digits denoting `n`, no leading zero |
| `Text.Pad3` | app.py:186 | `%03d`: at least three digits denoting `n`, zero-padded only up to three, never truncated |
| `Text.Split` | app.py:185 | `split('-')`: at least one piece, the pieces joined with `-` give the string back, and no piece holds a `-` |
| `Text.SplitAtSeparator` | app.py:185 | splitting `a + "-" + t` with no `-` in `a` gives `a` followed by the pieces of `t` |
| `PromptIds.ParseInt` | app.py:185 | `int()` succeeds exactly on non-empty digit strings, with their decimal value |
| `PromptIds.Component1` | app.py:185 | `split('-')[1]` is missing (the `IndexError`) exactly when there is no `-`, and never holds a `-` |
| `PromptIds.Component1Of` | app.py:185 | `split('-')[1]` is the text between the first `-` and the next `-` or the end |
| `PromptIds.FormatPromptId` | app.py:186 | `PRM-` followed by at least three digits denoting `n`, with no superfluous leading zero |
| `PromptIds.NextPromptId` | app.py:180-189 | every reply is a well-formed `PRM-` id whose number is at least 1 |
| `PromptIds.MaxPromptId` | app.py:182 | the record sorted last: `None` exactly when no record has a `prompt_id`, else a present id no smaller than any other |
| `PromptIds.FirstIsFormatted` | app.py:189 | the fallback `PRM-001` is the formatted number 1 |
| `PromptIds.AllocatorFallsBackWithoutComponent` | app.py:182-189 | no record, no `prompt_id`, or no `-`: `PRM-001` |
| `PromptIds.AllocatorFallsBackOnNonInteger` | app.py:184-189 | component 1 empty or not all digits (`ValueError`): `PRM-001` |
| `PromptIds.NextOfComponent` | app.py:185-186 | a component 1 of digits denoting `k` gives the formatted `k + 1` |
| `PromptIds.AllocatorIncrements` | app.py:185-186 | component 1 denoting `k`: `PRM-` and `k + 1` padded to three digits |
| `PromptIds.SuccessiveIds` | app.py:185-186 | after an id it formatted for `k` the allocator gives the one for `k + 1` |
| `PromptIds.Allocator007` | app.py:185-186 | `PRM-007` gives `PRM-008` |
| `PromptIds.Allocator999` | app.py:185-186 | `PRM-999` gives `PRM-1000`, not truncated |
| `PromptIds.AllocatorAbc` | app.py:184-189 | `PRM-abc` gives `PRM-001` |
| `PromptIds.NineHundredNinetyNineIsLast` | app.py:182 | with `PRM-999` and `PRM-1000` stored, the descending sort puts `PRM-999` first |
| `PromptIds.AllocatorRepeatsAfterThousand` | app.py:182-186 | with `PRM-999` and `PRM-1000` stored, the allocator returns the existing `PRM-1000` |
| `Records.Project` | app.py:19 | the projection keeps `_id`, `title`, `status` and `prompt_id` as stored |
| `Records.NewPromptTemplate` | app.py:79-89 | the template has no `prompt_id` and loads to the same buffer as a document with no keys |
| `Records.BuildFields` | app.py:105-115 | each of the eight keys is copied when the document has it, else takes its default: empty text, `Draft`, `gpt-4o`, empty lists |
| `Records.UpdatedDoc` | app.py:204 | `$set` writes all eight buffer keys, keeps `prompt_id`, and reloading yields exactly the buffer |
| `Records.InsertedDoc` | app.py:196-199 | the inserted document has all eight keys and the allocated `prompt_id`, and reloads to exactly the buffer |
| `Sidebar.StatusEmoji` | app.py:14-15 | green exactly for Approved, red exactly for Deprecated, yellow for every other status |
| `Sidebar.StatusRank` | app.py:21-26 | rank 0 exactly for Approved, 2 exactly for Deprecated, 1 for Draft, unknown and missing |
| `Sidebar.EmojiAgreesWithRank` | app.py:15-40 | the label's emoji and the sort rank of a record agree |
| `Sidebar.Key` | app.py:26 | the sort key is the status rank and the title, `""` when the title is missing |
| `Sidebar.KeyLeTransitive` | app.py:24-27 | the key order is transitive |
| `Sidebar.KeyTotal` | app.py:24-27 | any two keys are ordered one way or the other |
| `Sidebar.InsertStable` | app.py:24-27 | inserting an earlier record puts it before the later records with the same key |
| `Sidebar.SortPrompts` | app.py:24-27 | a permutation of the fetched list, ordered by (rank, title), records with equal keys in fetched order |
| `Sidebar.SortIsIdentityIffSorted` | app.py:24-27 | sorting leaves the list unchanged exactly when it is already in key order |
| `Sidebar.StatusGroupsInOrder` | app.py:20-27 | no record is listed above an Approved one unless Approved, none below a Deprecated one unless Deprecated |
| `Sidebar.LabelParts` | app.py:40 | a label is exactly the status emoji and a space, the title (or `Untitled`), and ` [` the `prompt_id` (or the first six characters of the `_id`) `]`: the three parts and its length |
| `Sidebar.SidebarOptions` | app.py:39-42 | `1 + N` options, "New Prompt" first, option `i` labelled from sorted record `i - 1` |
| `Sidebar.Labels` | app.py:40-41 | one label per record, in the list's order |
| `Sidebar.SelectedRecord` | app.py:91-92 | option 0 is the new prompt; option `i > 0` is entry `i - 1` of the fetched, unsorted list |
| `Sidebar.OptionLabelVersusLoadedRecord` | app.py:92 | option `i` shows sorted record `i - 1` but loads fetched record `i - 1`; they coincide when the fetched list is sorted |
| `Sidebar.OptionLoadsOtherRecord` | app.py:92 | a Draft record fetched before an Approved one: option 1 shows the Approved record and loads the Draft one |
| `Session.Without` | app.py:231 | deleting leaves exactly the other ids, without duplicates if there were none, in their order: the one entry holding the id is cut out |
| `Session.FetchAll` | app.py:19 | one projected summary per stored record, in collection order |
| `Session.Overlay` | app.py:136-165 | a loop writing each entry's widget value back: same length, entry `i` is the reported value where there is one |
| `Session.AfterListLoop` | app.py:136-174 | without a delete the loop's result is the overlay; deleting entry `d` gives one entry fewer, earlier entries their widget values, later entries unchanged |
| `Session.OverlayOfOwnValues` | app.py:136-165 | widgets reporting the entries' own values change nothing |
| `Session.NewVersionLabel` | app.py:153 | `v`, then the digits of `count + 1` with no leading zero, then `.0` |
| `Session.CommittedStore` | app.py:193-227 | an insert stores exactly `InsertedDoc` (all eight keys and the allocated `prompt_id`) under a fresh `_id`; a `$set` replaces the record under edit by exactly `UpdatedDoc` (nothing if it is gone); other records and every `prompt_id` unchanged |
| `Session.EditPass` | app.py:119-174 | scalars take the widgets' values; a pass ends early exactly on a delete naming an existing entry; list lengths move by the add or delete pressed; an example delete leaves the notes; the open expander follows add and delete |
| `Session.EditPassIdle` | app.py:119-174 | widgets reporting the buffer with no button leave buffer and open expander exactly as they were |
| `Session.EditPassKeepsEmptyLists` | app.py:133-174 | empty lists stay empty unless an add button is pressed |
| `Session.SavedNewPrompt` | app.py:193-220 | Save or Approve from "New Prompt" (buffer rebuilt from the template, app.py:105) inserts the allocated id and the typed title with empty example and version lists |
| `Session.PromptApp.constructor` | app.py:9-11 | a session attached to a collection holding the given documents in that natural order, with no session keys set |
| `Session.PromptApp.AllPrompts` | app.py:18-22 | one projected summary per stored record, in collection order |
| `Session.PromptApp.AllocatePromptId` | app.py:180-189 | a well-formed `PRM-` id; `PRM-001` when no stored record has a `prompt_id` |
| `Session.PromptApp.Select` | app.py:51-57 | first pass only records the index; a changed index is recorded, drops `fields` and ends the pass; the same index changes nothing |
| `Session.PromptApp.LoadedBuffer` | app.py:91-116 | the template's buffer for "New Prompt", the selected record's buffer when there is none, otherwise the buffer as it is |
| `Session.PromptApp.LoadEditing` | app.py:91-116 | the `_id` under edit is the fetched record of the option; `fields` becomes the loaded buffer |
| `Session.PromptApp.ApplyForm` | app.py:121-129 | the six scalar widgets' values replace those keys, the lists are untouched |
| `Session.PromptApp.AddExample` | app.py:134-135 | appends `{input: "", output: ""}` |
| `Session.PromptApp.WriteBackExamples` | app.py:136-143 | the examples become the loop's result (`AfterListLoop`); the pass ends exactly when an existing entry's delete is pressed |
| `Session.PromptApp.AddVersionNote` | app.py:151-154 | inserts `{v<len+1>.0, today, ""}` at position 0, older notes shift by one unchanged, expander 0 open |
| `Session.PromptApp.WriteBackVersions` | app.py:156-174 | the notes become the loop's result; the pass ends exactly on an existing note's delete, which clears the open expander only if it was that note |
| `Session.PromptApp.Commit` | app.py:195-209 | success writes `CommittedStore` (a new `_id` appended to the natural order for an insert) and drops `fields`; failure changes nothing |
| `Session.PromptApp.SaveDraft` | app.py:193-209 | commits the buffer as it is |
| `Session.PromptApp.Approve` | app.py:210-227 | status forced to Approved in the buffer (kept on failure) and in the written record |
| `Session.PromptApp.Delete` | app.py:228-236 | removes that `_id` from store and order (a no-op if absent) and drops `fields`; failure changes nothing |
| `Session.PromptApp.BackToList` | app.py:237-240 | drops `fields`, writes nothing |
| `Session.PromptApp.EditBuffer` | app.py:119-174 | buffer, open expander and early end are exactly those of `EditPass` on the buffer before the form |
| `Session.PromptApp.LoadAndEdit` | app.py:91-174 | the `_id` under edit is the option's fetched record, and the form runs on the loaded buffer as `EditPass` says |
| `Session.PromptApp.RunAction` | app.py:191-240 | the outcome `Acted` states per button: Save/Approve commit the buffer (Approved for Approve) and report an error exactly when the write fails, keeping store and buffer then; Delete on a stored record removes it, or on failure keeps store and buffer; Back drops the buffer; any other button writes nothing |
| `Session.PromptApp.ContinuePass` | app.py:91-240 | load, form, then action: open expander as the form leaves it; a list delete ends the pass with the edited buffer and no write; otherwise the action buttons act on the edited buffer as `RunAction` states |
| `Session.PromptApp.RenderPass` | app.py:44-240 | a selection change drops the buffer and touches nothing else (store, order, open expander); otherwise the selection is kept and the pass ends as `ContinuePass` states |
| `Session.PromptApp.ContinuedIdle` | app.py:119-240 | a pass whose widgets report the buffer and where nothing is pressed changes nothing |
| `Session.PromptApp.ContinuedNewPrompt` | app.py:193-220 | a successful Save or Approve from "New Prompt" (buffer rebuilt from the template, app.py:105) inserts the allocated id and the typed title with empty lists, and drops the buffer |

## Left out

- Page rendering: `st.set_page_config`, titles, CSS, markdown, `sidebar_prompt_display` and the sidebar markdown loop (app.py:6, 29-37, 59-77, 96-101, 119-129 layout). Widget results are method parameters.
- `st.experimental_rerun()` is "the pass ends" (a `rerun` result); the next pass is another call.
- The MongoDB client and driver (app.py:9-11): replaced by a map plus natural order; the `_id` is a counter-assigned number, and `str(_id)` in labels is its decimal text, not an ObjectId's hex.
- The descending `find_one(sort=…)` is modelled only as the code-point lexicographic maximum of the `prompt_id` strings; documents whose `prompt_id` is not a string are not modelled.
- `PromptIds.ParseInt`: accepts only non-empty ASCII digit strings; Python's `int()` also accepts surrounding whitespace, a `+` sign, `_` separators and non-ASCII digits, which the model rejects.
- `date.today()` is the `today` parameter, already formatted; exception messages (`save_error` text) are a boolean.
- Store failures are a single `writeOk` flag per action; a failure partway through (after the allocator's read, or after a write that reached the server) is not distinguished.
- The `.index(...)` `ValueError` for a status or model outside the select boxes' lists (app.py:124-125), and a `find_one` that returns nothing for a record deleted between the list fetch and the load (app.py:100).
- Per-entry key defaults inside examples and version notes (`ex.get('input', '')`, `v.get('date', '')`): entries are always complete records.
- Streamlit's widget state keyed by list position (`input_ex_{i}`, `ver_{i}`); reported values are taken per position as given.
- Concurrency: allocator races and update/delete races between app instances are not modelled.
