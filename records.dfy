/** The documents of the `prompts` collection, the projection the sidebar fetches, and the
  * editing buffer (`st.session_state['fields']`) with the per-key defaults it is built with. */
module Records {
  import opened Wrappers

  /** The store's `_id`: opaque, unique, assigned on insert. */
  type Id = nat

  const Approved := "Approved"
  const Draft := "Draft"
  const Deprecated := "Deprecated"
  const DefaultModel := "gpt-4o"

  datatype Example = Example(input: string, output: string)

  datatype VersionNote = VersionNote(version: string, date: string, note: string)

  /** A stored prompt document. Every key may be missing, so each is optional. */
  datatype Doc = Doc(
    promptId: Option<string>,
    title: Option<string>,
    description: Option<string>,
    status: Option<string>,
    model: Option<string>,
    tags: Option<seq<string>>,
    promptBody: Option<string>,
    examples: Option<seq<Example>>,
    versionHistory: Option<seq<VersionNote>>)

  /** A document with no keys at all (besides `_id`). */
  const EmptyDoc := Doc(None, None, None, None, None, None, None, None, None)

  /** What `get_all_prompts` fetches of each document: `_id`, `title`, `status`, `prompt_id`. */
  datatype Summary = Summary(id: Id, title: Option<string>, status: Option<string>, promptId: Option<string>)

  function Project(id: Id, d: Doc): (s: Summary)
    ensures s.id == id && s.title == d.title && s.status == d.status && s.promptId == d.promptId
  {
    Summary(id, d.title, d.status, d.promptId)
  }

  /** The editing buffer: the eight editable keys, all present. */
  datatype Fields = Fields(
    title: string,
    description: string,
    status: string,
    model: string,
    tags: seq<string>,
    promptBody: string,
    examples: seq<Example>,
    versionHistory: seq<VersionNote>)

  /** `new_prompt_template()`: the document loaded when "New Prompt" is selected. */
  function NewPromptTemplate(): (d: Doc)
    ensures d.promptId.None?
    ensures BuildFields(d) == BuildFields(EmptyDoc)
  {
    Doc(None, Some(""), Some(""), Some(Draft), Some(DefaultModel), Some([]), Some(""), Some([]), Some([]))
  }

  /** The buffer built from a loaded document: a key the document has is copied, a missing key
    * gets its default (empty text and lists, status "Draft", model "gpt-4o"). */
  function BuildFields(d: Doc): (r: Fields)
    ensures d.title.Some? ==> r.title == d.title.value
    ensures d.description.Some? ==> r.description == d.description.value
    ensures d.status.Some? ==> r.status == d.status.value
    ensures d.model.Some? ==> r.model == d.model.value
    ensures d.tags.Some? ==> r.tags == d.tags.value
    ensures d.promptBody.Some? ==> r.promptBody == d.promptBody.value
    ensures d.examples.Some? ==> r.examples == d.examples.value
    ensures d.versionHistory.Some? ==> r.versionHistory == d.versionHistory.value
    ensures d.title.None? ==> r.title == ""
    ensures d.description.None? ==> r.description == ""
    ensures d.status.None? ==> r.status == Draft
    ensures d.model.None? ==> r.model == DefaultModel
    ensures d.tags.None? ==> r.tags == []
    ensures d.promptBody.None? ==> r.promptBody == ""
    ensures d.examples.None? ==> r.examples == []
    ensures d.versionHistory.None? ==> r.versionHistory == []
  {
    Fields(
      d.title.GetOr(""),
      d.description.GetOr(""),
      d.status.GetOr(Draft),
      d.model.GetOr(DefaultModel),
      d.tags.GetOr([]),
      d.promptBody.GetOr(""),
      d.examples.GetOr([]),
      d.versionHistory.GetOr([]))
  }

  /** `update_one({"_id": …}, {"$set": fields})`: the eight buffer keys are written, `prompt_id`
    * is left as it was, and loading the document again yields exactly the buffer. */
  function UpdatedDoc(d: Doc, f: Fields): (r: Doc)
    ensures r.promptId == d.promptId
    ensures BuildFields(r) == f
    ensures r.title.Some? && r.description.Some? && r.status.Some? && r.model.Some? && r.tags.Some?
    ensures r.promptBody.Some? && r.examples.Some? && r.versionHistory.Some?
  {
    d.(title := Some(f.title), description := Some(f.description), status := Some(f.status),
       model := Some(f.model), tags := Some(f.tags), promptBody := Some(f.promptBody),
       examples := Some(f.examples), versionHistory := Some(f.versionHistory))
  }

  /** `insert_one(fields + {"prompt_id": pid})`: a new document carrying the allocated id whose
    * reload yields exactly the buffer. */
  function InsertedDoc(f: Fields, pid: string): (r: Doc)
    ensures r.promptId == Some(pid)
    ensures BuildFields(r) == f
    ensures r.title.Some? && r.description.Some? && r.status.Some? && r.model.Some? && r.tags.Some?
    ensures r.promptBody.Some? && r.examples.Some? && r.versionHistory.Some?
  {
    UpdatedDoc(EmptyDoc.(promptId := Some(pid)), f)
  }
}
