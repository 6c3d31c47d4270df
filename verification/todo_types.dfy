/** The records of the to-do client: a note, the application state and the
    actions the reducer understands (src/types/index.ts). */
module TodoTypes {
  import opened Wrappers

  /** A to-do note. `id`, `clientId` and `completed` are optional in the source. */
  datatype Note = Note(
    clientId: Option<string>,
    id: Option<string>,
    name: string,
    description: string,
    completed: Option<bool>)

  /** The whole client state: the known notes, the form being edited, and two flags. */
  datatype State = State(
    notes: seq<Note>,
    form: Note,
    loading: bool,
    error: bool)

  /** The string-typed keys of a note that SET_INPUT can name. */
  datatype Field = NameField | DescriptionField | IdField | ClientIdField

  /** One reducer action. `Unknown` stands for any other `type` tag, which
      the reducer's `default` branch handles. */
  datatype Action =
    | SetNotes(notes: Option<seq<Note>>)
    | Error
    | AddNote(note: Note)
    | ResetForm
    | SetInput(field: Field, value: string)
    | DeleteNote(id: Option<string>)
    | UpdateNote(note: Note)
    | Unknown

  /** The form of a fresh session: empty name and description, nothing else set. */
  const InitialForm: Note := Note(None, None, "", "", None)

  /** The state a session starts in: no notes, still loading, no error. */
  const InitialState: State := State([], InitialForm, true, false)

  /** The value a form field holds, as an optional string. */
  function Read(n: Note, f: Field): Option<string>
  {
    match f
    case NameField => Some(n.name)
    case DescriptionField => Some(n.description)
    case IdField => n.id
    case ClientIdField => n.clientId
  }

  /** True when some note of `notes` carries exactly the id `id`. */
  predicate HasId(notes: seq<Note>, id: Option<string>)
  {
    exists i :: 0 <= i < |notes| && notes[i].id == id
  }

  /** No two notes of `notes` share an id. */
  predicate UniqueIds(notes: seq<Note>)
  {
    forall i, j :: 0 <= i < j < |notes| ==> notes[i].id != notes[j].id
  }
}
