/** The decision logic of the `useTodoReducer` hook (src/hooks/useTodoReducer.ts):
    which actions each user event, fetch outcome or push notification dispatches.
    The session's client id and freshly generated note ids are parameters; the
    network calls that follow each dispatch are not modelled. */
module Hook {
  import opened Wrappers
  import opened TodoTypes
  import opened NoteList
  import opened Reducer

  /** Everything that makes the hook dispatch: user input, the outcome of the
      initial fetch, and the three push subscriptions. */
  datatype Event =
    | Typed(field: Field, value: string)
    | Fetched(items: Option<seq<Note>>)
    | FetchFailed
    | Submit(freshId: string)
    | Remove(id: string)
    | Toggle(id: string)
    | PushedCreate(note: Note)
    | PushedDelete(id: string)
    | PushedUpdate(note: Note)

  /** The form lacks a name or a description (an empty string is falsy). */
  predicate FormIncomplete(form: Note)
  {
    |form.name| == 0 || |form.description| == 0
  }

  /** The note `createNote` builds from the form. */
  function NewNote(form: Note, session: string, freshId: string): (n: Note)
    ensures n.name == form.name && n.description == form.description
    ensures n.clientId == Some(session) && n.id == Some(freshId)
    ensures n.completed == Some(false)
  {
    form.(clientId := Some(session), completed := Some(false), id := Some(freshId))
  }

  /** The actions `createNote` dispatches: nothing for an incomplete form,
      otherwise the optimistic insert followed by the form reset. */
  function CreateDispatches(s: State, session: string, freshId: string): (acts: seq<Action>)
    ensures acts == [] <==> FormIncomplete(s.form)
    ensures acts != [] ==> acts == [AddNote(NewNote(s.form, session, freshId)), ResetForm]
  {
    if FormIncomplete(s.form) then []
    else [AddNote(NewNote(s.form, session, freshId)), ResetForm]
  }

  /** The actions a pushed creation dispatches: none for an echo of this
      session's own creation, otherwise the insert. */
  function PushedCreateDispatches(session: string, note: Note): (acts: seq<Action>)
    ensures acts == [] <==> note.clientId == Some(session)
    ensures acts != [] ==> acts == [AddNote(note)]
  {
    if note.clientId == Some(session) then [] else [AddNote(note)]
  }

  /** The list `updateNote` dispatches: the first note carrying `id` with its
      completion flipped. */
  function ToggledNotes(notes: seq<Note>, id: string): (r: seq<Note>)
    requires HasId(notes, Some(id))
    ensures |r| == |notes|
    ensures var k := FindIndex(notes, Some(id));
      && 0 <= k
      && r[k] == Flip(notes[k])
      && (forall j :: 0 <= j < |notes| && j != k ==> r[j] == notes[j])
  {
    var k := FindIndex(notes, Some(id));
    notes[k := Flip(notes[k])]
  }

  /** The actions the hook dispatches for one event. The toggle is only
      defined for an id the list holds: the source would fault otherwise. */
  function Dispatches(session: string, s: State, e: Event): (acts: seq<Action>)
    requires e.Toggle? ==> HasId(s.notes, Some(e.id))
    ensures |acts| <= 2
    ensures forall a :: a in acts ==> !a.Unknown?
    ensures acts == [] <==>
              || (e.Submit? && FormIncomplete(s.form))
              || (e.PushedCreate? && e.note.clientId == Some(session))
    ensures (exists a :: a in acts && a.AddNote?) <==>
              || (e.Submit? && !FormIncomplete(s.form))
              || (e.PushedCreate? && e.note.clientId != Some(session))
    ensures ResetForm in acts <==> e.Submit? && !FormIncomplete(s.form)
    ensures (exists a :: a in acts && a.SetNotes?) <==> e.Fetched? || e.Toggle?
    ensures (exists a :: a in acts && a.DeleteNote?) <==> e.Remove? || e.PushedDelete?
    ensures (exists a :: a in acts && a.UpdateNote?) <==> e.PushedUpdate?
    ensures (exists a :: a in acts && a.SetInput?) <==> e.Typed?
    ensures Error in acts <==> e.FetchFailed?
  {
    var acts :=
      match e
      case Typed(f, v) => [SetInput(f, v)]
      case Fetched(items) => [SetNotes(items)]
      case FetchFailed => [Error]
      case Submit(freshId) => CreateDispatches(s, session, freshId)
      case Remove(id) => [DeleteNote(Some(id))]
      case Toggle(id) => [SetNotes(Some(ToggledNotes(s.notes, id)))]
      case PushedCreate(note) => PushedCreateDispatches(session, note)
      case PushedDelete(id) => [DeleteNote(Some(id))]
      case PushedUpdate(note) => [UpdateNote(note)];
    assert acts != [] ==> acts[0] in acts;
    acts
  }

  /** The state after the hook handles one event. */
  function Step(session: string, s: State, e: Event): State
    requires e.Toggle? ==> HasId(s.notes, Some(e.id))
  {
    ReduceAll(s, Dispatches(session, s, e))
  }

  /** The events whose handler forwards its payload as a single action: the
      state after the event is the reducer applied to exactly that action. */
  lemma ForwardedEffect(session: string, s: State, e: Event)
    ensures e.Typed? ==> Step(session, s, e) == Reduce(s, SetInput(e.field, e.value))
    ensures e.Fetched? ==> Step(session, s, e) == Reduce(s, SetNotes(e.items))
    ensures e.FetchFailed? ==> Step(session, s, e) == Reduce(s, Error)
    ensures e.Remove? || e.PushedDelete? ==> Step(session, s, e) == Reduce(s, DeleteNote(Some(e.id)))
    ensures e.PushedUpdate? ==> Step(session, s, e) == Reduce(s, UpdateNote(e.note))
  {
    if e.Typed? || e.Fetched? || e.FetchFailed? || e.Remove? || e.PushedDelete? || e.PushedUpdate? {
      var acts := Dispatches(session, s, e);
      assert acts[1..] == [];
      assert Step(session, s, e) == ReduceAll(Reduce(s, acts[0]), []);
    }
  }

  /** Creating a note: an incomplete form changes nothing; a complete one puts
      the new note at the head of the list and clears the form. */
  lemma CreateNoteEffect(s: State, session: string, freshId: string)
    ensures FormIncomplete(s.form) ==> Step(session, s, Submit(freshId)) == s
    ensures !FormIncomplete(s.form) ==>
              var r := Step(session, s, Submit(freshId));
              && |r.notes| == |s.notes| + 1
              && r.notes[0].name == s.form.name
              && r.notes[0].description == s.form.description
              && r.notes[0].clientId == Some(session)
              && r.notes[0].id == Some(freshId)
              && r.notes[0].completed == Some(false)
              && r.notes[1..] == s.notes
              && r.form == InitialState.form
              && r.loading == s.loading && r.error == s.error
  {
    var acts := Dispatches(session, s, Submit(freshId));
    if !FormIncomplete(s.form) {
      var added := Reduce(s, acts[0]);
      assert ReduceAll(s, acts) == ReduceAll(added, acts[1..]);
      assert ReduceAll(added, acts[1..]) == ReduceAll(Reduce(added, ResetForm), []);
    }
  }

  /** A pushed creation carrying this session's id changes nothing; any other
      pushed creation is prepended. */
  lemma PushedCreateEffect(s: State, session: string, note: Note)
    ensures note.clientId == Some(session) ==> Step(session, s, PushedCreate(note)) == s
    ensures note.clientId != Some(session) ==>
              Step(session, s, PushedCreate(note)) == s.(notes := [note] + s.notes)
  {
    if note.clientId != Some(session) {
      var acts := Dispatches(session, s, PushedCreate(note));
      assert ReduceAll(s, acts) == ReduceAll(Reduce(s, AddNote(note)), []);
    }
  }

  /** Toggling completion of a note that is in the list: same length and order,
      the first note with that id keeps its place and its other fields and has
      its completion negated, every other note is unchanged, and loading ends. */
  lemma ToggleEffect(s: State, session: string, id: string)
    requires HasId(s.notes, Some(id))
    ensures var r := Step(session, s, Toggle(id));
            var k := FindIndex(s.notes, Some(id));
            && |r.notes| == |s.notes|
            && 0 <= k
            && (forall j :: 0 <= j < k ==> s.notes[j].id != Some(id))
            && r.notes[k].id == Some(id)
            && r.notes[k].completed == Some(!s.notes[k].completed.GetOr(false))
            && r.notes[k].name == s.notes[k].name
            && r.notes[k].description == s.notes[k].description
            && r.notes[k].clientId == s.notes[k].clientId
            && (forall j :: 0 <= j < |s.notes| && j != k ==> r.notes[j] == s.notes[j])
            && !r.loading && r.error == s.error && r.form == s.form
  {
    var t := ToggledNotes(s.notes, id);
    var acts := Dispatches(session, s, Toggle(id));
    assert acts == [SetNotes(Some(t))] && acts[1..] == [];
    assert Step(session, s, Toggle(id)) == ReduceAll(Reduce(s, acts[0]), acts[1..]);
  }

  /** With unique ids, the toggle's SET_NOTES yields the same list as an
      UPDATE_NOTE carrying the flipped note would. */
  lemma ToggleAgreesWithUpdate(s: State, session: string, id: string)
    requires UniqueIds(s.notes)
    requires HasId(s.notes, Some(id))
    ensures var k := FindIndex(s.notes, Some(id));
      Step(session, s, Toggle(id)).notes == Reduce(s, UpdateNote(Flip(s.notes[k]))).notes
  {
    var t := ToggledNotes(s.notes, id);
    var acts := Dispatches(session, s, Toggle(id));
    assert acts == [SetNotes(Some(t))] && acts[1..] == [];
    assert Step(session, s, Toggle(id)) == ReduceAll(Reduce(s, acts[0]), acts[1..]);
    FlipFirstIsReplace(s.notes, Some(id));
  }

  /** Toggling the same note twice gives back the list, when its completion
      flag was set to begin with. */
  lemma ToggleTwiceRestores(s: State, session: string, id: string)
    requires HasId(s.notes, Some(id))
    requires s.notes[FindIndex(s.notes, Some(id))].completed.Some?
    ensures var r := Step(session, s, Toggle(id));
            && HasId(r.notes, Some(id))
            && Step(session, r, Toggle(id)).notes == s.notes
  {
    var k := FindIndex(s.notes, Some(id));
    ToggleEffect(s, session, id);
    var r := Step(session, s, Toggle(id));
    assert r.notes[k].id == Some(id);
    assert FindIndex(r.notes, Some(id)) == k by {
      forall j | 0 <= j < k ensures r.notes[j].id != Some(id) {
        assert r.notes[j] == s.notes[j];
      }
    }
    ToggleEffect(r, session, id);
    FlipTwice(s.notes[k]);
    var r2 := Step(session, r, Toggle(id));
    assert r2.notes == s.notes by {
      forall j | 0 <= j < |s.notes| ensures r2.notes[j] == s.notes[j] {
        if j == k {
          assert r2.notes[k] == Flip(Flip(s.notes[k]));
        }
      }
    }
  }

  /** The events that keep note ids unique: a fetched list must itself have
      unique ids, and a created note (local or pushed from another client)
      must carry an id the list does not hold yet. */
  predicate FreshFor(session: string, s: State, e: Event)
  {
    match e
    case Fetched(items) => UniqueIds(items.GetOr([]))
    case Submit(freshId) => !HasId(s.notes, Some(freshId))
    case PushedCreate(note) => note.clientId == Some(session) || !HasId(s.notes, note.id)
    case _ => true
  }

  /** Note ids stay unique across every event, given fresh ids for creations;
      the echo of one's own creation is never inserted a second time. */
  lemma StepKeepsUniqueIds(session: string, s: State, e: Event)
    requires e.Toggle? ==> HasId(s.notes, Some(e.id))
    requires UniqueIds(s.notes)
    requires FreshFor(session, s, e)
    ensures UniqueIds(Step(session, s, e).notes)
  {
    var acts := Dispatches(session, s, e);
    match e
    case Submit(freshId) =>
      CreateNoteEffect(s, session, freshId);
      if !FormIncomplete(s.form) {
        PrependKeepsUnique(s.notes, Step(session, s, e).notes[0]);
        assert Step(session, s, e).notes == [Step(session, s, e).notes[0]] + s.notes;
      }
    case PushedCreate(note) =>
      PushedCreateEffect(s, session, note);
      if note.clientId != Some(session) {
        PrependKeepsUnique(s.notes, note);
      }
    case Remove(id) =>
      WithoutIdKeepsUnique(s.notes, Some(id));
      assert ReduceAll(s, acts) == ReduceAll(Reduce(s, acts[0]), []);
    case PushedDelete(id) =>
      WithoutIdKeepsUnique(s.notes, Some(id));
      assert ReduceAll(s, acts) == ReduceAll(Reduce(s, acts[0]), []);
    case Toggle(id) =>
      var t := ToggledNotes(s.notes, id);
      assert ReduceAll(s, acts) == ReduceAll(Reduce(s, acts[0]), []);
      forall i, j | 0 <= i < j < |t| ensures t[i].id != t[j].id {
        assert t[i].id == s.notes[i].id && t[j].id == s.notes[j].id;
      }
    case PushedUpdate(note) =>
      assert ReduceAll(s, acts) == ReduceAll(Reduce(s, acts[0]), []);
      var r := Reduce(s, acts[0]).notes;
      forall i, j | 0 <= i < j < |r| ensures r[i].id != r[j].id {
        assert r[i].id == s.notes[i].id && r[j].id == s.notes[j].id;
      }
    case _ =>
      assert ReduceAll(s, acts) == ReduceAll(Reduce(s, acts[0]), []);
  }

  /** Prepending a note whose id the list lacks keeps ids unique. */
  lemma PrependKeepsUnique(notes: seq<Note>, n: Note)
    requires UniqueIds(notes)
    requires !HasId(notes, n.id)
    ensures UniqueIds([n] + notes)
  {
    var full := [n] + notes;
    forall i, j | 0 <= i < j < |full| ensures full[i].id != full[j].id {
      if i == 0 {
        assert full[j] == notes[j - 1];
      } else {
        assert full[i] == notes[i - 1] && full[j] == notes[j - 1];
      }
    }
  }
}
