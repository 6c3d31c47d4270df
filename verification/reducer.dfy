/** The state-transition function of the to-do client (`reducer` in
    src/hooks/useTodoReducer.ts) and the facts about each action. */
module Reducer {
  import opened Wrappers
  import opened TodoTypes
  import opened NoteList

  /** The form with field `f` set to `v` and every other field kept. */
  function SetField(form: Note, f: Field, v: string): (r: Note)
    ensures Read(r, f) == Some(v)
    ensures forall g :: g != f ==> Read(r, g) == Read(form, g)
    ensures r.completed == form.completed
  {
    match f
    case NameField => form.(name := v)
    case DescriptionField => form.(description := v)
    case IdField => form.(id := Some(v))
    case ClientIdField => form.(clientId := Some(v))
  }

  /** One step of the reducer. */
  function Reduce(s: State, a: Action): (r: State)
    // which parts of the state an action may touch
    ensures !(a.SetNotes? || a.AddNote? || a.DeleteNote? || a.UpdateNote?) ==> r.notes == s.notes
    ensures !(a.ResetForm? || a.SetInput?) ==> r.form == s.form
    ensures r.loading == (s.loading && !a.SetNotes? && !a.Error?)
    ensures s.error ==> r.error
    ensures r.error ==> s.error || a.Error?
    ensures a.Unknown? ==> r == s
    // what each action does to the part it touches
    ensures a.SetNotes? ==> r.notes == a.notes.GetOr([])
    ensures a.Error? ==> r.error
    ensures a.AddNote? ==> |r.notes| == |s.notes| + 1 && r.notes[0] == a.note && r.notes[1..] == s.notes
    ensures a.ResetForm? ==> r.form == InitialState.form
    ensures a.SetInput? ==>
              && Read(r.form, a.field) == Some(a.value)
              && (forall g :: g != a.field ==> Read(r.form, g) == Read(s.form, g))
              && r.form.completed == s.form.completed
    ensures a.DeleteNote? ==>
              && !HasId(r.notes, a.id)
              && (forall n :: n in r.notes <==> n in s.notes && n.id != a.id)
    ensures a.UpdateNote? ==>
              && |r.notes| == |s.notes|
              && (forall i :: 0 <= i < |s.notes| ==>
                    r.notes[i] == (if s.notes[i].id == a.note.id then a.note else s.notes[i]))
  {
    match a
    case SetNotes(notes) => s.(notes := notes.GetOr([]), loading := false)
    case Error => s.(loading := false, error := true)
    case AddNote(note) => s.(notes := [note] + s.notes)
    case ResetForm => s.(form := InitialForm)
    case SetInput(f, v) => s.(form := SetField(s.form, f, v))
    case DeleteNote(id) => s.(notes := WithoutId(s.notes, id))
    case UpdateNote(note) => s.(notes := ReplaceById(s.notes, note))
    case Unknown => s
  }

  /** The actions applied in dispatch order. */
  function ReduceAll(s: State, actions: seq<Action>): State
    decreases |actions|
  {
    if |actions| == 0 then s else ReduceAll(Reduce(s, actions[0]), actions[1..])
  }

  /** DELETE_NOTE of an id no note carries leaves the state as it was. */
  lemma DeleteAbsentIsNoOp(s: State, id: Option<string>)
    requires !HasId(s.notes, id)
    ensures Reduce(s, DeleteNote(id)) == s
  {
  }

  /** DELETE_NOTE twice with one id is DELETE_NOTE once. */
  lemma DeleteIdempotent(s: State, id: Option<string>)
    ensures Reduce(Reduce(s, DeleteNote(id)), DeleteNote(id)) == Reduce(s, DeleteNote(id))
  {
  }

  /** DELETE_NOTE keeps the survivors in their original relative order: deleting
      from a list split in two is deleting from each part. */
  lemma DeleteKeepsOrder(s: State, a: seq<Note>, b: seq<Note>, id: Option<string>)
    requires s.notes == a + b
    ensures Reduce(s, DeleteNote(id)).notes == WithoutId(a, id) + WithoutId(b, id)
  {
    WithoutIdConcat(a, b, id);
  }

  /** UPDATE_NOTE with a note whose id no note carries leaves the state as it was. */
  lemma UpdateAbsentIsNoOp(s: State, note: Note)
    requires !HasId(s.notes, note.id)
    ensures Reduce(s, UpdateNote(note)) == s
  {
    var r := Reduce(s, UpdateNote(note));
    assert r.notes == s.notes;
  }

  /** ADD_NOTE of a note whose id is new, followed by DELETE_NOTE of that id,
      restores the state. */
  lemma AddThenDeleteRestores(s: State, n: Note)
    requires !HasId(s.notes, n.id)
    ensures Reduce(Reduce(s, AddNote(n)), DeleteNote(n.id)) == s
  {
    var added := Reduce(s, AddNote(n));
    assert added.notes == [n] + s.notes;
    WithoutIdConcat([n], s.notes, n.id);
    assert WithoutId([n], n.id) == [];
  }

  /** SET_INPUT actions for a run of (field, value) edits, in order. */
  function InputActions(inputs: seq<(Field, string)>): seq<Action>
  {
    seq(|inputs|, i requires 0 <= i < |inputs| => SetInput(inputs[i].0, inputs[i].1))
  }

  /** The value of the last edit of field `f` in `inputs`, if any. */
  function LastValue(inputs: seq<(Field, string)>, f: Field): (v: Option<string>)
    ensures v.None? <==> forall i :: 0 <= i < |inputs| ==> inputs[i].0 != f
    ensures v.Some? ==>
              exists i :: (0 <= i < |inputs| && inputs[i] == (f, v.value)
                           && forall j :: i < j < |inputs| ==> inputs[j].0 != f)
  {
    if |inputs| == 0 then None
    else
      var later := LastValue(inputs[1..], f);
      if later.Some? then
        var i :| 0 <= i < |inputs[1..]| && inputs[1..][i] == (f, later.value)
          && forall j :: i < j < |inputs[1..]| ==> inputs[1..][j].0 != f;
        assert inputs[i + 1] == (f, later.value);
        assert forall j :: i + 1 < j < |inputs| ==> inputs[j].0 != f by {
          forall j | i + 1 < j < |inputs| ensures inputs[j].0 != f {
            assert inputs[j] == inputs[1..][j - 1];
          }
        }
        later
      else if inputs[0].0 == f then
        assert forall j :: 0 < j < |inputs| ==> inputs[j].0 != f by {
          forall j | 0 < j < |inputs| ensures inputs[j].0 != f {
            assert inputs[j] == inputs[1..][j - 1];
          }
        }
        Some(inputs[0].1)
      else
        assert forall i :: 0 <= i < |inputs| ==> inputs[i].0 != f by {
          forall i | 0 < i < |inputs| ensures inputs[i].0 != f {
            assert inputs[i] == inputs[1..][i - 1];
          }
        }
        None
  }

  /** The form after a run of SET_INPUT actions holds, for each field, the last
      value set for it, or its earlier value when it was never set; the notes
      and the flags are untouched. */
  lemma {:induction false} SetInputsKeepLastValue(s: State, inputs: seq<(Field, string)>, f: Field)
    ensures var r := ReduceAll(s, InputActions(inputs));
      && Read(r.form, f) == (if LastValue(inputs, f).Some? then LastValue(inputs, f) else Read(s.form, f))
      && r.form.completed == s.form.completed
      && r.notes == s.notes && r.loading == s.loading && r.error == s.error
    decreases |inputs|
  {
    if |inputs| > 0 {
      var first := Reduce(s, SetInput(inputs[0].0, inputs[0].1));
      assert InputActions(inputs)[1..] == InputActions(inputs[1..]);
      SetInputsKeepLastValue(first, inputs[1..], f);
    }
  }
}
