/** Concrete examples of the hook and the reducer, proved for small inputs. */
module Scenarios {
  import opened Wrappers
  import opened TodoTypes
  import opened Reducer
  import opened Hook

  /** A fetched list of one note ends loading and becomes the notes. */
  lemma FetchIntoInitialState()
    ensures var n := Note(None, Some("1"), "x", "y", Some(false));
            Step("A", InitialState, Fetched(Some([n]))) == InitialState.(notes := [n], loading := false)
  {
    var n := Note(None, Some("1"), "x", "y", Some(false));
    var acts := Dispatches("A", InitialState, Fetched(Some([n])));
    assert acts[1..] == [];
    assert Step("A", InitialState, Fetched(Some([n]))) == ReduceAll(Reduce(InitialState, acts[0]), []);
  }

  /** Toggling the only note, "1", completes it in place. */
  lemma ToggleSingleNote()
    ensures var n := Note(None, Some("1"), "x", "y", Some(false));
            var s := InitialState.(notes := [n]);
            && HasId(s.notes, Some("1"))
            && var r := Step("A", s, Toggle("1"));
            && |r.notes| == 1 && r.notes[0].id == Some("1") && r.notes[0].completed == Some(true)
  {
    var n := Note(None, Some("1"), "x", "y", Some(false));
    var s := InitialState.(notes := [n]);
    assert HasId(s.notes, Some("1")) by { assert s.notes[0].id == Some("1"); }
    ToggleEffect(s, "A", "1");
  }

  /** Submitting a form with an empty name changes neither the notes nor the form. */
  lemma EmptyNameCreatesNothing(s: State, freshId: string)
    requires s.form.name == ""
    ensures Step("A", s, Submit(freshId)) == s
  {
    CreateNoteEffect(s, "A", freshId);
  }

  /** Session "A" ignores the echo of its own note and inserts one from "B". */
  lemma EchoSuppressedOnlyForOwnClient(s: State, n: Note)
    ensures PushedCreateDispatches("A", n.(clientId := Some("A"))) == []
    ensures PushedCreateDispatches("A", n.(clientId := Some("B"))) == [AddNote(n.(clientId := Some("B")))]
  {
  }

  /** The push handler checks only the client id, and ADD_NOTE does not look at
      ids: a note from another client that the initial fetch already delivered
      is inserted a second time when its creation push arrives. */
  lemma PushAfterFetchDuplicates(x: Note)
    requires x.clientId != Some("A")
    ensures var fetched := Step("A", InitialState, Fetched(Some([x])));
            && fetched.notes == [x]
            && Step("A", fetched, PushedCreate(x)).notes == [x, x]
            && !UniqueIds(Step("A", fetched, PushedCreate(x)).notes)
  {
    ForwardedEffect("A", InitialState, Fetched(Some([x])));
    var fetched := Step("A", InitialState, Fetched(Some([x])));
    PushedCreateEffect(fetched, "A", x);
    var r := Step("A", fetched, PushedCreate(x));
    assert r.notes[0].id == r.notes[1].id;
  }
}
