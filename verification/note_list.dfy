/** Operations on the ordered list of notes that the reducer and the hook use:
    the `filter` of DELETE_NOTE, the `map` of UPDATE_NOTE, `findIndex` and
    the completion flip of the toggle path (src/hooks/useTodoReducer.ts). */
module NoteList {
  import opened Wrappers
  import opened TodoTypes

  /** The notes whose id differs from `id`, in their original order. */
  function WithoutId(notes: seq<Note>, id: Option<string>): (r: seq<Note>)
    ensures |r| <= |notes|
    ensures forall n :: n in r <==> n in notes && n.id != id
    ensures !HasId(r, id)
    ensures !HasId(notes, id) ==> r == notes
    ensures HasId(notes, id) ==> |r| < |notes|
  {
    if |notes| == 0 then []
    else
      var rest := WithoutId(notes[1..], id);
      assert HasId(notes, id) && notes[0].id != id ==> HasId(notes[1..], id) by {
        if HasId(notes, id) && notes[0].id != id {
          var i :| 0 <= i < |notes| && notes[i].id == id;
          assert notes[1..][i - 1].id == id;
        }
      }
      assert !HasId(notes, id) ==> !HasId(notes[1..], id) by {
        if HasId(notes[1..], id) {
          var i :| 0 <= i < |notes[1..]| && notes[1..][i].id == id;
          assert notes[i + 1].id == id;
        }
      }
      if notes[0].id != id then
        assert notes == [notes[0]] + notes[1..];
        [notes[0]] + rest
      else rest
  }

  /** Filtering distributes over concatenation: survivors keep their relative order. */
  lemma {:induction false} WithoutIdConcat(a: seq<Note>, b: seq<Note>, id: Option<string>)
    ensures WithoutId(a + b, id) == WithoutId(a, id) + WithoutId(b, id)
    decreases |a|
  {
    if |a| == 0 {
      assert a + b == b;
    } else {
      assert (a + b)[1..] == a[1..] + b;
      WithoutIdConcat(a[1..], b, id);
    }
  }

  /** Filtering twice by the same id is the same as filtering once. */
  lemma WithoutIdIdempotent(notes: seq<Note>, id: Option<string>)
    ensures WithoutId(WithoutId(notes, id), id) == WithoutId(notes, id)
  {
  }

  /** Removing a note never introduces a shared id. */
  lemma {:induction false} WithoutIdKeepsUnique(notes: seq<Note>, id: Option<string>)
    requires UniqueIds(notes)
    ensures UniqueIds(WithoutId(notes, id))
    decreases |notes|
  {
    if |notes| > 0 {
      var rest := notes[1..];
      assert UniqueIds(rest) by {
        forall i, j | 0 <= i < j < |rest| ensures rest[i].id != rest[j].id {
          assert rest[i] == notes[i + 1] && rest[j] == notes[j + 1];
        }
      }
      WithoutIdKeepsUnique(rest, id);
      var r := WithoutId(rest, id);
      if notes[0].id != id {
        var full := [notes[0]] + r;
        forall i, j | 0 <= i < j < |full| ensures full[i].id != full[j].id {
          if i == 0 {
            assert full[j] in r;
            assert full[j] in rest;
            var k :| 0 <= k < |rest| && rest[k] == full[j];
            assert notes[k + 1] == full[j];
          } else {
            assert full[i] == r[i - 1] && full[j] == r[j - 1];
          }
        }
      }
    }
  }

  /** Each note whose id equals `note.id` replaced by `note`; the others kept, in place. */
  function ReplaceById(notes: seq<Note>, note: Note): (r: seq<Note>)
    ensures |r| == |notes|
    ensures forall i :: 0 <= i < |notes| && notes[i].id == note.id ==> r[i] == note
    ensures forall i :: 0 <= i < |notes| && notes[i].id != note.id ==> r[i] == notes[i]
  {
    if |notes| == 0 then []
    else
      var head := if notes[0].id != note.id then notes[0] else note;
      [head] + ReplaceById(notes[1..], note)
  }

  /** The position of the first note carrying `id`, or -1 when there is none. */
  function FindIndex(notes: seq<Note>, id: Option<string>): (k: int)
    ensures -1 <= k < |notes|
    ensures k == -1 <==> !HasId(notes, id)
    ensures 0 <= k ==> notes[k].id == id
    ensures 0 <= k ==> forall j :: 0 <= j < k ==> notes[j].id != id
  {
    if |notes| == 0 then -1
    else if notes[0].id == id then 0
    else
      var k := FindIndex(notes[1..], id);
      assert HasId(notes[1..], id) <==> HasId(notes, id) by {
        if HasId(notes, id) {
          var i :| 0 <= i < |notes| && notes[i].id == id;
          assert notes[1..][i - 1].id == id;
        }
        if HasId(notes[1..], id) {
          var i :| 0 <= i < |notes[1..]| && notes[1..][i].id == id;
          assert notes[i + 1].id == id;
        }
      }
      if k == -1 then -1 else k + 1
  }

  /** The note with its completion negated; a missing flag counts as false,
      because `!undefined` is `true` in the source. */
  function Flip(n: Note): (r: Note)
    ensures r.completed == Some(!n.completed.GetOr(false))
    ensures r.id == n.id && r.clientId == n.clientId
    ensures r.name == n.name && r.description == n.description
  {
    n.(completed := Some(!n.completed.GetOr(false)))
  }

  /** Flipping twice restores a note whose completion flag is set; a missing
      flag comes back as an explicit false. */
  lemma FlipTwice(n: Note)
    ensures Flip(Flip(n)).completed == Some(n.completed.GetOr(false))
    ensures n.completed.Some? <==> Flip(Flip(n)) == n
  {
  }

  /** With unique ids, flipping the first note that carries `id` is the same as
      replacing every note with that id by the flipped note. */
  lemma FlipFirstIsReplace(notes: seq<Note>, id: Option<string>)
    requires UniqueIds(notes)
    requires HasId(notes, id)
    ensures var k := FindIndex(notes, id);
      notes[k := Flip(notes[k])] == ReplaceById(notes, Flip(notes[k]))
  {
    var k := FindIndex(notes, id);
    var a := notes[k := Flip(notes[k])];
    var b := ReplaceById(notes, Flip(notes[k]));
    forall j | 0 <= j < |notes| ensures a[j] == b[j] {
      if j != k {
        assert notes[j].id != notes[k].id;
      }
    }
  }
}
