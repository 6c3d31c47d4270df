# To-do client state reducer

A Dafny model of the client-side state handling of a small to-do list application.
All local changes go through one pure reducer, `(state, action) -> state`. These
include optimistic local edits, the result of the initial fetch, and push
notifications from other clients. Around the reducer, the `useTodoReducer` hook
decides which actions to dispatch when the user types, submits, deletes or toggles
a note, and when a push notification arrives.

Modules:

- `Wrappers` (`wrappers.dfy`): `Option`, which stands for TypeScript's optional fields.
- `TodoTypes` (`todo_types.dfy`): `Note`, `State`, `Field`, `Action`, the initial state,
  and the predicates `HasId` and `UniqueIds`.
- `NoteList` (`note_list.dfy`): the list operations the reducer and hook use. These are
  the filter of DELETE_NOTE, the map of UPDATE_NOTE, `findIndex`, and the completion flip.
- `Reducer` (`reducer.dfy`): `Reduce`, `ReduceAll` (actions applied in dispatch order),
  and the per-action laws.
- `Hook` (`hook.dfy`): the dispatch decisions of `createNote`, the three push handlers,
  `deleteNote`, `updateNote` (toggle), `onChange` and `fetchNotes`. They are merged into
  one `Event` type with `Dispatches` and `Step`. The module also proves that each event
  keeps note ids unique when fetched lists have unique ids and created notes carry an id
  the list does not hold yet.
- `Scenarios` (`scenarios.dfy`): concrete examples, proved for small inputs.

Some values are parameters instead of hidden inputs: the session's client id
(`CLIENT_ID`), freshly generated note ids (`uuid()`), and the outcome of the fetch.

## Model

| member | source | states |
|---|---|---|
| NoteList.WithoutId | src/hooks/useTodoReducer.ts:49-53 | Removing an id keeps exactly the notes with a different id (membership both ways). No survivor carries the id. The list is unchanged when no note has the id, and gets shorter when some note does. |
| NoteList.WithoutIdConcat | src/hooks/useTodoReducer.ts:52 | The filter distributes over concatenation, so survivors keep their original relative order. |
| NoteList.WithoutIdIdempotent | src/hooks/useTodoReducer.ts:49-53 | Filtering by an id twice gives the same list as filtering once. |
| NoteList.WithoutIdKeepsUnique | src/hooks/useTodoReducer.ts:49-53 | Deleting from a list whose ids are unique leaves a list whose ids are unique. |
| NoteList.ReplaceById | src/hooks/useTodoReducer.ts:54-61 | The length is kept. Each position whose id equals the supplied note's id holds the supplied note, and every other position keeps its note. |
| NoteList.FindIndex | src/hooks/useTodoReducer.ts:165 | Returns -1 exactly when no note has the id. Otherwise it returns an index whose note has the id, and no earlier note has it. |
| NoteList.Flip | src/hooks/useTodoReducer.ts:168 | Completion becomes the negation of the old flag, with a missing flag read as false. Id, client id, name and description are kept. |
| NoteList.FlipTwice | src/hooks/useTodoReducer.ts:168 | Flipping twice leaves completion as the original flag, with a missing flag read as false. The note comes back unchanged exactly when its flag was set. |
| NoteList.FlipFirstIsReplace | src/hooks/useTodoReducer.ts:164-169 | When ids are unique, flipping the first note with an id gives the same list as replacing every note with that id by the flipped note. |
| Reducer.SetField | src/hooks/useTodoReducer.ts:47-48 | The named form field reads back the new value. Every other field, and the completion flag, keeps its value. |
| Reducer.Reduce | src/hooks/useTodoReducer.ts:34-65 | Each action changes only its own part of the state. SET_NOTES installs the supplied list, or [] if none is supplied. SET_NOTES and ERROR clear loading. Error is sticky, and only ERROR sets it. ADD_NOTE prepends. RESET_FORM restores the initial form. SET_INPUT sets one field. DELETE_NOTE drops every note with the id. UPDATE_NOTE replaces notes with the id in place. An unknown action returns the state unchanged. |
| Reducer.DeleteAbsentIsNoOp | src/hooks/useTodoReducer.ts:49-53 | DELETE_NOTE with an id that no note has leaves the state unchanged. |
| Reducer.DeleteIdempotent | src/hooks/useTodoReducer.ts:49-53 | Applying DELETE_NOTE twice with one id equals applying it once. |
| Reducer.DeleteKeepsOrder | src/hooks/useTodoReducer.ts:49-53 | DELETE_NOTE on a list split in two equals deleting from each part and joining the results. |
| Reducer.UpdateAbsentIsNoOp | src/hooks/useTodoReducer.ts:54-61 | UPDATE_NOTE with a note whose id no note has leaves the state unchanged. |
| Reducer.AddThenDeleteRestores | src/hooks/useTodoReducer.ts:43-53 | ADD_NOTE of a note with a new id, then DELETE_NOTE of that id, gives back the prior state. |
| Reducer.LastValue | src/hooks/useTodoReducer.ts:47-48 | Characterises the last edit of a field in a run of edits: it exists exactly when some edit names the field, and no later edit names that field. |
| Reducer.SetInputsKeepLastValue | src/hooks/useTodoReducer.ts:45-48 | After any run of SET_INPUT actions, each field holds the last value set for it, or its earlier value if it was never set. Notes, loading, error and completion are untouched. |
| Hook.NewNote | src/hooks/useTodoReducer.ts:135 | The created note takes the form's name and description, the session's client id and the fresh id, with completed false. |
| Hook.CreateDispatches | src/hooks/useTodoReducer.ts:131-137 | Nothing is dispatched exactly when the name or description is empty. Otherwise it dispatches ADD_NOTE of the new note, then RESET_FORM. |
| Hook.PushedCreateDispatches | src/hooks/useTodoReducer.ts:82-85 | A pushed creation dispatches nothing exactly when its client id is this session's id. Otherwise it dispatches ADD_NOTE of that note. |
| Hook.ToggledNotes | src/hooks/useTodoReducer.ts:164-168 | Same length. The first note with the id is replaced by its flipped copy, and every other note is unchanged. |
| Hook.Dispatches | src/hooks/useTodoReducer.ts:69-169 | Each event dispatches at most two actions, and never an unknown one. Nothing is dispatched exactly for an incomplete form or the echo of this session's own creation. Each kind of action comes only from its own events: ADD_NOTE from a complete submit or another client's creation; RESET_FORM only from a complete submit; SET_NOTES from a fetch or a toggle; DELETE_NOTE from a local or pushed delete; UPDATE_NOTE from a pushed update; SET_INPUT from typing; ERROR from a failed fetch. |
| Hook.ForwardedEffect | src/hooks/useTodoReducer.ts:69-152 | The state after each forwarding handler equals the reducer applied to that handler's payload. Typing applies SET_INPUT with the field and value. A fetch applies SET_NOTES with the fetched items, and a failed fetch applies ERROR. A local delete (line 152) or a pushed delete (line 98) applies DELETE_NOTE of that id. A pushed update (line 111) applies UPDATE_NOTE of that note. |
| Hook.CreateNoteEffect | src/hooks/useTodoReducer.ts:131-137 | An incomplete form leaves the state unchanged. A complete form gives a new head note built from the form, the session id, the fresh id and completed false. The old notes follow it, the form is reset, and the flags are kept. |
| Hook.PushedCreateEffect | src/hooks/useTodoReducer.ts:82-85 | The echo of this session's own creation leaves the state unchanged. Any other pushed note is prepended, and the form, loading and error are kept. |
| Hook.ToggleEffect | src/hooks/useTodoReducer.ts:164-169 | For an id in the list, length and order are kept. The first note with the id stays in its position, keeps its id and its other fields, and has its completion negated. All other notes are unchanged, loading becomes false, and the form and error are kept. |
| Hook.ToggleAgreesWithUpdate | src/hooks/useTodoReducer.ts:54-61 | When ids are unique, the toggle's SET_NOTES gives the same list as UPDATE_NOTE with the flipped note. |
| Hook.ToggleTwiceRestores | src/hooks/useTodoReducer.ts:164-169 | Toggling a note whose completion flag is set, and then toggling it again, gives back the original list. |
| Hook.StepKeepsUniqueIds | src/hooks/useTodoReducer.ts:82-169 | Every event keeps note ids unique, given two conditions. A fetched list must have unique ids. A created note, local or pushed from another client, must carry an id the list does not hold yet. The echo of this session's own creation is never inserted twice. |
| Hook.PrependKeepsUnique | src/hooks/useTodoReducer.ts:43-44 | Prepending a note whose id the list lacks keeps ids unique. |
| Scenarios.FetchIntoInitialState | src/hooks/useTodoReducer.ts:24-40 | From the initial state, fetching the single note "1" gives exactly the initial state with that one note and loading false. |
| Scenarios.ToggleSingleNote | src/hooks/useTodoReducer.ts:164-169 | Toggling the single uncompleted note "1" completes it in place. |
| Scenarios.EmptyNameCreatesNothing | src/hooks/useTodoReducer.ts:133-134 | Submitting a form with an empty name changes neither the notes nor the form. |
| Scenarios.EchoSuppressedOnlyForOwnClient | src/hooks/useTodoReducer.ts:84-85 | Session "A" dispatches nothing for its own note, and dispatches ADD_NOTE for a note from "B". |
| Scenarios.PushAfterFetchDuplicates | src/hooks/useTodoReducer.ts:84-85 | A note from another client that the initial fetch already delivered is inserted again when its creation push arrives. The push handler checks only the client id, and ADD_NOTE (line 44) does not look at ids, so the list ends up holding that note twice. |

## Left out

- Network calls are not modelled. This covers the GraphQL query, the three mutations and the three subscriptions. A fetch becomes an event carrying either the list or a failure. A failed fetch dispatches ERROR (useTodoReducer.ts:126-128), and the model carries it as `FetchFailed`. Failures of the create, delete and update mutations, and errors on the create and delete subscriptions, are only logged. The update subscription (useTodoReducer.ts:106-113) has no error handler at all.
- `uuid()` is not modelled. The session's client id and each new note id are parameters.
- `console.log`, `console.warn` and the `alert` shown for an incomplete form are not modelled. They are output only.
- React's `useReducer`/`useEffect` wiring, subscription teardown and rendering in `src/App.tsx` are not modelled. They are framework lifecycle and UI code.
- Reducer.SetField: only the four string-typed note keys are modelled, with a string value. The action's key is typed `name?: keyof TodoNote` (types/index.ts:24), which also allows the `completed` key or no key at all. Its value is typed `value?: any` (line 25), which also allows a non-string value. The only dispatcher, `onChange`, sends the name and text of an input field.
- Reducer.Reduce: ADD_NOTE and UPDATE_NOTE always carry a note. The source's `action.note!` would insert `undefined` or fault if the note were missing.
- Hook.ToggledNotes: requires that the id is in the list. With an absent id, `findIndex` returns -1 and `notes[-1]` is `undefined`. Reading `.completed` of it at line 168 throws a TypeError. Because `updateNote` is `async`, the error only rejects its promise before the dispatch at line 169, so nothing is dispatched and the state is unchanged. The model does not cover that path. The only call site (App.tsx:45) passes the id of a note rendered from the same `state.notes`, so the requirement holds there.
- The toggle's in-place write to the note object is not modelled. That write also changes the previous state's note through aliasing. The model builds a new note value instead.
- ERROR carries `notes: []` in the source, but the reducer ignores it, so the `Error` action has no payload.
- Hook.StepKeepsUniqueIds: for a note pushed from another client, the premise that its id is not already in the list is an assumption the source does not check. The push handler tests only the client id (useTodoReducer.ts:84), and ADD_NOTE prepends without looking at ids (line 44). So a push that arrives after the fetch already delivered that note leaves two notes with one id; Scenarios.PushAfterFetchDuplicates proves this.
- DELETE_NOTE filters out every note with the id (useTodoReducer.ts:52), not only the first, and the model does the same.
- Hook.Step: assumes each handler reads the same state its actions are applied to. In the source, `createNote` and `updateNote` read the `state` captured at the last render (useTodoReducer.ts:132, 165). `updateNote` then dispatches SET_NOTES with the whole list (line 169). That overwrites any action dispatched since that render, such as a pushed ADD_NOTE, DELETE_NOTE or UPDATE_NOTE (lines 85, 98, 111). The model cannot show this lost update. Hook.ToggleAgreesWithUpdate holds only under the same assumption. How wide the window is depends on React's render batching, which is not modelled.
