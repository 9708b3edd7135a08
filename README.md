# DevKt undo engine in Dafny

This project models the undo/redo engine of the DevKt editor (`common/src/org/ice1000/devkt/ui/undo.kt`)
and proves properties of it.

- An `Edit` records one text change: an insertion or deletion of `text` at `offset`.
- `DevKtUndoManager` keeps two stacks of slots. A slot holds either an edit or `null`. A `null`
  slot is a barrier that closes one undoable unit.
  - `addEdit` pushes an edit and wipes the redo history.
  - `done` closes the current unit.
  - `undo` and `redo` move the top unit from one stack to the other. While doing so they tell the
    document host to take each edit back (undo) or perform it again (redo), then ask it to reparse
    once.

Files:

- `edits.dfy` (module `Edits`): the `Edit` record with `Invert` and `Length`, plus sequence
  helpers (`Reverse`, `InvertAll`).
- `stacks.dfy` (module `Stacks`): the slot datatype (`Barrier | Real(edit)`, where the source uses
  `null` for the barrier), and `PeekOrNull`/`PopOrNull`.
  - It defines the stack invariant `WellFormed`: no barrier at the bottom and no two barriers in a
    row.
  - It also has the functions that describe the two loops of `undo`/`redo`:
    - `StripBarriers`: the leading-barrier loop;
    - `TopRun`/`BelowRun`: what the drain loop moves and what it leaves.
  - It also has `MarkDone` (`done`/`doneUndo`).
- `host.dfy` (module `Host`): the document host as a class, `DocumentHandler`, that records every
  `insertDirectly`/`deleteDirectly`/`reparse` call in a trace. It also gives the call sequences an
  undo or a redo of a unit issues.
- `document.dfy` (module `Document`): what those calls do to a document held as a `string`. This is
  used to prove that undo followed by redo restores the text.
- `history.dfy` (module `History`): the engine as a pure state machine over the two stacks. Each
  operation gives the new state and the host calls it issues. Most lemmas about the engine's
  behaviour live here.
- `manager.dfy` (module `Manager`): `DevKtUndoManager` as a class whose two `seq` fields are
  updated in place.
  - The methods run the source's loops against a `DocumentHandler`.
  - Each method is proved to produce exactly the state and the trace that `History` gives.

The drain loop of `undo`/`redo` is `generateSequence { popOrNull() }.forEach`, and it keeps the
source's behaviour exactly. The `popOrNull` that ends the sequence really pops the barrier beneath
the unit being moved. As a result, a stack that has just been drained ends with a real edit whenever
it is not empty.

- An `addEdit` after an `undo` joins the unit beneath: `History.AddEdit` and
  `DrainLeavesOpenTop`.
- An `undo` right after a `redo` that had older redo history beneath it merges two redo units into
  one when the undo stack was empty or closed before the redo: `UndoAfterRedoMergesUnits`.
- After an `undo` and then a `redo`, the redone unit sits directly on the older undo history,
  with no barrier between them, so the next `undo` takes both units back at once: `UndoThenRedo`,
  proved when the redo stack was empty or closed (the undo stack becomes the drained stack, which
  ends with a real edit, plus the unit and one barrier).

For this reason the undo-then-redo lemmas assume that the redo stack is empty or closed (ends with a
barrier). It is so after the constructor and `clear` (`History.Empty`), after `addEdit`
(`History.AddEdit` empties it) and after `undo` (`History.Undo` closes it). It is not so after a
`redo` that leaves older redo history behind: that redo's drain consumes the barrier above the
older history, and `done` only touches the undo stack.

The source presents the manager as a replacement for Swing's `UndoManager` (undo.kt:15), so an
undo followed at once by a redo is expected to give the document back as it was. In that state it
does not. `History.TwoUnitsUndoneOneRedone` shows the state is reachable: `addEdit(a)`, `done`,
`addEdit(b)`, `done`, `undo`, `undo`, `redo` and `done` give an undo stack `a, barrier` over a redo
stack holding only `b` (which the first `undo` took back). `History.UndoThenRedoAfterRedo` then
shows the next undo taking back only `a`, while the redo that follows performs both `a` and `b`:
the redo does more than the undo took back. `History.UndoThenRedoAfterRedoDocument` gives a
document where this shows: with `a` inserting "x" at 0 and `b` inserting "y" at 1, the undo turns
"x" into "", and the redo turns "" into "xy" rather than back into "x".

`undo` and `redo` require the class invariant `Valid()`:

- The constructor and `clear` establish it. `addEdit`, `done`, `doneUndo`, `undo`, `redo` and the
  two drain loops preserve it. So every manager reachable through these methods satisfies it.
- In the source, the leading-barrier loop `while (null == undoStack.peek())` would throw on a stack
  made only of barriers. The invariant rules such stacks out.

## Model

| member | source | states |
|---|---|---|
| Edits.Edit.Invert | common/src/org/ice1000/devkt/ui/undo.kt:6 | the inverse edit has the same offset and text and the opposite `isInsert` |
| Edits.Edit.Length | common/src/org/ice1000/devkt/ui/undo.kt:7 | `length` is the number of characters of `text` |
| Edits.InvertInvolutive | common/src/org/ice1000/devkt/ui/undo.kt:5-7 | inverting twice gives an equal edit, inverting never gives the same edit, and length is kept |
| Stacks.PeekOrNull | common/src/org/ice1000/devkt/ui/undo.kt:12 | the result is a real edit exactly when the stack is non-empty with a real edit on top, and then it is that top slot |
| Stacks.PopOrNull | common/src/org/ice1000/devkt/ui/undo.kt:11 | an empty stack gives a barrier (`null`) and stays empty; otherwise the stack is the rest followed by the returned top slot |
| Stacks.PopOrNullAfterPush | common/src/org/ice1000/devkt/ui/undo.kt:11 | popping right after a push gives back the pushed slot and the old stack |
| Stacks.PopOrNullDrains | common/src/org/ice1000/devkt/ui/undo.kt:44 | a pop either yields a real edit of the top unit, or yields a barrier or `null` once the unit is exhausted, leaving exactly what lies below the unit and its barrier |
| Stacks.DrainTurn | common/src/org/ice1000/devkt/ui/undo.kt:44-49 | one turn of the drain loop keeps the loop's invariant and makes progress |
| Stacks.StripBarriers | common/src/org/ice1000/devkt/ui/undo.kt:42 | the leading-barrier loop leaves a prefix of the stack that is empty or has a real edit on top; `StripPopsAtMostOne` pins it down on well-formed stacks |
| Stacks.TopRun | common/src/org/ice1000/devkt/ui/undo.kt:44-49 | the edits the drain loop moves number at most the stack's height and sit directly above a barrier or the bottom; `TopRunSplit` shows they are exactly the slots above that barrier |
| Stacks.BelowRun | common/src/org/ice1000/devkt/ui/undo.kt:44-49 | what the drain loop leaves is strictly lower than a non-empty stack; `TopRunSplit` shows it is the stack below the consumed barrier |
| Stacks.MarkDone | common/src/org/ice1000/devkt/ui/undo.kt:77-85 | closing a stack adds at most one barrier and leaves it empty or ending with a barrier |
| Stacks.StripPopsAtMostOne | common/src/org/ice1000/devkt/ui/undo.kt:42 | on a well-formed non-empty stack the leading-barrier loop pops at most one barrier, never reaches the empty stack and leaves a real edit on top |
| Stacks.MarkDoneShape | common/src/org/ice1000/devkt/ui/undo.kt:77-85 | `done` appends a barrier exactly when the stack ends with a real edit, and otherwise changes nothing |
| Stacks.MarkDoneIdempotent | common/src/org/ice1000/devkt/ui/undo.kt:77-85 | closing a unit twice is the same as closing it once |
| Stacks.MarkDoneWellFormed | common/src/org/ice1000/devkt/ui/undo.kt:77-85 | `done`/`doneUndo` keep a stack well-formed |
| Stacks.AppendRealsWellFormed | common/src/org/ice1000/devkt/ui/undo.kt:71-75 | pushing real edits keeps a stack well-formed |
| Stacks.TopRunOfAppended | common/src/org/ice1000/devkt/ui/undo.kt:71-75 | pushed edits join the top unit beneath them, and what the drain loop would leave is unchanged |
| Stacks.PushedIsReversed | common/src/org/ice1000/devkt/ui/undo.kt:44-46 | edits pushed in the order they are popped lie on the receiving stack in reverse order |
| Host.DocumentHandler.InsertDirectly | common/src/org/ice1000/devkt/ui/undo.kt:48 | the host records the insert call with its offset, text, `move` and `reparse` arguments |
| Host.DocumentHandler.DeleteDirectly | common/src/org/ice1000/devkt/ui/undo.kt:47 | the host records the delete call with its offset, length and `reparse` argument |
| Host.DocumentHandler.Reparse | common/src/org/ice1000/devkt/ui/undo.kt:51 | the host records one reparse |
| Host.ForwardCall | common/src/org/ice1000/devkt/ui/undo.kt:63-64 | the redo call for an edit is at its offset, never asks for a reparse, and is an insertion exactly when the edit is; `ForwardCallPerformsEdit` shows it has the edit's effect |
| Host.InverseCall | common/src/org/ice1000/devkt/ui/undo.kt:47-48 | the undo call for an edit is at its offset, never asks for a reparse, and is an insertion exactly when the edit is a deletion; `InverseCallIsForwardOfInvert` relates it to `ForwardCall` |
| Host.UndoCalls | common/src/org/ice1000/devkt/ui/undo.kt:44-49 | undo issues one call per moved edit and none asks for a reparse; `UndoCallsOrder` gives the order |
| Host.RedoCalls | common/src/org/ice1000/devkt/ui/undo.kt:60-65 | redo issues one call per moved edit and none asks for a reparse; `RedoCallsReplayForward` gives the order |
| Host.InverseCallIsForwardOfInvert | common/src/org/ice1000/devkt/ui/undo.kt:47-48 | the call undo issues for an edit is the call redo would issue for the inverted edit, and the other way round |
| Host.ForwardCalls | common/src/org/ice1000/devkt/ui/undo.kt:63-64 | one forward call per edit, in order, none of them asking for a reparse |
| Host.UndoCallsReplayInverses | common/src/org/ice1000/devkt/ui/undo.kt:44-48 | the calls an undo of a unit issues are the forward calls of the unit's inverted edits, most recent first |
| Host.UndoCallsOrder | common/src/org/ice1000/devkt/ui/undo.kt:44-48 | the i-th call of an undo takes back the i-th most recent edit: a delete of `length` at `offset` for an insertion, an insert of `text` at `offset` with `move = 0` for a deletion |
| Host.RedoCallsReplayForward | common/src/org/ice1000/devkt/ui/undo.kt:60-64 | the calls a redo of a unit issues perform its edits forward, top of the redo stack first |
| Document.ApplyCall | common/src/org/ice1000/devkt/ui/undo.kt:51 | a reparse leaves the document text unchanged |
| Document.ForwardCallPerformsEdit | common/src/org/ice1000/devkt/ui/undo.kt:63-64 | the call redo issues for an edit has the effect the edit had when it was recorded |
| Document.InvertUndoesEdit | common/src/org/ice1000/devkt/ui/undo.kt:6 | applying the inverse of a recorded edit restores the document it was recorded against |
| Document.ForwardCallsPerformEdits | common/src/org/ice1000/devkt/ui/undo.kt:60-64 | forward calls of a unit have the unit's effect |
| Document.InvertedUnitRestores | common/src/org/ice1000/devkt/ui/undo.kt:44-48 | applying the inverses of a unit's edits, most recent first, restores the starting document |
| Document.UnitRoundTrip | common/src/org/ice1000/devkt/ui/undo.kt:44-67 | the undo calls of a unit recorded from `d0` to `d1` take `d1` back to `d0`, and the following redo calls take `d0` to `d1` |
| History.Empty | common/src/org/ice1000/devkt/ui/undo.kt:27-37 | a fresh or cleared engine is valid, and undo and redo on it issue no host calls and change nothing |
| History.AddEdit | common/src/org/ice1000/devkt/ui/undo.kt:71-75 | the redo stack becomes empty whatever it held, and the edit joins the top unit of the undo stack, leaving the history below that unit as it was |
| History.Done | common/src/org/ice1000/devkt/ui/undo.kt:77-80 | the redo stack is unchanged; the undo stack keeps all its slots, gains at most one, and ends closed (empty or with a barrier on top) |
| History.DoneUndo | common/src/org/ice1000/devkt/ui/undo.kt:82-85 | the mirror of `Done` on the redo stack |
| History.Undo | common/src/org/ice1000/devkt/ui/undo.kt:40-53 | nothing happens on an empty undo stack; otherwise the undo stack shrinks, the last host call is the reparse, and the redo stack ends with a barrier |
| History.Redo | common/src/org/ice1000/devkt/ui/undo.kt:56-69 | nothing happens on an empty redo stack; otherwise the redo stack shrinks, the last host call is the reparse, and the undo stack ends with a barrier |
| History.UndoUnfolds | common/src/org/ice1000/devkt/ui/undo.kt:40-53 | an undo of a non-empty stack strips the top barrier, drains the top unit onto the redo stack, closes it, and issues the unit's undo calls and one reparse; the state it leaves is valid |
| History.RedoUnfolds | common/src/org/ice1000/devkt/ui/undo.kt:56-69 | the mirror for redo |
| History.ValidStackDecomposes | common/src/org/ice1000/devkt/ui/undo.kt:42-49 | every non-empty well-formed stack is an older history, a non-empty top unit and at most one closing barrier |
| History.UndoTakesTopUnit | common/src/org/ice1000/devkt/ui/undo.kt:40-53 | undo of history-plus-unit leaves the history on the undo stack (the barrier beneath the unit is consumed), pushes the unit reversed and closed onto the redo stack, and issues the unit's undo calls then one reparse |
| History.RedoTakesTopUnit | common/src/org/ice1000/devkt/ui/undo.kt:56-69 | the mirror for redo, with forward calls and the undo stack closed at the end |
| History.UndoPreservesValid | common/src/org/ice1000/devkt/ui/undo.kt:40-53 | undo keeps both stacks well-formed |
| History.RedoPreservesValid | common/src/org/ice1000/devkt/ui/undo.kt:56-69 | redo keeps both stacks well-formed |
| History.EditsPreserveValid | common/src/org/ice1000/devkt/ui/undo.kt:32-85 | `addEdit`, `done`, `doneUndo` and `clear` keep both stacks well-formed |
| History.UndoMovesAtLeastOneEdit | common/src/org/ice1000/devkt/ui/undo.kt:41-52 | an undo past its guard shrinks the undo stack, moves at least one edit with its closing barrier onto the redo stack, and calls the host at least once before the reparse |
| History.UndoReparsesOnce | common/src/org/ice1000/devkt/ui/undo.kt:47-51 | an undo past its guard ends with exactly one reparse, and no earlier call asks for a reparse |
| History.RedoMovesAtLeastOneEdit | common/src/org/ice1000/devkt/ui/undo.kt:57-68 | the mirror of `UndoMovesAtLeastOneEdit` for redo |
| History.RedoReparsesOnce | common/src/org/ice1000/devkt/ui/undo.kt:63-67 | the mirror of `UndoReparsesOnce` for redo |
| History.DoneIdempotent | common/src/org/ice1000/devkt/ui/undo.kt:77-85 | `done` appends a barrier exactly when the undo stack ends with a real edit; `done` and `doneUndo` are idempotent |
| History.TwoInsertsUndo | common/src/org/ice1000/devkt/ui/undo.kt:40-80 | after recording insertions "ab" at 0 and "c" at 2 and `done`, undo issues delete(2,1), delete(0,2), reparse, and leaves only the redo stack non-empty |
| History.TwoInsertsRedo | common/src/org/ice1000/devkt/ui/undo.kt:56-69 | redo of that state issues insert(0,"ab"), insert(2,"c"), reparse, and restores the state before the undo |
| History.UndoThenRedo | common/src/org/ice1000/devkt/ui/undo.kt:44-68 | undo then redo, from an empty or closed redo stack: the undo stack holds the older history, then the unit in its original order, then one barrier; the redo stack loses only its top barrier; `canUndo`/`canRedo` are as before |
| History.UndoOntoClosedRedo | common/src/org/ice1000/devkt/ui/undo.kt:44-52 | undo onto an empty or closed redo stack pushes the reversed unit there as one closed unit |
| History.UndoThenRedoCalls | common/src/org/ice1000/devkt/ui/undo.kt:44-64 | when the redo stack is empty or closed before the undo, the redo's host calls are the undo's in reverse order, each inverted (insert and delete swapped, same offset and text) |
| History.UndoRedoCallsMirror | common/src/org/ice1000/devkt/ui/undo.kt:44-64 | the same mirror relation for any unit |
| History.UndoRedoRestoresDocument | common/src/org/ice1000/devkt/ui/undo.kt:40-69 | when the redo stack is empty or closed before the undo and the top unit took the document from `d0` to `d1`, undo takes it back to `d0` and the next redo to `d1` again |
| History.DrainLeavesOpenTop | common/src/org/ice1000/devkt/ui/undo.kt:44-49 | because the drain loop consumes the barrier beneath the unit, a drained stack is empty or ends with a real edit |
| History.RedoThenUndo | common/src/org/ice1000/devkt/ui/undo.kt:40-69 | when the undo stack is empty or closed before the redo: redo then undo puts the unit back on the redo stack directly on the older redo history, without the barrier that separated them |
| History.UndoAfterRedoMergesUnits | common/src/org/ice1000/devkt/ui/undo.kt:40-69 | when the undo stack is empty or closed before the redo and the redo stack holds older history beneath the redone unit: the next undo's unit on the redo stack is the older top unit followed by the redone edits |
| History.TwoUnitsUndoneOneRedone | common/src/org/ice1000/devkt/ui/undo.kt:40-85 | `addEdit(a)`, `done`, `addEdit(b)`, `done`, `undo`, `undo`, `redo`, `done` reach an undo stack `a, barrier` over an open redo stack `b` |
| History.UndoThenRedoAfterRedo | common/src/org/ice1000/devkt/ui/undo.kt:40-69 | from that state an undo takes back only `a`, but the redo after it performs `a` and then `b` |
| History.UndoThenRedoAfterRedoDocument | common/src/org/ice1000/devkt/ui/undo.kt:40-69 | on a concrete document, in the state above, the undo takes "x" to "" and the following redo takes "" to "xy", so undo then redo does not restore the document |
| Manager.DevKtUndoManager.constructor | common/src/org/ice1000/devkt/ui/undo.kt:24-28 | a new manager has both stacks empty and satisfies the invariant |
| Manager.DevKtUndoManager.CanUndo | common/src/org/ice1000/devkt/ui/undo.kt:29 | `canUndo` holds exactly when the undo stack is non-empty |
| Manager.DevKtUndoManager.CanRedo | common/src/org/ice1000/devkt/ui/undo.kt:30 | `canRedo` holds exactly when the redo stack is non-empty |
| Manager.DevKtUndoManager.Clear | common/src/org/ice1000/devkt/ui/undo.kt:32-37 | both stacks become empty |
| Manager.DevKtUndoManager.Undo | common/src/org/ice1000/devkt/ui/undo.kt:39-53 | the new stacks and the host's trace are those `History.Undo` gives, and the invariant is kept |
| Manager.DevKtUndoManager.DrainUndo | common/src/org/ice1000/devkt/ui/undo.kt:44-49 | the drain loop moves the top unit onto the redo stack edit by edit, leaves the history below it (barrier consumed), and has the host take each edit back; the invariant is kept |
| Manager.DevKtUndoManager.Redo | common/src/org/ice1000/devkt/ui/undo.kt:55-69 | the new stacks and the host's trace are those `History.Redo` gives, and the invariant is kept |
| Manager.DevKtUndoManager.DrainRedo | common/src/org/ice1000/devkt/ui/undo.kt:60-65 | the mirror of `DrainUndo` with forward calls, also keeping the invariant |
| Manager.DevKtUndoManager.AddEdit | common/src/org/ice1000/devkt/ui/undo.kt:71-75 | the undo stack gains the edit on top, the redo stack becomes empty, and the invariant is kept |
| Manager.DevKtUndoManager.Done | common/src/org/ice1000/devkt/ui/undo.kt:77-80 | the undo stack is closed as `History.Done` says, and the invariant is kept |
| Manager.DevKtUndoManager.DoneUndo | common/src/org/ice1000/devkt/ui/undo.kt:82-85 | the redo stack is closed as `History.DoneUndo` says, and the invariant is kept |
| Manager.WorkedExample | common/src/org/ice1000/devkt/ui/undo.kt:40-80 | on the class: two insertions, `done`, undo and redo issue exactly the expected calls and leave the expected `canUndo`/`canRedo` |

## Left out

- Locking: the `@Synchronized` on `clear`, `undo` and `redo` (undo.kt:32, 39, 55) is not modelled. The engine is modelled as single-threaded.
- `initialCapacity` (undo.kt:24-28) is not modelled. It is only an allocation hint. The constant capacity 160 has no behaviour to state.
- `Edit.toString` (undo.kt:8) is not modelled. It only formats text.
- The real `DevKtDocumentHandler` is not part of this model.
  - It is replaced by a class that records the calls it receives.
  - It is also replaced by a plain `string` semantics for insert and delete.
  - Its handling of the caret `move` argument, of out-of-range offsets and of reparsing (beyond "the text is unchanged") is not modelled.
- `Edit.text` is a `CharSequence` in the source; here it is a `string`. `text.toString()` at undo.kt:48 and 63 is the identity on it.
- Kotlin `Int` offsets are modelled as unbounded integers. Nothing in the engine does arithmetic on them.
- Manager.DevKtUndoManager.Undo: requires the class invariant, and so does `Redo`. The source would throw `EmptyStackException` from `peek()` on a stack made only of barriers. No reachable state has one, so the exception path is not modelled.
- Manager.DevKtUndoManager.DrainUndo: the drain loop is a separate method of the class so that each proof stays small. The loop is the same one, on the same fields, and the same goes for `DrainRedo`.
- Edits.Edit.Length: counts the Unicode scalar values of `text`, since a Dafny `string` is a sequence of them. The source's `text.length` counts UTF-16 code units, and so do the host's offsets. Both differ for text outside the Basic Multilingual Plane. The model counts offsets and lengths in the same unit, so no property proved here depends on the choice.
- Manager.DevKtUndoManager.DoneUndo: private in the source. Dafny has no private members without export sets, so here other code could call it too.
- The other repository files (the Swing UI, the annotators, the compiler bootstrap and the key-binding utilities) are outside the undo engine. They are not part of this model.
