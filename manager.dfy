/** `DevKtUndoManager` (common/src/org/ice1000/devkt/ui/undo.kt:24-86): the two stacks are fields
  * that the methods update in place, with the loops of the source. Each method is proved to do
  * what the matching function of `History` says. */
module Manager {
  import opened Edits
  import opened Stacks
  import opened Host
  import History

  class DevKtUndoManager {
    var undoStack: seq<Slot>
    var redoStack: seq<Slot>

    /** The object invariant: both stacks well-formed. */
    ghost predicate Valid()
      reads this
    {
      History.Valid(Model())
    }

    /** The abstract state of the engine. */
    function Model(): History.State
      reads this
    {
      History.State(undoStack, redoStack)
    }

    constructor ()
      ensures Valid() && Model() == History.Empty()
    {
      undoStack := [];
      redoStack := [];
    }

    function CanUndo(): (b: bool)
      reads this
      ensures b <==> undoStack != []
    {
      undoStack != []
    }

    function CanRedo(): (b: bool)
      reads this
      ensures b <==> redoStack != []
    {
      redoStack != []
    }

    method Clear()
      modifies this
      ensures Valid() && Model() == History.Empty()
    {
      undoStack := [];
      redoStack := [];
    }

    method Undo(host: DocumentHandler)
      requires Valid()
      modifies this, host
      ensures Valid()
      ensures Model() == History.Undo(old(Model())).next
      ensures host.trace == old(host.trace) + History.Undo(old(Model())).calls
    {
      if !CanUndo() {
        return;
      }
      ghost var st0 := Model();
      StripPopsAtMostOne(undoStack);
      // drop the barrier that closes the top unit
      while undoStack[|undoStack| - 1].Barrier?
        invariant undoStack != []
        invariant undoStack == st0.undo || (undoStack == StripBarriers(st0.undo) && undoStack[|undoStack| - 1].Real?)
        invariant redoStack == st0.redo && host.trace == old(host.trace)
        decreases |undoStack|
      {
        undoStack := undoStack[..|undoStack| - 1];
      }
      assert undoStack == StripBarriers(st0.undo);
      DrainUndo(host);
      host.Reparse();
      DoneUndo();
      History.UndoUnfolds(st0);
    }

    /** The drain loop of `undo`: pops the top unit edit by edit, pushing each edit onto the redo
      * stack and having the host revert it, until a barrier is popped or the stack is empty. */
    method DrainUndo(host: DocumentHandler)
      modifies this, host
      ensures undoStack == BelowRun(old(undoStack))
      ensures redoStack == old(redoStack) + Pushed(TopRun(old(undoStack)))
      ensures host.trace == old(host.trace) + UndoCalls(TopRun(old(undoStack)))
      ensures old(Valid()) ==> Valid()
    {
      ghost var top := undoStack;
      ghost var moved: seq<Edit> := [];
      var slot: Slot;
      DrainStart(undoStack);
      slot, undoStack := PopOrNull(undoStack).0, PopOrNull(undoStack).1;
      while slot.Real?
        invariant Draining(top, moved, slot, undoStack)
        invariant redoStack == old(redoStack) + Pushed(moved)
        invariant host.trace == old(host.trace) + UndoCalls(moved)
        decreases |undoStack| + (if slot.Real? then 1 else 0)
      {
        var e := slot.edit;
        redoStack := redoStack + [slot];
        if e.isInsert {
          host.DeleteDirectly(e.offset, e.Length(), false);
        } else {
          host.InsertDirectly(e.offset, e.text, 0, false);
        }
        DrainTurn(top, moved, slot, undoStack);
        Record(e, moved, old(redoStack), old(host.trace));
        moved := [e] + moved;
        slot, undoStack := PopOrNull(undoStack).0, PopOrNull(undoStack).1;
      }
      DrainKeepsWellFormed(top, old(redoStack), moved);
    }

    method Redo(host: DocumentHandler)
      requires Valid()
      modifies this, host
      ensures Valid()
      ensures Model() == History.Redo(old(Model())).next
      ensures host.trace == old(host.trace) + History.Redo(old(Model())).calls
    {
      if !CanRedo() {
        return;
      }
      ghost var st0 := Model();
      StripPopsAtMostOne(redoStack);
      while redoStack[|redoStack| - 1].Barrier?
        invariant redoStack != []
        invariant redoStack == st0.redo || (redoStack == StripBarriers(st0.redo) && redoStack[|redoStack| - 1].Real?)
        invariant undoStack == st0.undo && host.trace == old(host.trace)
        decreases |redoStack|
      {
        redoStack := redoStack[..|redoStack| - 1];
      }
      assert redoStack == StripBarriers(st0.redo);
      DrainRedo(host);
      host.Reparse();
      Done();
      History.RedoUnfolds(st0);
    }

    /** The drain loop of `redo`, the mirror of `DrainUndo`: each edit goes back onto the undo
      * stack and the host performs it again. */
    method DrainRedo(host: DocumentHandler)
      modifies this, host
      ensures redoStack == BelowRun(old(redoStack))
      ensures undoStack == old(undoStack) + Pushed(TopRun(old(redoStack)))
      ensures host.trace == old(host.trace) + RedoCalls(TopRun(old(redoStack)))
      ensures old(Valid()) ==> Valid()
    {
      ghost var top := redoStack;
      ghost var moved: seq<Edit> := [];
      var slot: Slot;
      DrainStart(redoStack);
      slot, redoStack := PopOrNull(redoStack).0, PopOrNull(redoStack).1;
      while slot.Real?
        invariant Draining(top, moved, slot, redoStack)
        invariant undoStack == old(undoStack) + Pushed(moved)
        invariant host.trace == old(host.trace) + RedoCalls(moved)
        decreases |redoStack| + (if slot.Real? then 1 else 0)
      {
        var e := slot.edit;
        undoStack := undoStack + [slot];
        if e.isInsert {
          host.InsertDirectly(e.offset, e.text, 0, false);
        } else {
          host.DeleteDirectly(e.offset, e.Length(), false);
        }
        DrainTurn(top, moved, slot, redoStack);
        Record(e, moved, old(undoStack), old(host.trace));
        moved := [e] + moved;
        slot, redoStack := PopOrNull(redoStack).0, PopOrNull(redoStack).1;
      }
      DrainKeepsWellFormed(top, old(undoStack), moved);
    }

    method AddEdit(edit: Edit)
      modifies this
      ensures Model() == History.AddEdit(old(Model()), edit)
      ensures old(Valid()) ==> Valid()
    {
      if Valid() {
        History.EditsPreserveValid(Model(), edit);
      }
      undoStack := undoStack + [Real(edit)];
      redoStack := [];
    }

    method Done()
      modifies this
      ensures Model() == History.Done(old(Model()))
      ensures old(Valid()) ==> Valid()
    {
      MarkDoneWellFormedIf(undoStack);
      if PeekOrNull(undoStack).Real? {
        undoStack := undoStack + [Barrier];
      }
    }

    method DoneUndo()
      modifies this
      ensures Model() == History.DoneUndo(old(Model()))
      ensures old(Valid()) ==> Valid()
    {
      MarkDoneWellFormedIf(redoStack);
      if PeekOrNull(redoStack).Real? {
        redoStack := redoStack + [Barrier];
      }
    }
  }

  lemma MarkDoneWellFormedIf(s: seq<Slot>)
    ensures WellFormed(s) ==> WellFormed(MarkDone(s))
  {
    if WellFormed(s) {
      MarkDoneWellFormed(s);
    }
  }

  /** A drain leaves a well-formed stack well-formed, and the stack that receives the unit too. */
  lemma DrainKeepsWellFormed(from: seq<Slot>, onto: seq<Slot>, moved: seq<Edit>)
    requires moved == TopRun(from)
    ensures WellFormed(from) ==> WellFormed(BelowRun(from))
    ensures WellFormed(onto) ==> WellFormed(onto + Pushed(moved))
  {
    if WellFormed(from) {
      BelowRunWellFormed(from);
    }
    if WellFormed(onto) {
      PushedIsReversed(moved);
      AppendRealsWellFormed(onto, Reverse(moved));
    }
  }

  /** What one turn of the drain loop adds to the receiving stack and to the host's trace. */
  lemma Record(e: Edit, moved: seq<Edit>, stack: seq<Slot>, trace: seq<HostCall>)
    ensures stack + Pushed(moved) + [Real(e)] == stack + Pushed([e] + moved)
    ensures trace + UndoCalls(moved) + [InverseCall(e)] == trace + UndoCalls([e] + moved)
    ensures trace + RedoCalls(moved) + [ForwardCall(e)] == trace + RedoCalls([e] + moved)
  {
    assert ([e] + moved)[1..] == moved;
  }

  /** The scenario of recording two insertions as one unit, undoing it and redoing it, run on the
    * class: the host calls each step issues and the availability flags after it. */
  method WorkedExample() returns (undoCalls: seq<HostCall>, redoCalls: seq<HostCall>,
                                  afterUndo: (bool, bool), afterRedo: (bool, bool))
    ensures undoCalls == [DeleteCall(2, 1, false), DeleteCall(0, 2, false), ReparseCall]
    ensures afterUndo == (false, true)
    ensures redoCalls == [InsertCall(0, "ab", 0, false), InsertCall(2, "c", 0, false), ReparseCall]
    ensures afterRedo == (true, false)
  {
    var e1, e2 := Edit(0, "ab", true), Edit(2, "c", true);
    History.TwoInsertsUndo(e1, e2);
    History.TwoInsertsRedo(e1, e2);
    var m := new DevKtUndoManager();
    m.AddEdit(e1);
    m.AddEdit(e2);
    m.Done();
    var host := new DocumentHandler();
    m.Undo(host);
    undoCalls := host.trace;
    afterUndo := (m.CanUndo(), m.CanRedo());
    host := new DocumentHandler();
    m.Redo(host);
    redoCalls := host.trace;
    afterRedo := (m.CanUndo(), m.CanRedo());
  }
}
