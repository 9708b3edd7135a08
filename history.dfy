/** The undo engine as a state machine over its two stacks: what each operation of
  * `DevKtUndoManager` (common/src/org/ice1000/devkt/ui/undo.kt) does to the stacks and which host
  * calls it issues. The class in manager.dfy is proved to behave as these functions say. */
module History {
  import opened Edits
  import opened Stacks
  import opened Host
  import opened Document

  /** Both stacks, tops at the end. */
  datatype State = State(undo: seq<Slot>, redo: seq<Slot>)

  /** The engine's invariant: both stacks well-formed. */
  predicate Valid(st: State)
  {
    WellFormed(st.undo) && WellFormed(st.redo)
  }

  /** The new state and the host calls issued, in order. */
  datatype Step = Step(next: State, calls: seq<HostCall>)

  /** A fresh engine, and the state after `clear`. */
  function Empty(): (r: State)
    ensures Valid(r) && Undo(r) == Step(r, []) && Redo(r) == Step(r, [])
  {
    State([], [])
  }

  function AddEdit(st: State, e: Edit): (r: State)
    ensures r.redo == []
    ensures TopRun(r.undo) == TopRun(st.undo) + [e] && BelowRun(r.undo) == BelowRun(st.undo)
  {
    TopRunOfAppended(st.undo, [e]);
    assert st.undo + Reals([e]) == st.undo + [Real(e)];
    State(st.undo + [Real(e)], [])
  }

  function Done(st: State): (r: State)
    ensures r.redo == st.redo
    ensures |st.undo| <= |r.undo| <= |st.undo| + 1 && r.undo[..|st.undo|] == st.undo
    ensures r.undo == [] || r.undo[|r.undo| - 1].Barrier?
  {
    State(MarkDone(st.undo), st.redo)
  }

  function DoneUndo(st: State): (r: State)
    ensures r.undo == st.undo
    ensures |st.redo| <= |r.redo| <= |st.redo| + 1 && r.redo[..|st.redo|] == st.redo
    ensures r.redo == [] || r.redo[|r.redo| - 1].Barrier?
  {
    State(st.undo, MarkDone(st.redo))
  }

  /** `undo`: nothing when the undo stack is empty; otherwise drop the top barrier, pop the top
    * unit onto the redo stack (consuming the barrier beneath it), take each edit back, reparse
    * once and close the redo stack. */
  function Undo(st: State): (r: Step)
    requires WellFormed(st.undo)
    ensures st.undo == [] ==> r == Step(st, [])
    ensures st.undo != [] ==> |r.next.undo| < |st.undo| && r.calls != [] && r.calls[|r.calls| - 1] == ReparseCall
    ensures st.undo != [] ==> r.next.redo != [] && r.next.redo[|r.next.redo| - 1].Barrier?
  {
    if st.undo == [] then Step(st, [])
    else
      StripPopsAtMostOne(st.undo);
      var top := StripBarriers(st.undo);
      var unit := TopRun(top);
      Step(State(BelowRun(top), MarkDone(st.redo + Pushed(unit))), UndoCalls(unit) + [ReparseCall])
  }

  /** `redo`: the mirror of `undo`, performing each edit forward and closing the undo stack. */
  function Redo(st: State): (r: Step)
    requires WellFormed(st.redo)
    ensures st.redo == [] ==> r == Step(st, [])
    ensures st.redo != [] ==> |r.next.redo| < |st.redo| && r.calls != [] && r.calls[|r.calls| - 1] == ReparseCall
    ensures st.redo != [] ==> r.next.undo != [] && r.next.undo[|r.next.undo| - 1].Barrier?
  {
    if st.redo == [] then Step(st, [])
    else
      StripPopsAtMostOne(st.redo);
      var top := StripBarriers(st.redo);
      var unit := TopRun(top);
      Step(State(MarkDone(st.undo + Pushed(unit)), BelowRun(top)), RedoCalls(unit) + [ReparseCall])
  }

  /** `Undo` of a non-empty undo stack, spelled out in terms of the two loops of the source, and
    * the state it leaves is valid. */
  lemma UndoUnfolds(st: State)
    requires Valid(st) && st.undo != []
    ensures var top := StripBarriers(st.undo);
      var next := State(BelowRun(top), MarkDone(st.redo + Pushed(TopRun(top))));
      Valid(next) && Undo(st) == Step(next, UndoCalls(TopRun(top)) + [ReparseCall])
  {
    UndoPreservesValid(st);
  }

  lemma RedoUnfolds(st: State)
    requires Valid(st) && st.redo != []
    ensures var top := StripBarriers(st.redo);
      var next := State(MarkDone(st.undo + Pushed(TopRun(top))), BelowRun(top));
      Valid(next) && Redo(st) == Step(next, RedoCalls(TopRun(top)) + [ReparseCall])
  {
    RedoPreservesValid(st);
  }

  /** A stack holding the history `below`, then the unit `unit` (oldest edit first), closed by a
    * barrier when `closed` holds. */
  function WithUnit(below: seq<Slot>, unit: seq<Edit>, closed: bool): seq<Slot>
  {
    (if below == [] then [] else below + [Barrier]) + Reals(unit) + (if closed then [Barrier] else [])
  }

  /** A history that can lie beneath a unit: well-formed and not ending with a barrier. */
  predicate OpenHistory(below: seq<Slot>)
  {
    WellFormed(below) && (below == [] || below[|below| - 1].Real?)
  }

  /** Every non-empty well-formed stack is a history with a non-empty unit on top. */
  lemma ValidStackDecomposes(s: seq<Slot>)
    requires WellFormed(s) && s != []
    ensures var top := StripBarriers(s);
      TopRun(top) != [] && OpenHistory(BelowRun(top)) &&
      s == WithUnit(BelowRun(top), TopRun(top), s[|s| - 1].Barrier?)
  {
    StripPopsAtMostOne(s);
    StripSplit(s);
    var top := StripBarriers(s);
    PrefixWellFormed(s, |top|);
    OpenTopDecomposes(top, s[|s| - 1].Barrier?);
  }

  /** The stack the leading-barrier loop leaves, always with a real edit on top. */
  lemma StripSplit(s: seq<Slot>)
    requires WellFormed(s) && s != []
    ensures s == StripBarriers(s) + (if s[|s| - 1].Barrier? then [Barrier] else [])
  {
    StripPopsAtMostOne(s);
    if s[|s| - 1].Barrier? {
      assert s == s[..|s| - 1] + [Barrier];
    }
  }

  lemma OpenTopDecomposes(top: seq<Slot>, closed: bool)
    requires WellFormed(top) && top != [] && top[|top| - 1].Real?
    ensures TopRun(top) != [] && OpenHistory(BelowRun(top))
    ensures top + (if closed then [Barrier] else []) == WithUnit(BelowRun(top), TopRun(top), closed)
  {
    var below := BelowRun(top);
    var unit := TopRun(top);
    BelowRunWellFormed(top);
    TopRunSplit(top);
    if top == below + [Barrier] + Reals(unit) {
      ClosedBelowShape(below, unit, top, closed);
    } else {
      assert below == [] && top == Reals(unit);
    }
  }

  /** A unit that sits on a barrier: the history beneath is non-empty and ends with a real edit. */
  lemma ClosedBelowShape(below: seq<Slot>, unit: seq<Edit>, top: seq<Slot>, closed: bool)
    requires WellFormed(top) && top != [] && top[|top| - 1].Real?
    requires top == below + [Barrier] + Reals(unit)
    ensures below != [] && below[|below| - 1].Real? && unit != []
    ensures top + (if closed then [Barrier] else []) == WithUnit(below, unit, closed)
  {
    assert top[|below|] == Barrier;
    assert below != [] by {
      assert top[0].Real?;
    }
    assert top[|below| - 1] == below[|below| - 1];
  }

  /** Undoing a stack built as history plus unit gives back the history, moves the unit (most
    * recent edit first) onto the redo stack as one closed unit, and takes the edits back from the
    * most recent down, followed by exactly one reparse. */
  lemma UndoTakesTopUnit(below: seq<Slot>, unit: seq<Edit>, closed: bool, redo: seq<Slot>)
    requires OpenHistory(below) && unit != []
    ensures WellFormed(WithUnit(below, unit, closed))
    ensures Undo(State(WithUnit(below, unit, closed), redo)) ==
      Step(State(below, redo + Reals(Reverse(unit)) + [Barrier]), UndoCalls(unit) + [ReparseCall])
  {
    DrainWithUnit(below, unit, closed);
    ClosePushed(redo, unit);
  }

  /** Redo mirrors `UndoTakesTopUnit` with the stacks swapped and the edits performed forward. */
  lemma RedoTakesTopUnit(undo: seq<Slot>, below: seq<Slot>, unit: seq<Edit>, closed: bool)
    requires OpenHistory(below) && unit != []
    ensures WellFormed(WithUnit(below, unit, closed))
    ensures Redo(State(undo, WithUnit(below, unit, closed))) ==
      Step(State(undo + Reals(Reverse(unit)) + [Barrier], below), RedoCalls(unit) + [ReparseCall])
  {
    DrainWithUnit(below, unit, closed);
    ClosePushed(undo, unit);
  }

  /** Two insertions recorded as one unit ("ab" at 0, then "c" at 2): undo deletes them most recent
    * first and leaves only a redo. */
  lemma TwoInsertsUndo(e1: Edit, e2: Edit)
    requires e1 == Edit(0, "ab", true) && e2 == Edit(2, "c", true)
    ensures Done(AddEdit(AddEdit(Empty(), e1), e2)) == State([Real(e1), Real(e2), Barrier], [])
    ensures Valid(State([Real(e1), Real(e2), Barrier], []))
    ensures Undo(State([Real(e1), Real(e2), Barrier], [])) ==
      Step(State([], [Real(e2), Real(e1), Barrier]), [DeleteCall(2, 1, false), DeleteCall(0, 2, false), ReparseCall])
  {
    TwoEditUnit(e1, e2);
    TwoInsertsCalls(e1, e2);
  }

  /** Redo of that unit inserts the text again in the original order and restores the engine to
    * where it was before the undo. */
  lemma TwoInsertsRedo(e1: Edit, e2: Edit)
    requires e1 == Edit(0, "ab", true) && e2 == Edit(2, "c", true)
    ensures Valid(State([], [Real(e2), Real(e1), Barrier]))
    ensures Redo(State([], [Real(e2), Real(e1), Barrier])) ==
      Step(State([Real(e1), Real(e2), Barrier], []), [InsertCall(0, "ab", 0, false), InsertCall(2, "c", 0, false), ReparseCall])
  {
    TwoEditUnit(e2, e1);
    TwoInsertsCalls(e1, e2);
  }

  /** The loops of `undo`/`redo` on a stack holding one closed unit of two edits. */
  lemma TwoEditUnit(a: Edit, b: Edit)
    ensures StripBarriers([Real(a), Real(b), Barrier]) == [Real(a), Real(b)]
    ensures TopRun([Real(a), Real(b)]) == [a, b] && BelowRun([Real(a), Real(b)]) == []
    ensures MarkDone([] + Pushed([a, b])) == [Real(b), Real(a), Barrier]
  {
    assert [Real(a), Real(b), Barrier][..2] == [Real(a), Real(b)];
    assert [Real(a), Real(b)][..1] == [Real(a)] && [Real(a)][..0] == [];
    assert BelowRun([Real(a)]) == [];
    assert [a, b][1..] == [b] && [b][1..] == [];
    assert Pushed([b]) == [Real(b)];
    assert Pushed([a, b]) == [Real(b), Real(a)];
    assert [] + Pushed([a, b]) == Pushed([a, b]);
  }

  lemma TwoInsertsCalls(e1: Edit, e2: Edit)
    requires e1 == Edit(0, "ab", true) && e2 == Edit(2, "c", true)
    ensures UndoCalls([e1, e2]) == [DeleteCall(2, 1, false), DeleteCall(0, 2, false)]
    ensures RedoCalls([e2, e1]) == [InsertCall(0, "ab", 0, false), InsertCall(2, "c", 0, false)]
  {
    assert [e1, e2][1..] == [e2] && [e2][1..] == [];
    assert UndoCalls([e2]) == [DeleteCall(2, 1, false)];
    assert [e2, e1][1..] == [e1] && [e1][1..] == [];
    assert RedoCalls([e1]) == [InsertCall(0, "ab", 0, false)];
  }

  /** The leading-barrier loop and the drain loop on a history with a unit on top: the unit is
    * what is drained and the history is what is left. */
  lemma DrainWithUnit(below: seq<Slot>, unit: seq<Edit>, closed: bool)
    requires OpenHistory(below) && unit != []
    ensures WellFormed(WithUnit(below, unit, closed)) && WithUnit(below, unit, closed) != []
    ensures var top := StripBarriers(WithUnit(below, unit, closed));
      TopRun(top) == unit && BelowRun(top) == below
  {
    var pre := if below == [] then [] else below + [Barrier];
    WithUnitSplit(below, unit, closed);
    TopRunOfAppended(pre, unit);
    assert TopRun(pre) == [];
    assert BelowRun(pre) == below by {
      if below != [] {
        assert pre[..|pre| - 1] == below;
      }
    }
  }

  /** Pushing a non-empty unit and closing it. */
  lemma ClosePushed(s: seq<Slot>, unit: seq<Edit>)
    requires unit != []
    ensures MarkDone(s + Pushed(unit)) == s + Reals(Reverse(unit)) + [Barrier]
  {
    PushedIsReversed(unit);
    var t := s + Reals(Reverse(unit));
    assert t[|t| - 1].Real?;
  }

  /** Facts about `WithUnit` shared by the two lemmas above. */
  lemma WithUnitSplit(below: seq<Slot>, unit: seq<Edit>, closed: bool)
    requires OpenHistory(below) && unit != []
    ensures var pre := if below == [] then [] else below + [Barrier];
      WellFormed(WithUnit(below, unit, closed)) &&
      StripBarriers(WithUnit(below, unit, closed)) == pre + Reals(unit)
  {
    var pre := if below == [] then [] else below + [Barrier];
    var open := pre + Reals(unit);
    assert WellFormed(pre) by {
      if below != [] {
        assert pre[|pre| - 2] == below[|below| - 1];
        forall i | 0 <= i < |pre| - 1 ensures pre[i].Real? || pre[i + 1].Real? {
          if i + 1 < |below| { assert pre[i] == below[i] && pre[i + 1] == below[i + 1]; }
        }
      }
    }
    AppendRealsWellFormed(pre, unit);
    assert open[|open| - 1].Real?;
    MarkDoneWellFormed(open);
    if closed {
      assert WithUnit(below, unit, closed) == open + [Barrier];
      assert StripBarriers(open + [Barrier]) == StripBarriers(open) by {
        assert (open + [Barrier])[..|open|] == open;
      }
    } else {
      assert WithUnit(below, unit, closed) == open;
    }
  }

  /** Undo and redo keep both stacks well-formed. */
  lemma UndoPreservesValid(st: State)
    requires Valid(st)
    ensures Valid(Undo(st).next)
  {
    if st.undo != [] {
      ValidStackDecomposes(st.undo);
      var top := StripBarriers(st.undo);
      UndoTakesTopUnit(BelowRun(top), TopRun(top), st.undo[|st.undo| - 1].Barrier?, st.redo);
      AppendRealsWellFormed(st.redo, Reverse(TopRun(top)));
      MarkDoneWellFormed(st.redo + Reals(Reverse(TopRun(top))));
    }
  }

  lemma RedoPreservesValid(st: State)
    requires Valid(st)
    ensures Valid(Redo(st).next)
  {
    if st.redo != [] {
      ValidStackDecomposes(st.redo);
      var top := StripBarriers(st.redo);
      RedoTakesTopUnit(st.undo, BelowRun(top), TopRun(top), st.redo[|st.redo| - 1].Barrier?);
      AppendRealsWellFormed(st.undo, Reverse(TopRun(top)));
      MarkDoneWellFormed(st.undo + Reals(Reverse(TopRun(top))));
    }
  }

  /** Recording, closing and clearing keep both stacks well-formed. */
  lemma EditsPreserveValid(st: State, e: Edit)
    requires Valid(st)
    ensures Valid(AddEdit(st, e)) && Valid(Done(st)) && Valid(DoneUndo(st)) && Valid(Empty())
  {
    AppendRealsWellFormed(st.undo, [e]);
    assert st.undo + Reals([e]) == st.undo + [Real(e)];
    MarkDoneWellFormed(st.undo);
    MarkDoneWellFormed(st.redo);
  }

  /** An undo that passes its emptiness guard moves at least one edit: the undo stack shrinks, the
    * redo stack gains at least that edit and its closing barrier, and the host is called at least
    * once before the reparse. */
  lemma UndoMovesAtLeastOneEdit(st: State)
    requires Valid(st) && st.undo != []
    ensures var r := Undo(st);
      |r.next.undo| < |st.undo| && |r.next.redo| >= |st.redo| + 2 && |r.calls| >= 2
  {
    ValidStackDecomposes(st.undo);
    var top := StripBarriers(st.undo);
    UndoTakesTopUnit(BelowRun(top), TopRun(top), st.undo[|st.undo| - 1].Barrier?, st.redo);
  }

  /** The host calls of an undo past its guard: none of the calls that take edits back asks for a
    * reparse, and the last call is the one reparse. */
  lemma UndoReparsesOnce(st: State)
    requires Valid(st) && st.undo != []
    ensures var r := Undo(st);
      |r.calls| >= 2 && NoReparse(r.calls[..|r.calls| - 1]) && r.calls[|r.calls| - 1] == ReparseCall
  {
    ValidStackDecomposes(st.undo);
    var top := StripBarriers(st.undo);
    var unit := TopRun(top);
    UndoTakesTopUnit(BelowRun(top), unit, st.undo[|st.undo| - 1].Barrier?, st.redo);
    UndoCallsReplayInverses(unit);
    assert Undo(st).calls[..|unit|] == UndoCalls(unit);
  }

  lemma RedoMovesAtLeastOneEdit(st: State)
    requires Valid(st) && st.redo != []
    ensures var r := Redo(st);
      |r.next.redo| < |st.redo| && |r.next.undo| >= |st.undo| + 2 && |r.calls| >= 2
  {
    ValidStackDecomposes(st.redo);
    var top := StripBarriers(st.redo);
    RedoTakesTopUnit(st.undo, BelowRun(top), TopRun(top), st.redo[|st.redo| - 1].Barrier?);
  }

  lemma RedoReparsesOnce(st: State)
    requires Valid(st) && st.redo != []
    ensures var r := Redo(st);
      |r.calls| >= 2 && NoReparse(r.calls[..|r.calls| - 1]) && r.calls[|r.calls| - 1] == ReparseCall
  {
    ValidStackDecomposes(st.redo);
    var top := StripBarriers(st.redo);
    var unit := TopRun(top);
    RedoTakesTopUnit(st.undo, BelowRun(top), unit, st.redo[|st.redo| - 1].Barrier?);
    RedoCallsReplayForward(unit);
    assert Redo(st).calls[..|unit|] == RedoCalls(unit);
  }

  /** `done` appends a barrier exactly when the undo stack ends with a real edit, and calling it
    * twice is the same as calling it once; likewise `doneUndo` on the redo stack. */
  lemma DoneIdempotent(st: State)
    ensures Done(st).undo == (if st.undo != [] && st.undo[|st.undo| - 1].Real? then st.undo + [Barrier] else st.undo)
    ensures Done(Done(st)) == Done(st) && DoneUndo(DoneUndo(st)) == DoneUndo(st)
  {
    MarkDoneIdempotent(st.undo);
    MarkDoneIdempotent(st.redo);
  }

  /** An undo followed at once by a redo, when the redo stack was empty or closed: the undo stack
    * ends as the older history, then the unit in its original order, then one barrier; the redo
    * stack loses its top barrier; and `canUndo` and `canRedo` are as before the undo. */
  lemma UndoThenRedo(st: State)
    requires Valid(st) && st.undo != []
    requires st.redo == [] || st.redo[|st.redo| - 1].Barrier?
    ensures var u := Undo(st); Valid(u.next) && var r := Redo(u.next);
      var unit := TopRun(StripBarriers(st.undo));
      r.next.undo == u.next.undo + Reals(unit) + [Barrier] &&
      r.calls == RedoCalls(Reverse(unit)) + [ReparseCall] &&
      r.next.redo == (if st.redo == [] then [] else st.redo[..|st.redo| - 1]) &&
      r.next.undo != [] && (r.next.redo != [] <==> st.redo != [])
  {
    var unit := TopRun(StripBarriers(st.undo));
    var below := BelowRun(StripBarriers(st.undo));
    var rbelow := if st.redo == [] then [] else st.redo[..|st.redo| - 1];
    UndoOntoClosedRedo(st);
    var u := Undo(st);
    RedoTakesTopUnit(below, rbelow, Reverse(unit), true);
    ReverseInvolutive(unit);
    var r := Redo(u.next);
    assert r.next == State(below + Reals(unit) + [Barrier], rbelow);
    assert st.redo != [] ==> |st.redo| >= 2 by {
      if st.redo != [] { assert st.redo[0].Real?; }
    }
  }

  /** The undo half of `UndoThenRedo`: the redo stack it leaves is the old one closed over the
    * reversed unit. */
  lemma UndoOntoClosedRedo(st: State)
    requires Valid(st) && st.undo != []
    requires st.redo == [] || st.redo[|st.redo| - 1].Barrier?
    ensures var top := StripBarriers(st.undo);
      var rbelow := if st.redo == [] then [] else st.redo[..|st.redo| - 1];
      TopRun(top) != [] && OpenHistory(BelowRun(top)) && OpenHistory(rbelow) &&
      Undo(st).next == State(BelowRun(top), WithUnit(rbelow, Reverse(TopRun(top)), true))
  {
    ValidStackDecomposes(st.undo);
    var top := StripBarriers(st.undo);
    var unit := TopRun(top);
    var below := BelowRun(top);
    UndoTakesTopUnit(below, unit, st.undo[|st.undo| - 1].Barrier?, st.redo);
    ClosedStackShape(st.redo, Reverse(unit));
  }

  /** The host calls of an undo followed at once by a redo, when the redo stack was empty or
    * closed: both replay edits forward, the redo's being the undo's in reverse order, each one
    * inverted (insertion and deletion swapped, same offset and text). */
  lemma UndoThenRedoCalls(st: State)
    requires Valid(st) && st.undo != []
    requires st.redo == [] || st.redo[|st.redo| - 1].Barrier?
    ensures var u := Undo(st); Valid(u.next) && var r := Redo(u.next);
      var xs := InvertAll(Reverse(TopRun(StripBarriers(st.undo))));
      u.calls == ForwardCalls(xs) + [ReparseCall] &&
      r.calls == ForwardCalls(InvertAll(Reverse(xs))) + [ReparseCall]
  {
    UndoThenRedo(st);
    UndoRedoCallsMirror(TopRun(StripBarriers(st.undo)));
  }

  /** Where the undo-then-redo mirror fails: a redo that leaves older redo history behind leaves the
    * redo stack open, and `done` does not close it. Recording `a` and `b` as two units, undoing
    * both, redoing one and calling `done` reaches `State([Real(a), Barrier], [Real(b)])`
    * (`TwoUnitsUndoneOneRedone`). From there an undo takes back only `a`, yet the redo that follows
    * performs `a` and then `b`: the redo does more than the undo took back, so the pair does not
    * return the document to where it was (`UndoThenRedoAfterRedoDocument`). */
  lemma UndoThenRedoAfterRedo(a: Edit, b: Edit)
    ensures Valid(State([Real(a), Barrier], [Real(b)]))
    ensures Undo(State([Real(a), Barrier], [Real(b)])) ==
      Step(State([], [Real(b), Real(a), Barrier]), [InverseCall(a), ReparseCall])
    ensures Valid(State([], [Real(b), Real(a), Barrier]))
    ensures Redo(State([], [Real(b), Real(a), Barrier])) ==
      Step(State([Real(a), Real(b), Barrier], []), [ForwardCall(a), ForwardCall(b), ReparseCall])
  {
    UndoOneEdit(a, [Real(b)], true);
    RedoTwoEdits(b, a);
  }

  /** `UndoThenRedoAfterRedo` on a document: with `a` inserting "x" at 0 and `b` inserting "y" at 1,
    * the undo takes "x" to "", and the redo that follows takes "" to "xy", not back to "x". */
  lemma UndoThenRedoAfterRedoDocument()
    ensures var a := Edit(0, "x", true); var b := Edit(1, "y", true);
      var st := State([Real(a), Barrier], [Real(b)]);
      Valid(st) && ApplyEdits("", [a]) == Some("x") &&
      ApplyCalls("x", Undo(st).calls) == Some("") &&
      Valid(Undo(st).next) && ApplyCalls("", Redo(Undo(st).next).calls) == Some("xy")
  {
    var a := Edit(0, "x", true);
    var b := Edit(1, "y", true);
    UndoThenRedoAfterRedo(a, b);
    assert a.Length() == 1;
    assert InverseCall(a) == DeleteCall(0, 1, false);
    assert ForwardCall(a) == InsertCall(0, "x", 0, false);
    assert ForwardCall(b) == InsertCall(1, "y", 0, false);
    assert ApplyCall("x", InverseCall(a)) == Some("") by {
      assert "x"[..0] + "x"[1..] == "";
    }
    assert ApplyCall("", ForwardCall(a)) == Some("x") by {
      assert ""[..0] + "x" + ""[0..] == "x";
    }
    assert ApplyCall("x", ForwardCall(b)) == Some("xy") by {
      assert "x"[..1] + "y" + "x"[1..] == "xy";
    }
    var reparse: seq<HostCall> := [ReparseCall];
    assert ApplyCalls("", reparse) == Some("");
    assert ApplyCalls("xy", reparse) == Some("xy");
    assert [InverseCall(a), ReparseCall][1..] == reparse;
    assert ApplyCalls("x", [InverseCall(a), ReparseCall]) == Some("");
    var redo := [ForwardCall(a), ForwardCall(b), ReparseCall];
    assert redo[1..][1..] == reparse;
    assert ApplyCalls("x", redo[1..]) == Some("xy");
    assert ApplyCalls("", redo) == Some("xy");
  }

  /** Undo of a stack holding the single edit `a`, closed or not: the host takes back `a`. */
  lemma UndoOneEdit(a: Edit, redo: seq<Slot>, closed: bool)
    ensures var s := if closed then [Real(a), Barrier] else [Real(a)];
      WellFormed(s) && Undo(State(s, redo)) == Step(State([], redo + [Real(a), Barrier]), [InverseCall(a), ReparseCall])
  {
    assert Reals([a]) == [Real(a)];
    UndoSingle(if closed then [Real(a), Barrier] else [Real(a)], a, [], closed, redo);
  }

  /** Redo of an open redo stack holding `b` beneath `a` with no barrier between: both are performed,
    * `a` first. */
  lemma RedoTwoEdits(b: Edit, a: Edit)
    ensures WellFormed([Real(b), Real(a), Barrier])
    ensures Redo(State([], [Real(b), Real(a), Barrier])) ==
      Step(State([Real(a), Real(b), Barrier], []), [ForwardCall(a), ForwardCall(b), ReparseCall])
  {
    RedoTakesTopUnit([], [], [b, a], true);
    assert Reals([b, a]) == [Real(b), Real(a)];
    assert WithUnit([], [b, a], true) == [Real(b), Real(a), Barrier];
    assert Reverse([b, a]) == [a, b] && Reals([a, b]) == [Real(a), Real(b)];
    assert [] + Reals(Reverse([b, a])) + [Barrier] == [Real(a), Real(b), Barrier];
    assert [b, a][1..] == [a] && [a][1..] == [];
    assert RedoCalls([b, a]) == [ForwardCall(a), ForwardCall(b)];
  }

  /** The state `UndoThenRedoAfterRedo` starts from is reachable: `addEdit(a)`, `done`,
    * `addEdit(b)`, `done`, `undo`, `undo`, `redo`, `done`. */
  lemma TwoUnitsUndoneOneRedone(a: Edit, b: Edit)
    ensures Done(AddEdit(Done(AddEdit(Empty(), a)), b)) == State([Real(a), Barrier, Real(b), Barrier], [])
    ensures Valid(State([Real(a), Barrier, Real(b), Barrier], []))
    ensures Undo(State([Real(a), Barrier, Real(b), Barrier], [])).next == State([Real(a)], [Real(b), Barrier])
    ensures Valid(State([Real(a)], [Real(b), Barrier]))
    ensures Undo(State([Real(a)], [Real(b), Barrier])).next == State([], [Real(b), Barrier, Real(a), Barrier])
    ensures Valid(State([], [Real(b), Barrier, Real(a), Barrier]))
    ensures Redo(State([], [Real(b), Barrier, Real(a), Barrier])).next == State([Real(a), Barrier], [Real(b)])
    ensures Done(State([Real(a), Barrier], [Real(b)])) == State([Real(a), Barrier], [Real(b)])
  {
    UndoClosedOverHistory(a, b);
    UndoLastOfHistory(a, b);
    RedoClosedOverHistory(a, b);
  }

  /** Undo of `b` closed over the history `a`: the barrier between them is consumed. */
  lemma UndoClosedOverHistory(a: Edit, b: Edit)
    ensures Done(AddEdit(Done(AddEdit(Empty(), a)), b)) == State([Real(a), Barrier, Real(b), Barrier], [])
    ensures Valid(State([Real(a), Barrier, Real(b), Barrier], []))
    ensures Undo(State([Real(a), Barrier, Real(b), Barrier], [])).next == State([Real(a)], [Real(b), Barrier])
  {
    assert Reals([b]) == [Real(b)];
    UndoSingle([Real(a), Barrier, Real(b), Barrier], b, [Real(a)], true, []);
    assert [] + [Real(b), Barrier] == [Real(b), Barrier];
    assert PeekOrNull([Real(a)]) == Real(a);
    assert PeekOrNull([Real(a), Barrier, Real(b)]) == Real(b);
  }

  /** Undo of a unit holding the single edit `e` over the history `below`: the host takes back `e`. */
  lemma UndoSingle(s: seq<Slot>, e: Edit, below: seq<Slot>, closed: bool, redo: seq<Slot>)
    requires OpenHistory(below) && s == WithUnit(below, [e], closed)
    ensures WellFormed(s) &&
      Undo(State(s, redo)) == Step(State(below, redo + [Real(e), Barrier]), [InverseCall(e), ReparseCall])
  {
    UndoSingleNext(s, e, below, closed, redo);
    UndoSingleCalls(s, e, below, closed, redo);
  }

  lemma UndoSingleNext(s: seq<Slot>, e: Edit, below: seq<Slot>, closed: bool, redo: seq<Slot>)
    requires OpenHistory(below) && s == WithUnit(below, [e], closed)
    ensures WellFormed(s) && Undo(State(s, redo)).next == State(below, redo + [Real(e), Barrier])
  {
    assert Reverse([e]) == [e];
    assert Reals([e]) == [Real(e)];
    AppendTwo(redo, Real(e), Barrier);
    if closed {
      UndoTakesTopUnit(below, [e], true, redo);
    } else {
      UndoTakesTopUnit(below, [e], false, redo);
    }
  }

  lemma UndoSingleCalls(s: seq<Slot>, e: Edit, below: seq<Slot>, closed: bool, redo: seq<Slot>)
    requires OpenHistory(below) && s == WithUnit(below, [e], closed)
    ensures WellFormed(s) && Undo(State(s, redo)).calls == [InverseCall(e), ReparseCall]
  {
    assert [e][1..] == [];
    assert UndoCalls([e]) == [InverseCall(e)];
    if closed {
      UndoTakesTopUnit(below, [e], true, redo);
    } else {
      UndoTakesTopUnit(below, [e], false, redo);
    }
  }

  /** Undo of the last edit `a` once `b` lies closed on the redo stack. */
  lemma UndoLastOfHistory(a: Edit, b: Edit)
    ensures Valid(State([Real(a)], [Real(b), Barrier]))
    ensures Undo(State([Real(a)], [Real(b), Barrier])).next == State([], [Real(b), Barrier, Real(a), Barrier])
  {
    UndoOneEdit(a, [Real(b), Barrier], false);
    assert [Real(b), Barrier] + [Real(a), Barrier] == [Real(b), Barrier, Real(a), Barrier];
    assert WellFormed([Real(b), Barrier]);
  }

  /** Redo of `a` closed over the redo history `b`: the barrier between them is consumed. */
  lemma RedoClosedOverHistory(a: Edit, b: Edit)
    ensures Valid(State([], [Real(b), Barrier, Real(a), Barrier]))
    ensures Redo(State([], [Real(b), Barrier, Real(a), Barrier])).next == State([Real(a), Barrier], [Real(b)])
    ensures Done(State([Real(a), Barrier], [Real(b)])) == State([Real(a), Barrier], [Real(b)])
  {
    assert Reals([a]) == [Real(a)];
    RedoOneOverHistory([Real(b), Barrier, Real(a), Barrier], a, [Real(b)]);
    assert PeekOrNull([Real(a), Barrier]) == Barrier;
  }

  /** Redo of a closed unit holding the single edit `a` over the history `below`. */
  lemma RedoOneOverHistory(s: seq<Slot>, a: Edit, below: seq<Slot>)
    requires OpenHistory(below) && s == WithUnit(below, [a], true)
    ensures WellFormed(s) && Redo(State([], s)).next == State([Real(a), Barrier], below)
  {
    RedoTakesTopUnit([], below, [a], true);
    assert Reverse([a]) == [a];
    assert Reals([a]) == [Real(a)];
    assert [] + [Real(a)] + [Barrier] == [Real(a), Barrier];
  }

  /** A closed stack (empty, or ending with a barrier) with a unit pushed on top and closed. */
  lemma ClosedStackShape(s: seq<Slot>, es: seq<Edit>)
    requires WellFormed(s) && (s == [] || s[|s| - 1].Barrier?) && es != []
    ensures var below := if s == [] then [] else s[..|s| - 1];
      OpenHistory(below) && s + Reals(es) + [Barrier] == WithUnit(below, es, true)
  {
    if s != [] {
      var below := s[..|s| - 1];
      PrefixWellFormed(s, |s| - 1);
      assert s[|s| - 2].Real?;
      assert s == below + [Barrier];
    }
  }

  /** The calls of an undo of `unit` and of a redo of the same unit: each replays edits forward,
    * the redo's edits being the undo's in reverse order, each inverted. */
  lemma UndoRedoCallsMirror(unit: seq<Edit>)
    ensures var xs := InvertAll(Reverse(unit));
      UndoCalls(unit) == ForwardCalls(xs) && RedoCalls(Reverse(unit)) == ForwardCalls(InvertAll(Reverse(xs)))
  {
    UndoCallsReplayInverses(unit);
    RedoCallsReplayForward(Reverse(unit));
    ReverseInvolutive(unit);
    InvertAllReverse(Reverse(unit));
    InvertAllInvolutive(unit);
  }

  /** Document round trip: if the top unit was recorded from `d0` to `d1`, the calls `undo`
    * issues take `d1` back to `d0`, and the calls of the `redo` that follows take `d0` to `d1`. */
  lemma UndoRedoRestoresDocument(st: State, d0: string, d1: string)
    requires Valid(st) && st.undo != []
    requires st.redo == [] || st.redo[|st.redo| - 1].Barrier?
    requires ApplyEdits(d0, TopRun(StripBarriers(st.undo))) == Some(d1)
    ensures ApplyCalls(d1, Undo(st).calls) == Some(d0)
    ensures Valid(Undo(st).next) && ApplyCalls(d0, Redo(Undo(st).next).calls) == Some(d1)
  {
    var unit := TopRun(StripBarriers(st.undo));
    UndoThenRedo(st);
    UnitRoundTrip(d0, unit, d1);
  }

  /** Because the drain loop consumes the barrier beneath a unit, a stack that has just been
    * drained ends with a real edit whenever it is not empty: the next unit pushed onto it joins
    * the one below. */
  lemma DrainLeavesOpenTop(st: State)
    requires Valid(st)
    ensures st.undo != [] ==> OpenHistory(Undo(st).next.undo)
    ensures st.redo != [] ==> OpenHistory(Redo(st).next.redo)
  {
    if st.undo != [] {
      ValidStackDecomposes(st.undo);
    }
    if st.redo != [] {
      ValidStackDecomposes(st.redo);
    }
  }

  /** A redo of a unit that has older redo history beneath it, followed at once by an undo, leaves
    * on the redo stack one unit made of that older history's top unit followed by the redone
    * edits, where there were two units before. */
  lemma UndoAfterRedoMergesUnits(st: State)
    requires Valid(st) && st.redo != []
    requires st.undo == [] || st.undo[|st.undo| - 1].Barrier?
    requires BelowRun(StripBarriers(st.redo)) != []
    ensures var top := StripBarriers(st.redo);
      TopRun(BelowRun(top)) != [] && Valid(Redo(st).next) &&
      TopRun(StripBarriers(Undo(Redo(st).next).next.redo)) == TopRun(BelowRun(top)) + TopRun(top)
  {
    ValidStackDecomposes(st.redo);
    var top := StripBarriers(st.redo);
    RedoThenUndo(st);
    TopRunOfClosedPush(BelowRun(top), TopRun(top));
    assert BelowRun(top)[|BelowRun(top)| - 1].Real?;
  }

  /** A redo followed at once by an undo, when the undo stack was empty or closed, puts the same
    * unit back on the redo stack, but directly on the older redo history: the barrier that
    * separated them is gone. */
  lemma RedoThenUndo(st: State)
    requires Valid(st) && st.redo != []
    requires st.undo == [] || st.undo[|st.undo| - 1].Barrier?
    ensures var top := StripBarriers(st.redo);
      Valid(Redo(st).next) && Undo(Redo(st).next).next.redo == BelowRun(top) + Reals(TopRun(top)) + [Barrier]
  {
    var top := StripBarriers(st.redo);
    var unit := TopRun(top);
    var ubelow := if st.undo == [] then [] else st.undo[..|st.undo| - 1];
    RedoOntoClosed(st);
    UndoTakesTopUnit(ubelow, Reverse(unit), true, BelowRun(top));
    ReverseInvolutive(unit);
  }

  /** A redo onto a closed undo stack leaves the moved unit, reversed, as a closed unit on top. */
  lemma RedoOntoClosed(st: State)
    requires Valid(st) && st.redo != []
    requires st.undo == [] || st.undo[|st.undo| - 1].Barrier?
    ensures var top := StripBarriers(st.redo);
      var ubelow := if st.undo == [] then [] else st.undo[..|st.undo| - 1];
      OpenHistory(ubelow) && OpenHistory(BelowRun(top)) && Reverse(TopRun(top)) != [] &&
      Redo(st).next == State(WithUnit(ubelow, Reverse(TopRun(top)), true), BelowRun(top))
  {
    ValidStackDecomposes(st.redo);
    var top := StripBarriers(st.redo);
    var unit := TopRun(top);
    var rbelow := BelowRun(top);
    RedoTakesTopUnit(st.undo, rbelow, unit, st.redo[|st.redo| - 1].Barrier?);
    ClosedStackShape(st.undo, Reverse(unit));
  }

  /** The top unit of a stack after a unit is pushed and closed. */
  lemma TopRunOfClosedPush(s: seq<Slot>, es: seq<Edit>)
    requires es != []
    ensures TopRun(StripBarriers(s + Reals(es) + [Barrier])) == TopRun(s) + es
  {
    var open := s + Reals(es);
    assert open[|open| - 1].Real?;
    assert StripBarriers(open + [Barrier]) == open by {
      assert (open + [Barrier])[..|open|] == open;
    }
    TopRunOfAppended(s, es);
  }
}
