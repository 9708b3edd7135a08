/** History stacks of the undo engine: a stack of slots, each a real edit or a barrier
  * that closes one undoable unit. The top of a stack is the end of the sequence. */
module Stacks {
  import opened Edits

  /** A stack slot; the source stores `null` for a barrier. */
  datatype Slot = Barrier | Real(edit: Edit)

  /** `peekOrNull`: the top slot, or a barrier when the stack is empty. */
  function PeekOrNull(s: seq<Slot>): (r: Slot)
    ensures r.Real? <==> s != [] && s[|s| - 1].Real?
    ensures r.Real? ==> r == s[|s| - 1]
  {
    if s == [] then Barrier else s[|s| - 1]
  }

  /** `popOrNull`: the top slot and the stack below it; an empty stack gives a barrier and stays empty. */
  function PopOrNull(s: seq<Slot>): (r: (Slot, seq<Slot>))
    ensures s == [] ==> r == (Barrier, [])
    ensures s != [] ==> s == r.1 + [r.0]
  {
    if s == [] then (Barrier, []) else (s[|s| - 1], s[..|s| - 1])
  }

  /** Popping what was just pushed gives back the slot and the old stack. */
  lemma PopOrNullAfterPush(s: seq<Slot>, x: Slot)
    ensures PopOrNull(s + [x]) == (x, s)
  {
    assert (s + [x])[..|s|] == s;
  }

  /** One pop of the drain loop: a real edit is popped off the stack, or else the top unit is
    * exhausted and what remains is what the drain loop leaves. */
  lemma PopOrNullDrains(s: seq<Slot>)
    ensures var p := PopOrNull(s);
      (p.0.Real? ==> p.1 + [p.0] == s) && (!p.0.Real? ==> TopRun(s) == [] && p.1 == BelowRun(s))
  {
  }

  /** The drain loop's invariant: `s` is the stack after the last pop, `slot` is what that pop
    * returned and `moved` the edits popped before it (oldest first). While `slot` is a real edit,
    * pushing it back and adding `moved` gives the top unit of `top`; once a barrier was returned,
    * all of the unit has been moved and `s` is what the drain leaves. */
  ghost predicate Draining(top: seq<Slot>, moved: seq<Edit>, slot: Slot, s: seq<Slot>)
  {
    (slot.Real? ==> TopRun(s + [slot]) + moved == TopRun(top) && BelowRun(s + [slot]) == BelowRun(top)) &&
    (!slot.Real? ==> moved == TopRun(top) && s == BelowRun(top))
  }

  /** The first pop of the drain loop establishes its invariant. */
  lemma DrainStart(top: seq<Slot>)
    ensures Draining(top, [], PopOrNull(top).0, PopOrNull(top).1)
  {
    PopOrNullDrains(top);
  }

  /** A turn of the drain loop keeps its invariant, and the loop makes progress. */
  lemma DrainTurn(top: seq<Slot>, moved: seq<Edit>, slot: Slot, s: seq<Slot>)
    requires Draining(top, moved, slot, s) && slot.Real?
    ensures Draining(top, [slot.edit] + moved, PopOrNull(s).0, PopOrNull(s).1)
    ensures |PopOrNull(s).1| + (if PopOrNull(s).0.Real? then 1 else 0) <= |s|
  {
    PopOrNullDrains(s);
    assert (s + [slot])[..|s|] == s;
  }

  /** The stack invariant: no barrier at the bottom and never two barriers in a row. */
  predicate WellFormed(s: seq<Slot>)
  {
    (s != [] ==> s[0].Real?) &&
    forall i :: 0 <= i < |s| - 1 ==> s[i].Real? || s[i + 1].Real?
  }

  /** Edits as slots, in the same order. */
  function Reals(es: seq<Edit>): (r: seq<Slot>)
    ensures |r| == |es|
    ensures forall i :: 0 <= i < |es| ==> r[i] == Real(es[i])
  {
    seq(|es|, i requires 0 <= i < |es| => Real(es[i]))
  }

  /** Edits pushed one by one from the last to the first (the drain's pop order), read bottom to
    * top: `es` reversed. */
  function Pushed(es: seq<Edit>): (r: seq<Slot>)
  {
    if es == [] then [] else Pushed(es[1..]) + [Real(es[0])]
  }

  lemma {:induction false} PushedIsReversed(es: seq<Edit>)
    ensures Pushed(es) == Reals(Reverse(es))
  {
    if es != [] {
      PushedIsReversed(es[1..]);
    }
  }

  /** `done`/`doneUndo`: close the top unit with a barrier when the top slot is a real edit. */
  function MarkDone(s: seq<Slot>): (r: seq<Slot>)
    ensures r == s || r == s + [Barrier]
    ensures r == [] || r[|r| - 1].Barrier?
  {
    if PeekOrNull(s).Real? then s + [Barrier] else s
  }

  /** The leading-barrier loop (`while (null == peek()) pop()`). */
  function StripBarriers(s: seq<Slot>): (r: seq<Slot>)
    ensures |r| <= |s| && r == s[..|r|]
    ensures r != [] ==> r[|r| - 1].Real?
  {
    if s != [] && s[|s| - 1].Barrier? then StripBarriers(s[..|s| - 1]) else s
  }

  /** The unit at the top of the stack: the real edits above the highest barrier, bottom to top. */
  function TopRun(s: seq<Slot>): (r: seq<Edit>)
    ensures |r| <= |s|
    ensures |r| < |s| ==> s[|s| - |r| - 1].Barrier?
  {
    if s == [] || s[|s| - 1].Barrier? then [] else TopRun(s[..|s| - 1]) + [s[|s| - 1].edit]
  }

  /** What the drain loop leaves: it pops real edits and then pops the barrier that stops it. */
  function BelowRun(s: seq<Slot>): (r: seq<Slot>)
    ensures s != [] ==> |r| < |s|
  {
    if s == [] then []
    else if s[|s| - 1].Barrier? then s[..|s| - 1]
    else BelowRun(s[..|s| - 1])
  }

  /** `MarkDone` adds a barrier exactly when the stack ends with a real edit, and changes nothing else. */
  lemma MarkDoneShape(s: seq<Slot>)
    ensures s != [] && s[|s| - 1].Real? ==> MarkDone(s) == s + [Barrier]
    ensures s == [] || s[|s| - 1].Barrier? ==> MarkDone(s) == s
  {
  }

  /** Closing a unit twice is the same as closing it once. */
  lemma MarkDoneIdempotent(s: seq<Slot>)
    ensures MarkDone(MarkDone(s)) == MarkDone(s)
  {
  }

  lemma {:induction false} MarkDoneWellFormed(s: seq<Slot>)
    requires WellFormed(s)
    ensures WellFormed(MarkDone(s))
  {
  }

  /** Any prefix of a well-formed stack is well-formed. */
  lemma PrefixWellFormed(s: seq<Slot>, n: nat)
    requires WellFormed(s) && n <= |s|
    ensures WellFormed(s[..n])
  {
    var t := s[..n];
    forall i | 0 <= i < |t| - 1
      ensures t[i].Real? || t[i + 1].Real?
    {
      assert t[i] == s[i] && t[i + 1] == s[i + 1];
    }
  }

  /** Pushing real edits keeps a stack well-formed. */
  lemma AppendRealsWellFormed(s: seq<Slot>, es: seq<Edit>)
    requires WellFormed(s)
    ensures WellFormed(s + Reals(es))
  {
    var t := s + Reals(es);
    forall i | 0 <= i < |t| - 1
      ensures t[i].Real? || t[i + 1].Real?
    {
      if i + 1 < |s| {
        assert t[i] == s[i] && t[i + 1] == s[i + 1];
      } else {
        assert t[i + 1] == Reals(es)[i + 1 - |s|];
      }
    }
  }

  /** On a well-formed non-empty stack the leading-barrier loop pops at most one barrier, never
    * reaches the empty stack, and leaves a real edit on top. */
  lemma {:induction false} StripPopsAtMostOne(s: seq<Slot>)
    requires WellFormed(s) && s != []
    ensures s[|s| - 1].Barrier? ==> |s| >= 2 && StripBarriers(s) == s[..|s| - 1]
    ensures s[|s| - 1].Real? ==> StripBarriers(s) == s
    ensures StripBarriers(s) != [] && StripBarriers(s)[|StripBarriers(s)| - 1].Real?
  {
    if s[|s| - 1].Barrier? {
      assert s[|s| - 2].Real?;
      var p := s[..|s| - 1];
      assert p[|p| - 1].Real?;
    }
  }

  /** The stack splits into what lies below, the barrier the drain loop consumes (if any) and the
    * top unit; without a barrier the whole stack is the unit. */
  lemma {:induction false} TopRunSplit(s: seq<Slot>)
    ensures s == BelowRun(s) + [Barrier] + Reals(TopRun(s)) || (BelowRun(s) == [] && s == Reals(TopRun(s)))
  {
    if s != [] && s[|s| - 1].Real? {
      var p := s[..|s| - 1];
      TopRunSplit(p);
      assert Reals(TopRun(s)) == Reals(TopRun(p)) + [s[|s| - 1]];
      assert s == p + [s[|s| - 1]];
    }
  }

  /** What the drain loop leaves is a prefix of the stack. */
  lemma {:induction false} BelowRunPrefix(s: seq<Slot>)
    ensures |BelowRun(s)| <= |s| && BelowRun(s) == s[..|BelowRun(s)|]
  {
    if s != [] && s[|s| - 1].Real? {
      BelowRunPrefix(s[..|s| - 1]);
    }
  }

  lemma BelowRunWellFormed(s: seq<Slot>)
    requires WellFormed(s)
    ensures WellFormed(BelowRun(s))
  {
    BelowRunPrefix(s);
    PrefixWellFormed(s, |BelowRun(s)|);
  }

  /** Pushed edits join the top unit of the stack beneath them (which is empty when that stack is
    * empty or ends with a barrier); what the drain loop would leave stays the same. */
  lemma {:induction false} TopRunOfAppended(s: seq<Slot>, es: seq<Edit>)
    ensures TopRun(s + Reals(es)) == TopRun(s) + es
    ensures BelowRun(s + Reals(es)) == BelowRun(s)
  {
    if es != [] {
      var init := es[..|es| - 1];
      TopRunOfAppended(s, init);
      var t := s + Reals(es);
      assert t[..|t| - 1] == s + Reals(init);
      assert t[|t| - 1] == Real(es[|es| - 1]);
      assert TopRun(t) == TopRun(s + Reals(init)) + [es[|es| - 1]];
      assert es == init + [es[|es| - 1]];
    } else {
      assert s + Reals(es) == s;
    }
  }
}
