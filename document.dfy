/** What the host calls do to a document held as a character sequence. An offset or length outside
  * the document makes the call fail (the host would throw); the engine does not catch that. */
module Document {
  import opened Edits
  import opened Host

  datatype Option<T> = None | Some(value: T)

  /** The document after one host call. */
  function ApplyCall(d: string, c: HostCall): (r: Option<string>)
    ensures c.ReparseCall? ==> r == Some(d)
  {
    match c
    case InsertCall(o, t, _, _) =>
      if 0 <= o <= |d| then Some(d[..o] + t + d[o..]) else None
    case DeleteCall(o, n, _) =>
      if 0 <= o && 0 <= n && o + n <= |d| then Some(d[..o] + d[o + n..]) else None
    case ReparseCall => Some(d)
  }

  /** The document after a trace of host calls, in order; `None` once a call fails. */
  function ApplyCalls(d: string, cs: seq<HostCall>): Option<string>
    decreases |cs|
  {
    if cs == [] then Some(d)
    else match ApplyCall(d, cs[0])
      case None => None
      case Some(d') => ApplyCalls(d', cs[1..])
  }

  /** An edit as it was recorded against the document `d`: an insertion at a position inside the
    * document, or a deletion of exactly the text found at its offset. */
  function ApplyEdit(d: string, e: Edit): (r: Option<string>)
  {
    if e.isInsert then
      if 0 <= e.offset <= |d| then Some(d[..e.offset] + e.text + d[e.offset..]) else None
    else if 0 <= e.offset && e.offset + |e.text| <= |d| && d[e.offset..e.offset + |e.text|] == e.text then
      Some(d[..e.offset] + d[e.offset + |e.text|..])
    else None
  }

  /** A unit of edits recorded one after another, starting from `d`. */
  function ApplyEdits(d: string, es: seq<Edit>): Option<string>
    decreases |es|
  {
    if es == [] then Some(d)
    else match ApplyEdit(d, es[0])
      case None => None
      case Some(d') => ApplyEdits(d', es[1..])
  }

  lemma {:induction false} ApplyCallsAppend(d: string, a: seq<HostCall>, b: seq<HostCall>)
    ensures ApplyCalls(d, a + b) ==
      match ApplyCalls(d, a)
      case None => None
      case Some(d') => ApplyCalls(d', b)
    decreases |a|
  {
    if a != [] {
      assert (a + b)[1..] == a[1..] + b;
      match ApplyCall(d, a[0])
      case None =>
      case Some(d') => ApplyCallsAppend(d', a[1..], b);
    } else {
      assert a + b == b;
    }
  }

  lemma {:induction false} ApplyEditsAppend(d: string, a: seq<Edit>, b: seq<Edit>)
    ensures ApplyEdits(d, a + b) ==
      match ApplyEdits(d, a)
      case None => None
      case Some(d') => ApplyEdits(d', b)
    decreases |a|
  {
    if a != [] {
      assert (a + b)[1..] == a[1..] + b;
      match ApplyEdit(d, a[0])
      case None =>
      case Some(d') => ApplyEditsAppend(d', a[1..], b);
    } else {
      assert a + b == b;
    }
  }

  /** A recorded edit has the same effect as the host call `redo` issues for it. */
  lemma ForwardCallPerformsEdit(d: string, e: Edit)
    requires ApplyEdit(d, e).Some?
    ensures ApplyCall(d, ForwardCall(e)) == ApplyEdit(d, e)
  {
  }

  /** Performing the inverse of a recorded edit restores the document it was recorded against. */
  lemma InvertUndoesEdit(d: string, e: Edit)
    requires ApplyEdit(d, e).Some?
    ensures ApplyEdit(ApplyEdit(d, e).value, e.Invert()) == Some(d)
  {
    var o, t := e.offset, e.text;
    var d1 := ApplyEdit(d, e).value;
    if e.isInsert {
      assert d1[..o] == d[..o] && d1[o..o + |t|] == t && d1[o + |t|..] == d[o..];
      assert d1[..o] + d1[o + |t|..] == d;
    } else {
      assert d1[..o] == d[..o] && d1[o..] == d[o + |t|..];
      assert d1[..o] + t + d1[o..] == d;
    }
  }

  lemma {:induction false} ForwardCallsPerformEdits(d: string, es: seq<Edit>)
    requires ApplyEdits(d, es).Some?
    ensures ApplyCalls(d, ForwardCalls(es)) == ApplyEdits(d, es)
    decreases |es|
  {
    if es != [] {
      ForwardCallPerformsEdit(d, es[0]);
      assert ForwardCalls(es)[1..] == ForwardCalls(es[1..]);
      ForwardCallsPerformEdits(ApplyEdit(d, es[0]).value, es[1..]);
    }
  }

  /** Performing the inverses of a unit's edits, most recent first, restores the document the unit
    * was recorded against. */
  lemma {:induction false} InvertedUnitRestores(d: string, es: seq<Edit>)
    requires ApplyEdits(d, es).Some?
    ensures ApplyEdits(ApplyEdits(d, es).value, InvertAll(Reverse(es))) == Some(d)
    decreases |es|
  {
    if es != [] {
      var d1 := ApplyEdit(d, es[0]).value;
      var tail := es[1..];
      InvertedUnitRestores(d1, tail);
      InvertUndoesEdit(d, es[0]);
      assert InvertAll(Reverse(es)) == InvertAll(Reverse(tail)) + [es[0].Invert()];
      ApplyEditsAppend(ApplyEdits(d1, tail).value, InvertAll(Reverse(tail)), [es[0].Invert()]);
      assert ApplyEdits(d1, [es[0].Invert()]) == ApplyEdit(d1, es[0].Invert());
    }
  }

  /** The calls `undo` issues for a unit recorded from `d0` to `d1` take `d1` back to `d0`, and the
    * calls a following `redo` issues take `d0` to `d1` again. */
  lemma UnitRoundTrip(d0: string, unit: seq<Edit>, d1: string)
    requires ApplyEdits(d0, unit) == Some(d1)
    ensures ApplyCalls(d1, UndoCalls(unit) + [ReparseCall]) == Some(d0)
    ensures ApplyCalls(d0, RedoCalls(Reverse(unit)) + [ReparseCall]) == Some(d1)
  {
    InvertedUnitRestores(d0, unit);
    UndoCallsReplayInverses(unit);
    ForwardCallsPerformEdits(d1, InvertAll(Reverse(unit)));
    ApplyCallsAppend(d1, UndoCalls(unit), [ReparseCall]);
    RedoCallsReplayForward(Reverse(unit));
    ReverseInvolutive(unit);
    ForwardCallsPerformEdits(d0, unit);
    ApplyCallsAppend(d0, RedoCalls(Reverse(unit)), [ReparseCall]);
  }
}
