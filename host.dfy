/** The document host the undo engine replays edits against (`DevKtDocumentHandler`, which is not
  * part of this model): each call it receives is recorded in a trace. */
module Host {
  import opened Edits

  /** One call into the host: `insertDirectly`, `deleteDirectly` or `reparse`. */
  datatype HostCall =
    | InsertCall(offset: int, text: string, move: int, reparse: bool)
    | DeleteCall(offset: int, length: int, reparse: bool)
    | ReparseCall

  /** A host that records every call it receives, in order. */
  class DocumentHandler {
    var trace: seq<HostCall>

    constructor ()
      ensures trace == []
    {
      trace := [];
    }

    method InsertDirectly(offset: int, text: string, move: int, reparse: bool)
      modifies this
      ensures trace == old(trace) + [InsertCall(offset, text, move, reparse)]
    {
      trace := trace + [InsertCall(offset, text, move, reparse)];
    }

    method DeleteDirectly(offset: int, length: int, reparse: bool)
      modifies this
      ensures trace == old(trace) + [DeleteCall(offset, length, reparse)]
    {
      trace := trace + [DeleteCall(offset, length, reparse)];
    }

    method Reparse()
      modifies this
      ensures trace == old(trace) + [ReparseCall]
    {
      trace := trace + [ReparseCall];
    }
  }

  /** The call `redo` issues for an edit: perform it again, without reparsing. */
  function ForwardCall(e: Edit): (c: HostCall)
    ensures !c.ReparseCall? && !c.reparse && c.offset == e.offset
    ensures c.InsertCall? <==> e.isInsert
  {
    if e.isInsert then InsertCall(e.offset, e.text, 0, false) else DeleteCall(e.offset, e.Length(), false)
  }

  /** The call `undo` issues for an edit: take it back, without reparsing. */
  function InverseCall(e: Edit): (c: HostCall)
    ensures !c.ReparseCall? && !c.reparse && c.offset == e.offset
    ensures c.InsertCall? <==> !e.isInsert
  {
    if e.isInsert then DeleteCall(e.offset, e.Length(), false) else InsertCall(e.offset, e.text, 0, false)
  }

  /** Taking an edit back is performing its inverse; performing it is taking back its inverse. */
  lemma InverseCallIsForwardOfInvert(e: Edit)
    ensures InverseCall(e) == ForwardCall(e.Invert())
    ensures ForwardCall(e) == InverseCall(e.Invert())
  {
  }

  /** Calls that never ask the host to reparse. */
  predicate NoReparse(cs: seq<HostCall>)
  {
    forall i :: 0 <= i < |cs| ==> !cs[i].ReparseCall? && !cs[i].reparse
  }

  /** The forward calls of `es`, in the order of `es`. */
  function ForwardCalls(es: seq<Edit>): (cs: seq<HostCall>)
    ensures |cs| == |es|
    ensures forall i :: 0 <= i < |es| ==> cs[i] == ForwardCall(es[i])
    ensures NoReparse(cs)
  {
    if es == [] then [] else [ForwardCall(es[0])] + ForwardCalls(es[1..])
  }

  /** The calls `undo` issues while it pops the unit `es` (listed bottom to top): the most recent
    * edit is taken back first. */
  function UndoCalls(es: seq<Edit>): (cs: seq<HostCall>)
    ensures |cs| == |es| && NoReparse(cs)
  {
    if es == [] then [] else UndoCalls(es[1..]) + [InverseCall(es[0])]
  }

  /** The calls `redo` issues while it pops the unit `es` (listed bottom to top of the redo stack). */
  function RedoCalls(es: seq<Edit>): (cs: seq<HostCall>)
    ensures |cs| == |es| && NoReparse(cs)
  {
    if es == [] then [] else RedoCalls(es[1..]) + [ForwardCall(es[0])]
  }

  lemma {:induction false} ForwardCallsAppend(a: seq<Edit>, b: seq<Edit>)
    ensures ForwardCalls(a + b) == ForwardCalls(a) + ForwardCalls(b)
  {
  }

  /** Undo replays, from the top of the unit down, the inverse of each edit. */
  lemma {:induction false} UndoCallsReplayInverses(es: seq<Edit>)
    ensures UndoCalls(es) == ForwardCalls(InvertAll(Reverse(es)))
  {
    if es != [] {
      UndoCallsReplayInverses(es[1..]);
      InverseCallIsForwardOfInvert(es[0]);
      var xs := InvertAll(Reverse(es[1..]));
      InvertAllReverseStep(es);
      ForwardCallsAppend(xs, [es[0].Invert()]);
    }
  }

  /** The i-th call of an undo takes back the i-th most recent edit of the unit. */
  lemma UndoCallsOrder(es: seq<Edit>)
    ensures |UndoCalls(es)| == |es|
    ensures forall i :: 0 <= i < |es| ==> UndoCalls(es)[i] == InverseCall(es[|es| - 1 - i])
  {
    UndoCallsReplayInverses(es);
    forall i | 0 <= i < |es|
      ensures UndoCalls(es)[i] == InverseCall(es[|es| - 1 - i])
    {
      InverseCallIsForwardOfInvert(es[|es| - 1 - i]);
    }
  }

  /** Redo replays, from the top of the unit down, each edit forward. */
  lemma {:induction false} RedoCallsReplayForward(es: seq<Edit>)
    ensures RedoCalls(es) == ForwardCalls(Reverse(es))
  {
    if es != [] {
      RedoCallsReplayForward(es[1..]);
      ForwardCallsAppend(Reverse(es[1..]), [es[0]]);
    }
  }
}
