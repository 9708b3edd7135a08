/** Edit records of the DevKt editor's undo engine (common/src/org/ice1000/devkt/ui/undo.kt). */
module Edits {

  /** One recorded text change: `text` was inserted (or deleted) at `offset`. */
  datatype Edit = Edit(offset: int, text: string, isInsert: bool)
  {
    /** The opposite change: same place and text, insertion and deletion swapped. */
    function Invert(): (r: Edit)
      ensures r.offset == offset && r.text == text
      ensures r.isInsert == !isInsert
    {
      Edit(offset, text, !isInsert)
    }

    /** Number of characters the change inserts or removes. */
    function Length(): (n: nat)
      ensures n == |text|
    {
      |text|
    }
  }

  /** Inverting twice gives back an equal edit, and inverting never gives the same edit. */
  lemma InvertInvolutive(e: Edit)
    ensures e.Invert().Invert() == e
    ensures e.Invert() != e
    ensures e.Invert().Length() == e.Length()
  {
  }

  /** Every edit of `es` inverted, in the same order. */
  function InvertAll(es: seq<Edit>): (r: seq<Edit>)
    ensures |r| == |es|
    ensures forall i :: 0 <= i < |es| ==> r[i] == es[i].Invert()
  {
    if es == [] then [] else [es[0].Invert()] + InvertAll(es[1..])
  }

  /** The same elements in the opposite order. */
  function Reverse<T>(s: seq<T>): (r: seq<T>)
    ensures |r| == |s|
    ensures forall i :: 0 <= i < |s| ==> r[i] == s[|s| - 1 - i]
  {
    if s == [] then [] else Reverse(s[1..]) + [s[0]]
  }

  /** Appending two elements one at a time is appending the pair. */
  lemma AppendTwo<T>(s: seq<T>, x: T, y: T)
    ensures s + [x] + [y] == s + [x, y]
  {
    assert [x] + [y] == [x, y];
  }

  lemma ReverseInvolutive<T>(s: seq<T>)
    ensures Reverse(Reverse(s)) == s
  {
    assert Reverse(Reverse(s))[..] == s[..];
  }

  lemma InvertAllReverse(es: seq<Edit>)
    ensures InvertAll(Reverse(es)) == Reverse(InvertAll(es))
  {
  }

  /** Peeling the oldest edit off a unit: its inverse comes last once the unit is reversed. */
  lemma InvertAllReverseStep(es: seq<Edit>)
    requires es != []
    ensures InvertAll(Reverse(es)) == InvertAll(Reverse(es[1..])) + [es[0].Invert()]
  {
    assert Reverse(es) == Reverse(es[1..]) + [es[0]];
    InvertAllSnoc(Reverse(es[1..]), es[0]);
  }

  lemma {:induction false} InvertAllSnoc(es: seq<Edit>, e: Edit)
    ensures InvertAll(es + [e]) == InvertAll(es) + [e.Invert()]
  {
    if es != [] {
      assert (es + [e])[1..] == es[1..] + [e];
      InvertAllSnoc(es[1..], e);
    }
  }

  lemma InvertAllInvolutive(es: seq<Edit>)
    ensures InvertAll(InvertAll(es)) == es
  {
  }
}
