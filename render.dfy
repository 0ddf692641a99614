/** The render derivation of the deck: which items are drawn, which one is
    interactive and how the others are stacked, computed afresh from the
    item list, the current index and the gesture offset. */
module Render {
  import opened Swipe

  /** One entry of the list the deck renders: an already dismissed item (the
      JavaScript `null`), the active card, which carries the pan handlers and
      is drawn at the gesture offset, or a queued card pushed down by `top`. */
  datatype Slot<T> = Hidden | Active(item: T, offset: Point) | Queued(item: T, top: int)

  /** Either the "no more cards" output or the list of slots. */
  datatype Rendered<T> = NoMoreCards | Cards(slots: seq<Slot<T>>)

  /** Vertical distance between two successive queued cards. */
  const StackStep: int := 10

  function Reverse<T>(s: seq<T>): (r: seq<T>)
    ensures |r| == |s|
    ensures s != [] ==> r[0] == s[|s| - 1] && r[|r| - 1] == s[0]
  {
    if s == [] then [] else Reverse(s[1..]) + [s[0]]
  }

  lemma {:induction false} ReverseAt<T>(s: seq<T>, k: nat)
    requires k < |s|
    ensures Reverse(s)[k] == s[|s| - 1 - k]
  {
    if k < |s| - 1 {
      ReverseAt(s[1..], k);
    }
  }

  lemma {:induction false} ReverseConcat<T>(a: seq<T>, b: seq<T>)
    ensures Reverse(a + b) == Reverse(b) + Reverse(a)
  {
    if a == [] {
      assert a + b == b;
    } else {
      assert (a + b)[1..] == a[1..] + b;
      ReverseConcat(a[1..], b);
    }
  }

  /** The slot the mapping callback produces for the item at position `i`. */
  function SlotOf<T>(item: T, i: int, index: int, offset: Point): (r: Slot<T>)
    ensures r.Hidden? <==> i < index
    ensures r.Active? <==> i == index
    ensures !r.Hidden? ==> r.item == item
    ensures r.Active? ==> r.offset == offset
    ensures r.Queued? ==> r.top == StackStep * (i - index) && r.top > 0
  {
    if i < index then Hidden
    else if i == index then Active(item, offset)
    else Queued(item, StackStep * (i - index))
  }

  /** The item list mapped position by position, before the reversal. */
  function MapSlots<T>(data: seq<T>, index: nat, offset: Point): (s: seq<Slot<T>>)
    ensures |s| == |data|
    ensures forall i :: 0 <= i < |s| ==>
              (s[i].Hidden? <==> i < index) &&
              (s[i].Active? <==> i == index) &&
              (!s[i].Hidden? ==> s[i].item == data[i])
  {
    seq(|data|, i requires 0 <= i < |data| => SlotOf(data[i], i, index, offset))
  }

  /** renderCards: the "no more cards" output once the index has run past the
      list, otherwise the mapped list reversed, so that the active card comes
      last and is drawn on top of the others. */
  function RenderCards<T>(data: seq<T>, index: nat, offset: Point): (r: Rendered<T>)
    ensures r.NoMoreCards? <==> index >= |data|
    ensures r.Cards? ==> |r.slots| == |data|
    ensures r.Cards? ==> forall k :: 0 <= k < |r.slots| ==>
              (r.slots[k].Hidden? <==> |data| - 1 - k < index) &&
              (r.slots[k].Active? <==> k == |data| - 1 - index)
  {
    if index >= |data| then NoMoreCards
    else
      var m := MapSlots(data, index, offset);
      assert forall k :: 0 <= k < |m| ==> Reverse(m)[k] == m[|m| - 1 - k] by {
        forall k | 0 <= k < |m| { ReverseAt(m, k); }
      }
      Cards(Reverse(m))
  }

  /** The slots that actually draw something (React skips the nulls). */
  function Visible<T>(slots: seq<Slot<T>>): (v: seq<Slot<T>>)
    ensures |v| <= |slots|
    ensures forall k :: 0 <= k < |v| ==> !v[k].Hidden?
    ensures (forall k :: 0 <= k < |slots| ==> !slots[k].Hidden?) ==> |v| == |slots|
  {
    if slots == [] then []
    else (if slots[0].Hidden? then [] else [slots[0]]) + Visible(slots[1..])
  }

  lemma {:induction false} VisibleConcat<T>(a: seq<Slot<T>>, b: seq<Slot<T>>)
    ensures Visible(a + b) == Visible(a) + Visible(b)
  {
    if a == [] {
      assert a + b == b;
    } else {
      assert (a + b)[1..] == a[1..] + b;
      VisibleConcat(a[1..], b);
    }
  }

  lemma {:induction false} VisibleReverse<T>(s: seq<Slot<T>>)
    ensures Visible(Reverse(s)) == Reverse(Visible(s))
  {
    if s != [] {
      var head := if s[0].Hidden? then [] else [s[0]];
      VisibleConcat(Reverse(s[1..]), [s[0]]);
      VisibleReverse(s[1..]);
      assert Visible([s[0]]) == head by {
        assert [s[0]][1..] == [];
      }
      ReverseConcat(head, Visible(s[1..]));
      assert Reverse(head) == head;
    }
  }

  lemma {:induction false} VisibleAllHidden<T>(s: seq<Slot<T>>)
    requires forall k :: 0 <= k < |s| ==> s[k].Hidden?
    ensures Visible(s) == []
  {
    if s != [] {
      VisibleAllHidden(s[1..]);
    }
  }

  lemma {:induction false} VisibleNoneHidden<T>(s: seq<Slot<T>>)
    requires forall k :: 0 <= k < |s| ==> !s[k].Hidden?
    ensures Visible(s) == s
  {
    if s != [] {
      VisibleNoneHidden(s[1..]);
      assert [s[0]] + s[1..] == s;
    }
  }

  /** What is drawn is exactly the items from the index on, in reverse order. */
  lemma DrawnIsReversedSuffix<T>(data: seq<T>, index: nat, offset: Point)
    requires index < |data|
    ensures Visible(RenderCards(data, index, offset).slots)
            == Reverse(MapSlots(data, index, offset)[index..])
  {
    var m := MapSlots(data, index, offset);
    assert m == m[..index] + m[index..];
    VisibleReverse(m);
    VisibleConcat(m[..index], m[index..]);
    VisibleAllHidden(m[..index]);
    VisibleNoneHidden(m[index..]);
    calc {
      Visible(RenderCards(data, index, offset).slots);
      Visible(Reverse(m));
      Reverse(Visible(m));
      Reverse(Visible(m[..index]) + Visible(m[index..]));
      { assert [] + m[index..] == m[index..]; }
      Reverse(m[index..]);
    }
  }

  /** The shape of a rendered, non-exhausted deck: one card per remaining
      item, drawn in reverse list order; the last one drawn is the active
      card, carrying the item at the index and the gesture offset; every other
      card is the queued item `i` pushed down by 10 * (i - index) > 0. */
  lemma RenderShape<T>(data: seq<T>, index: nat, offset: Point)
    requires index < |data|
    ensures var v := Visible(RenderCards(data, index, offset).slots);
            |v| == |data| - index &&
            v[|v| - 1] == Active(data[index], offset) &&
            (forall k :: 0 <= k < |v| ==> !v[k].Hidden? && v[k].item == Reverse(data[index..])[k]) &&
            (forall k :: 0 <= k < |v| - 1 ==>
               var i := |data| - 1 - k;
               v[k] == Queued(data[i], StackStep * (i - index)) && v[k].top > 0)
  {
    var m := MapSlots(data, index, offset);
    var v := Visible(RenderCards(data, index, offset).slots);
    DrawnIsReversedSuffix(data, index, offset);
    forall k | 0 <= k < |v|
      ensures v[k] == SlotOf(data[|data| - 1 - k], |data| - 1 - k, index, offset)
      ensures Reverse(data[index..])[k] == data[|data| - 1 - k]
    {
      var i := |data| - 1 - k;
      ReverseAt(m[index..], k);
      assert v[k] == m[index..][|data| - index - 1 - k];
      assert m[index..][|data| - index - 1 - k] == m[i];
      ReverseAt(data[index..], k);
    }
  }
}
