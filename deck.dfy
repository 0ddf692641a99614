/** The deck component as a state machine: the index into the item list,
    the gesture offset of the active card, the animation in flight, and the
    directional callbacks it fires. */
module DeckState {
  import opened Swipe
  import Render

  /** A looked-up item; `None` plays the part of JavaScript's `undefined`. */
  datatype Option<T> = None | Some(value: T)

  function At<T>(s: seq<T>, i: nat): (r: Option<T>)
    ensures r.Some? <==> i < |s|
    ensures r.Some? ==> r.value == s[i]
  {
    if i < |s| then Some(s[i]) else None
  }

  /** The transition currently animating the offset: none, the timed exit
      started by a decided swipe, or the spring back to rest. */
  datatype Anim = Idle | Timing(dir: Direction, to: Point, duration: nat) | Spring(to: Point)

  /** One call of `onSwipeLeft` or `onSwipeRight`, with the item it was given. */
  datatype Event<T> = Event(dir: Direction, item: Option<T>)

  class Deck<T> {
    const width: Width
    /** The `data` prop and the identity of the list object that holds it:
        the same identity may come back with other contents. */
    var data: seq<T>
    var dataRef: nat
    var index: nat
    var pos: Point
    var anim: Anim
    /** Every directional callback fired so far, in order. */
    ghost var log: seq<Event<T>>
    /** The length of `log` when the current list identity arrived. */
    ghost var mark: nat

    /** The index counts exactly the swipes completed since the current list
        identity was received, and a transition in flight heads for the exit
        target of its direction or for the origin. */
    ghost predicate Valid()
      reads this
    {
      mark <= |log| && index == |log| - mark &&
      (anim.Timing? ==> anim.to == ExitTarget(width, anim.dir) && anim.duration == SwipeOutDuration) &&
      (anim.Spring? ==> anim.to == Origin)
    }

    /** Mounting: the index starts at 0 and the card rests at the origin. */
    constructor (width: Width, data: seq<T>, dataRef: nat)
      ensures Valid()
      ensures this.width == width && this.data == data && this.dataRef == dataRef
      ensures index == 0 && pos == Origin && anim == Idle && log == []
    {
      this.width := width;
      this.data := data;
      this.dataRef := dataRef;
      index := 0;
      pos := Origin;
      anim := Idle;
      log := [];
      mark := 0;
    }

    /** A pan move sample: the offset follows the drag directly. */
    method Move(dx: real, dy: real)
      requires Valid()
      modifies this`pos
      ensures Valid()
      ensures pos == Point(dx, dy)
    {
      pos := Point(dx, dy);
    }

    /** foreceSwipe: start the timed exit to the edge of the screen. */
    method ForceSwipe(dir: Direction)
      requires Valid()
      modifies this`anim
      ensures Valid()
      ensures anim == Timing(dir, ExitTarget(width, dir), SwipeOutDuration)
    {
      anim := Timing(dir, ExitTarget(width, dir), SwipeOutDuration);
    }

    /** resetPosition: start the spring back to rest. */
    method ResetPosition()
      requires Valid()
      modifies this`anim
      ensures Valid()
      ensures anim == Spring(Origin)
    {
      anim := Spring(Origin);
    }

    /** The pan release: classify the final drag and start the matching
        transition. Neither the index nor the offset changes here. */
    method Release(dx: real, dy: real) returns (outcome: Outcome)
      requires Valid()
      modifies this`anim
      ensures Valid()
      ensures outcome == Classify(width, dx, dy)
      ensures outcome.Swipe? ==> anim == Timing(outcome.dir, ExitTarget(width, outcome.dir), SwipeOutDuration)
      ensures outcome.SnapBack? ==> anim == Spring(Origin)
    {
      if dx > Threshold(width) {
        ForceSwipe(Right);
        outcome := Swipe(Right);
      } else if dx < -Threshold(width) {
        ForceSwipe(Left);
        outcome := Swipe(Left);
      } else {
        ResetPosition();
        outcome := SnapBack;
      }
    }

    /** onSwipeComplete: report the item at the index before it advances,
        put the offset back at rest, and advance the index by one. */
    method CompleteSwipe(dir: Direction)
      requires Valid()
      modifies this`index, this`pos, this`log
      ensures Valid()
      ensures log == old(log) + [Event(dir, At(data, old(index)))]
      ensures pos == Origin
      ensures index == old(index) + 1
    {
      var item := At(data, index);
      log := log + [Event(dir, item)];
      pos := Origin;
      index := index + 1;
    }

    /** The transition in flight reaches its last frame and signals
        completion: a timed exit then completes the swipe; a spring leaves
        the card at rest and fires nothing. */
    method AnimationDone()
      requires Valid()
      modifies this`index, this`pos, this`log, this`anim
      ensures Valid()
      ensures anim == Idle
      ensures old(anim).Timing? ==>
                log == old(log) + [Event(old(anim).dir, At(data, old(index)))] &&
                index == old(index) + 1 && pos == Origin
      ensures old(anim).Spring? ==>
                log == old(log) && index == old(index) && pos == Origin
      ensures old(anim).Idle? ==>
                log == old(log) && index == old(index) && pos == old(pos)
    {
      match anim
      case Idle =>
      case Timing(dir, to, _) =>
        pos := to;
        anim := Idle;
        CompleteSwipe(dir);
      case Spring(to) =>
        pos := to;
        anim := Idle;
    }

    /** componentWillReceiveProps: a list with another identity resets the
        index to 0; the same identity keeps it, whatever its contents. */
    method ReceiveData(newData: seq<T>, newRef: nat)
      requires Valid()
      modifies this`data, this`dataRef, this`index, this`mark
      ensures Valid()
      ensures data == newData && dataRef == newRef
      ensures newRef != old(dataRef) ==> index == 0
      ensures newRef == old(dataRef) ==> index == old(index)
    {
      if newRef != dataRef {
        index := 0;
        mark := |log|;
      }
      data := newData;
      dataRef := newRef;
    }

    /** What the deck renders in its current state. */
    function View(): (r: Render.Rendered<T>)
      reads this
      ensures r.NoMoreCards? <==> index >= |data|
      ensures r.Cards? ==> |r.slots| == |data|
    {
      Render.RenderCards(data, index, pos)
    }
  }

  /** Three items, a 400-wide screen: a release at dx = 150 swipes right,
      reports the first item and makes the second one active. */
  method ExampleSwipeRight() {
    var d := new Deck<int>(400.0, [1, 2, 3], 0);
    d.Move(150.0, 30.0);
    var o := d.Release(150.0, 30.0);
    assert o == Swipe(Right);
    d.AnimationDone();
    assert d.log == [Event(Right, Some(1))];
    assert d.index == 1 && d.pos == Origin;
    Render.RenderShape(d.data, d.index, d.pos);
    var v := Render.Visible(d.View().slots);
    assert v[|v| - 1] == Render.Active(2, Origin);
  }

  /** The same deck released at dx = -60 springs back: no callback, the
      index stays at 0 and the card ends at rest. */
  method ExampleSnapBack() {
    var d := new Deck<int>(400.0, [1, 2, 3], 0);
    d.Move(-60.0, 0.0);
    var o := d.Release(-60.0, 0.0);
    assert o == SnapBack;
    d.AnimationDone();
    assert d.log == [] && d.index == 0 && d.pos == Origin;
  }

  /** After three swipes the deck is exhausted and renders "no more cards". */
  method ExampleExhausted() {
    var d := new Deck<int>(400.0, [1, 2, 3], 0);
    var o := d.Release(150.0, 0.0);
    d.AnimationDone();
    o := d.Release(-150.0, 0.0);
    d.AnimationDone();
    o := d.Release(101.0, 0.0);
    d.AnimationDone();
    assert d.log == [Event(Right, Some(1)), Event(Left, Some(2)), Event(Right, Some(3))];
    assert d.index == 3;
    assert d.View() == Render.NoMoreCards;
  }

  /** A new list arriving while an exit is in flight: completion reads the
      props and index current at that moment, so it reports the first item
      of the new list and leaves the index at 1. */
  method ExampleSwapDuringExit() {
    var d := new Deck<int>(400.0, [1, 2, 3], 0);
    var o := d.Release(150.0, 0.0);
    d.AnimationDone();
    o := d.Release(150.0, 0.0);
    d.ReceiveData([7, 8], 1);
    assert d.index == 0;
    d.AnimationDone();
    assert d.log == [Event(Right, Some(1)), Event(Right, Some(7))];
    assert d.index == 1;
  }
}
