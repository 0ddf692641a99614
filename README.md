# Swipeable card deck — a verified model

This project models the logic of `Deck`, a React Native component that shows a stack of cards.
The user drags the top card; on release it swipes left, swipes right or springs back.
A completed swipe fires `onSwipeLeft`/`onSwipeRight` with the dismissed item and advances the deck's `index`.
The rendered stack is computed afresh from the item list and `index`.

- `swipe.dfy` (module `Swipe`): the threshold (a quarter of the screen width), the three-way release decision, and where a forced exit sends the card.
- `render.dfy` (module `Render`): `renderCards` as a pure function of the list, the index and the gesture offset. It keeps the JavaScript shape exactly: one slot per item (`Hidden` stands for the `null` of a dismissed item), reversed. `Visible` drops the nulls, as React does when it draws.
- `deck.dfy` (module `DeckState`): class `Deck`. Its fields are `index`, the offset `pos`, the animation in flight `anim`, the `data` prop and an identity token `dataRef` for the list object. A ghost `log` records every directional callback. `Valid()` says that `index` equals the number of callbacks fired since the current list identity arrived, and that an animation in flight heads for its exit target or for the origin. So `index` starts at 0, never decreases for a fixed list identity, and changes only through a completed swipe. Animations are explicit steps: `Release` starts one, and `AnimationDone` is its completion signal.

Geometry is in `real`, because gesture offsets are floating point. The screen width is a parameter of type `Width` (a positive real). The item read at completion is an `Option`; `None` stands for JavaScript's `undefined`, which `data[index]` gives past the end of the list.

A list replaced while an exit is in flight: `onSwipeComplete` reads `this.props.data` and `this.state.index` only when the exit completes (src/Deck.js:62-66). By then `componentWillReceiveProps` has already reset `index` to 0, so the callback gets the first item of the new list, and `index` ends at 1. `DeckState.ExampleSwapDuringExit` shows this.

## Model

| member | source | states |
|---|---|---|
| Swipe.Threshold | src/Deck.js:12 | the threshold is positive, below the screen width, and exactly a quarter of it |
| Swipe.Classify | src/Deck.js:29-37 | right exactly when 4·dx > W, left exactly when 4·dx < −W, snap-back exactly when −W ≤ 4·dx ≤ W (both comparisons strict) |
| Swipe.ClassifyIgnoresDy | src/Deck.js:29-37 | the vertical drag never changes the decision |
| Swipe.ClassifyMirror | src/Deck.js:30-33 | negating dx swaps left and right and keeps snap-back |
| Swipe.ExitTarget | src/Deck.js:53-58 | a forced exit goes to (W, 0) for right and (−W, 0) for left; y is always 0 |
| Swipe.ExitFollowsDrag | src/Deck.js:29-58 | a swiped card leaves on the side it was dragged to, a full width away, at y = 0 |
| Render.RenderCards | src/Deck.js:86-112 | "no more cards" exactly when index ≥ \|data\| (empty data included), and then no slots at all; otherwise one slot per item, a slot is hidden exactly when its item lies before the index, and exactly one slot is interactive, the one that holds position `index` |
| Render.SlotOf | src/Deck.js:92-110 | the `map` callback: an item before the index gives `null`, the item at the index gives the interactive card at the gesture offset, and every later item gives a queued card carrying that item with top 10·(i − index) > 0 |
| Render.MapSlots | src/Deck.js:91-110 | `data.map` keeps one slot per item; slot i is `null` exactly when i < index, interactive exactly when i == index, and otherwise carries data[i] |
| Render.Reverse | src/Deck.js:111 | `.reverse()` keeps the length and swaps the first and last elements |
| Render.Visible | src/Deck.js:91-111 | models React skipping the `null` children of the returned array (no source line does this): what remains holds no null, and nothing is dropped from a list without nulls |
| Render.ReverseAt | src/Deck.js:111 | the reversal puts item k of the list at position \|s\|−1−k |
| Render.DrawnIsReversedSuffix | src/Deck.js:91-111 | the drawn cards are exactly the mapped items from `index` on, in reverse order |
| Render.RenderShape | src/Deck.js:91-111 | \|data\| − index cards are drawn, their items are data[index..] reversed, the last one drawn is the interactive card with data[index] at the gesture offset, and each queued card for item i has top 10·(i − index) > 0 |
| DeckState.At | src/Deck.js:63 | the lookup yields the item exactly when the index is in range, else `undefined` |
| DeckState.Deck.constructor | src/Deck.js:21-40 | a new deck has index 0, rests at the origin, runs no animation and has fired nothing |
| DeckState.Deck.Move | src/Deck.js:26-28 | a move sample sets the offset to (dx, dy) and changes nothing else |
| DeckState.Deck.ForceSwipe | src/Deck.js:53-59 | starts a 250 ms timed exit towards the exit target of its direction |
| DeckState.Deck.ResetPosition | src/Deck.js:69-73 | starts a spring towards (0, 0) |
| DeckState.Deck.Release | src/Deck.js:29-37 | the outcome is the classifier's decision; a swipe starts the exit in its direction, a snap-back starts the spring; index, offset and log are untouched |
| DeckState.Deck.CompleteSwipe | src/Deck.js:61-67 | fires exactly one callback, in the given direction, with the item at the pre-increment index; the offset becomes (0, 0); index grows by exactly 1 |
| DeckState.Deck.AnimationDone | src/Deck.js:53-73 | a finished exit completes the swipe as above; a finished spring leaves the card at (0, 0) with no callback and the same index; with nothing in flight nothing changes |
| DeckState.Deck.ReceiveData | src/Deck.js:42-46 | a list with another identity resets index to 0; the same identity keeps index, whatever its contents; the props are replaced |
| DeckState.Deck.View | src/Deck.js:86-89 | the deck renders "no more cards" exactly when index ≥ \|data\| |

## Left out

- Pointer capture (`onStartShouldSetPanResponder`) and event delivery are framework input. A move sample is modelled as `Move(dx, dy)`; the release is modelled as `Release(dx, dy)`.
- Animation physics are not modelled: the timing curve, the spring parameters and the intermediate frames. Only the target, the 250 ms duration as a recorded value, and an explicit completion step (`AnimationDone`) remain.
- A new gesture during an exit is not modelled faithfully. The ordering of such events is left to the event loop. In React Native's Animated library, `setValue` stops the running animation, and stopping it still calls its `start` callback. The callback at src/Deck.js:58 ignores whether the animation finished. So in the component, an interrupted exit still runs `onSwipeComplete`: a callback fires and `index` goes up by 1. In the model, `Move` leaves the pending `Timing` alone, and the next `Release` overwrites `anim`. That swipe then never completes: no callback fires and `index` does not change.
- The rotation interpolation in `getCardStyle` is cosmetic floating point. So are `LayoutAnimation.spring` and the `UIManager` flag in `componentWillUpdate`.
- What `renderCard` and `renderNoMoreCards` draw is supplied by the caller. The `key={item.id}` props and the `styles` object are not modelled either.
- `Dimensions.get` is not modelled; the screen width is a constructor parameter.
- The default no-op callbacks are not modelled separately: the log records each call whichever callback the caller supplied.
