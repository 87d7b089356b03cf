# Swipe-card controller

A Dafny model of the Tinder-style swipe-card controller `useSwipeCards` in
`src/composables/useSwipeCards.js`, with proofs of its behaviour. The
controller lays out a stack of cards and runs a drag session on the top card:
- `handleDragStart`, `handleDragMove` and `handleDragEnd` run the drag;
- a drag released past a threshold throws the card out, and a shorter one snaps it back;
- `swipeCard` throws out the top card programmatically;
- the caller's `onSwipeLeft` and `onSwipeRight` fire when a card's exit animation completes.

The modules:

- `CardLayout` holds the resting pose of the card at stack position `i`: rotation table, opacity, scale, offsets and stacking depth.
- `Gesture` holds the pure decisions of the handlers:
  - which coordinates a mouse or touch event supplies;
  - the live drag rotation;
  - the direction indicator on the container;
  - the strict threshold test;
  - the two exit trajectories.
- `CardStack` models the container's cards as a sequence in document order. A card's identity is its index there; cards are hidden but never taken out of the document.
  - `Visible` is the `:not(.removed)` query: the cards that make up the stack.
  - `Relayout` is what `initCards` does to the poses.
  - `PoseStack` is its `forEach` loop, proved equal to `Relayout`.
  - The lemmas say how the stack changes when a card is marked removed.
- `SwipeDeck` (module `SwipeCards`) is the controller itself. Its fields are:
  - the drag session: `isDragging`, `startX`, `startY`, `currentCard`;
  - the exposed card list `cards`;
  - the container's cards and classes;
  - the queue of exit animations whose completion is still to come;
  - the log of callbacks fired.

  Each handler is a method whose postcondition states the new state.
- `Scenarios` drives a controller the way a component would, proved from the contracts alone:
  - a drag past the threshold on a three-card stack;
  - a drag below it;
  - a programmatic left swipe on a one-card stack;
  - a programmatic swipe with no direction given, which goes right.

**Animations.** A GSAP tween is modelled as the assignment of its target values. Its `onComplete` is a separate step, `CompleteRemoval(k)`, on the `k`-th queued exit. That step:
- marks the card removed (a drag exit only; `swipeCard` marked it at once);
- hides it;
- lays out the remaining stack again;
- logs exactly one callback.

**Other parameters.**
- `window.innerWidth` is the parameter `viewportWidth`.
- The threshold is a constructor parameter; the source's default is 100.
- The container found by `document.querySelector` at mount is the constructor's `Option<Container>`.

**JavaScript details modelled.**
- JavaScript's truncating `%` is modelled: `indexOf` gives −1 for a card that is not in the stack, and `-1 % 6` is −1.
- The `|| 0` fallback on the rotation table is modelled. A card that is not in the stack therefore snaps back to rotation 0.
- A touch event with an empty `touches` or `changedTouches` list throws where it reads the coordinates. The model stops the handler at that point. In `handleDragStart` this happens after the session flags are already set.

**Behaviour worth noting:**
- A programmatic swipe marks its card `removed` when the swipe starts, not when its exit animation completes. The stack loses the card at once.
- A snap-back animates the card to `x = y = 0` with the rotation of its position. It does not return to its stack offset (`x = 3i`, `y = −35i`), and it keeps the `zIndex` of 1000 it got on pointer-down until the next layout.
- `cleanup` empties `cards` and drops `currentCard` but leaves `isDragging` as it was.

## Model

| member | source | states |
|---|---|---|
| CardLayout.TableSlot | src/composables/useSwipeCards.js:34 | JavaScript's `index % 6`: for a non-negative index it is the mathematical remainder; for a negative one it is in (−6, 0]; it is 0 exactly when 6 divides the index |
| CardLayout.RestingRotation | src/composables/useSwipeCards.js:33-34 | for a non-negative index, the table entry at `index mod 6`; the rotation is 0 exactly when the index is negative and not a multiple of 6 (the `\|\| 0` fallback); always within [−1.5, 2] |
| CardLayout.RotationPeriodic | src/composables/useSwipeCards.js:33-34 | the resting rotation repeats with period 6 for every non-negative position |
| CardLayout.Opacity | src/composables/useSwipeCards.js:37-40 | opacity lies in [0.5, 1] and is 1 exactly for the top card |
| CardLayout.OpacityNonIncreasing | src/composables/useSwipeCards.js:37-40 | a deeper card is never more opaque than one above it |
| CardLayout.Scale | src/composables/useSwipeCards.js:44 | scale lies in [0.88, 1] and is 1 exactly for the top card |
| CardLayout.ScaleNonIncreasing | src/composables/useSwipeCards.js:44 | a deeper card is never larger than one above it |
| CardLayout.RestingPose | src/composables/useSwipeCards.js:42-51 | opacity and scale within their floors; a resting card is never unrotated; every card of the stack gets a depth between 1 and the stack size; only the top card sits at x = 0; the top card's pose is (0, 0, 2°, scale 1, opacity 1, depth n) |
| CardLayout.StackOrder | src/composables/useSwipeCards.js:43-46 | for positions i < j, card j is strictly lower in stacking order, strictly higher up and strictly further right, and no larger and no more opaque |
| Gesture.TrackedPoint | src/composables/useSwipeCards.js:64 | a mouse event yields its own coordinates; a touch event yields its first touch, and nothing (the read throws) exactly when its touch list is empty |
| Gesture.ReleasedPoint | src/composables/useSwipeCards.js:122 | as TrackedPoint, on the list of changed touches |
| Gesture.DragRotation | src/composables/useSwipeCards.js:90-92 | the drag rotation is 0 exactly when the motion is purely horizontal or purely vertical, and positive exactly when Δx and Δy have the same sign |
| Gesture.DragRotationOdd | src/composables/useSwipeCards.js:90-92 | mirroring a drag horizontally mirrors its rotation |
| Gesture.Indicated | src/composables/useSwipeCards.js:102-112 | after a move, `swipe-right` is present exactly when Δx > 30, `swipe-left` exactly when Δx < −30, and every other class is unchanged |
| Gesture.ShouldRemove | src/composables/useSwipeCards.js:132 | removal happens exactly when Δx lies strictly outside [−threshold, threshold]; with a non-negative threshold, a removal never has Δx = 0 |
| Gesture.ThresholdIsStrict | src/composables/useSwipeCards.js:132 | a drag of exactly the threshold, in either direction, snaps back; any drag beyond it removes |
| Gesture.DragExit | src/composables/useSwipeCards.js:136-141 | the exit x is 1.5 viewport widths from the origin on the side of the drag; the exit y is below the release point by 0.3·\|Δx\|; the exit rotation is the drag rotation plus 25° towards the drag's side |
| Gesture.RemovedCardDrops | src/composables/useSwipeCards.js:132-138 | a card thrown out by a drag always leaves below where it was released |
| Gesture.SwipeExit | src/composables/useSwipeCards.js:190-199 | the exit x is 1.5 viewport widths out, to the right exactly for direction "right"; y is −100; the rotation is ±30°, positive exactly for "right" |
| CardStack.Visible | src/composables/useSwipeCards.js:28 | the stack lists only cards of the container that are not removed, and no more cards than the container has |
| CardStack.VisibleExactly | src/composables/useSwipeCards.js:28 | a card is in the stack if and only if it is not removed, and the stack keeps document order |
| CardStack.VisibleFlagsOnly | src/composables/useSwipeCards.js:28 | the stack depends on the `removed` flags alone, so moving a card or re-posing it never changes it |
| CardStack.VisibleAtRank | src/composables/useSwipeCards.js:31 | a card not removed sits in the stack at the position given by how many listed cards precede it |
| CardStack.Relayout | src/composables/useSwipeCards.js:27-53 | layout keeps every card's flags and leaves removed cards untouched |
| CardStack.RelayoutStack | src/composables/useSwipeCards.js:31-51 | after layout, the card at stack position i has the resting pose of position i in a stack of the stack's size |
| CardStack.PoseStack | src/composables/useSwipeCards.js:31-52 | the `forEach` loop over the stack produces exactly the layout |
| CardStack.RelayoutIdempotent | src/composables/useSwipeCards.js:27-53 | laying out twice with no change of membership gives the same transforms as laying out once |
| CardStack.VisibleAfterRemoval | src/composables/useSwipeCards.js:151 | marking a listed card removed drops exactly that card from the stack and keeps the order of the rest |
| CardStack.VisibleAfterMark | src/composables/useSwipeCards.js:151 | a marked listed card leaves the stack; an unmarked or already removed card leaves the stack as it was |
| CardStack.Discard | src/composables/useSwipeCards.js:151-152 | the completed card is hidden and removed (when the completion marks it), keeps its exit pose and its `moving` flag, and no other card changes |
| CardStack.DiscardThenRelayout | src/composables/useSwipeCards.js:150-153 | after a completion, the stack is the old one without that card, layout does not change it, every remaining card has the pose of its new position, and the completed card is hidden and out of the stack |
| CardStack.RemoveTop | src/composables/useSwipeCards.js:189-194 | marking the top card removed shrinks the stack by exactly its first card |
| CardStack.IndexOf | src/composables/useSwipeCards.js:165 | `indexOf`: −1 exactly when the card is absent; otherwise the first position holding it |
| CardStack.IndexOfVisible | src/composables/useSwipeCards.js:165 | the snap-back index of a card is its stack position, or −1 for a removed card |
| CardStack.ListedRotation | src/composables/useSwipeCards.js:165-167 | a card in the stack snaps back to the rotation the layout gives its position |
| CardStack.SnapBackRotation | src/composables/useSwipeCards.js:165-167 | snap-back restores the layout rotation of a listed card, and rotation 0 for a removed one |
| SwipeCards.SwipeDeck.constructor | src/composables/useSwipeCards.js:251-258 | a new controller starts idle with nothing queued or logged; with a container, its cards are laid out and `cards` lists the stack; without one, it has no cards |
| SwipeCards.SwipeDeck.InitCards | src/composables/useSwipeCards.js:27-53 | `cards` becomes exactly the stack, membership is unchanged, and every listed card gets the resting pose of its position |
| SwipeCards.SwipeDeck.HandleDragStart | src/composables/useSwipeCards.js:58-72 | a no-op on the session while a drag is active; otherwise the session starts on the card; with a readable point, the start coordinates are recorded and only the grabbed card changes, becoming moving at depth 1000 |
| SwipeCards.SwipeDeck.HandleDragMove | src/composables/useSwipeCards.js:77-113 | a no-op without an active session on a card or with an unreadable point; otherwise only the current card changes, moving by (Δx, Δy) and tilting by the drag rotation, and the container shows the indicator |
| SwipeCards.SwipeDeck.HandleDragEnd | src/composables/useSwipeCards.js:118-180 | a no-op without an active session on a card or with an unreadable point. Otherwise the session is cleared, the card stops moving and the indicators go. Past the threshold, the card flies to the drag exit at opacity 0 and one completion is queued, firing right iff Δx > 0. Otherwise it snaps back to (0, 0) with the rotation of its stack position and nothing is queued |
| SwipeCards.SwipeDeck.CompleteRemoval | src/composables/useSwipeCards.js:150-161 | the completed card is discarded and the rest laid out, `cards` is the stack that remains, the completion leaves the queue, and exactly one callback of the completion's direction is logged |
| SwipeCards.SwipeDeck.SwipeCard | src/composables/useSwipeCards.js:185-214 | the direction defaults to "right"; a no-op on an empty stack; otherwise the top card is marked removed at once and flies to the swipe exit at opacity 0, the stack loses exactly that card, and one completion is queued, firing right iff the direction is "right" |
| SwipeCards.SwipeDeck.Cleanup | src/composables/useSwipeCards.js:265-269 | the exposed card list is empty and no card is current |

## Left out

- Listener registration and removal (`setupEventListeners`, `removeEventListeners`, source lines 219-246) attach the handlers to the browser. The model calls the handlers directly.
- Vue's `ref` wrappers and the `onMounted`/`onUnmounted` hooks. The constructor stands for mounting and `Cleanup` for unmounting.
- `document.querySelector`, the selectors and `console.warn` in `init`. The container is an optional constructor argument, and its cards are taken to be exactly the elements matching the card selector.
- Tween durations, easings and interpolation. A tween is its end state.
- When a completion runs. Any queued completion may run at any later step, and in any order. The model does not follow a second tween started on the same card before the first completes.
- The rotation read with `gsap.getProperty` (line 87), which is never used.
- `event.preventDefault()` (line 80), which has no effect on the controller's state.
- IEEE-754 rounding. The formulas use exact real arithmetic.
- The callbacks' own effects. Each call is recorded in `log` with the card it received.
- `hidden` stands for `style.display = 'none'`. The `moving` flag and the container classes are the only classes modelled.
- SwipeCards.SwipeDeck.HandleDragStart: requires the card to be a card of the container, which every registered listener guarantees.
- SwipeCards.SwipeDeck.Cleanup: does not model the removal of the document listeners it performs.
- `src/composables/useGsapAnimations.js`, `src/main.js` and `vite.config.js` are not part of this model. They are fixed animation presets, scroll and framework setup, and build configuration.
