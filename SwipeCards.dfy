/**
 * The swipe-card controller of src/composables/useSwipeCards.js: the drag
 * session (`isDragging`, `startX`, `startY`, `currentCard`), the cards of the
 * container, the container's class list, the exit tweens whose completion is
 * still to come, and the log of swipe callbacks.
 *
 * An animation tween is modelled as the assignment of its target values. The
 * `onComplete` of an exit tween runs later, as the separate step
 * `CompleteRemoval`; until then the removal waits in `pending`.
 */
module SwipeCards {
  import opened Wrappers
  import opened CardLayout
  import opened Gesture
  import opened CardStack

  /** One call of the caller's `onSwipeLeft` or `onSwipeRight`, with the card it received. */
  datatype Event = Left(card: nat) | Right(card: nat)

  /**
   * The completion of an exit tween: the card, which callback it fires, and
   * whether it still has to add the `removed` class (a drag removal does; a
   * programmatic swipe added it at once).
   */
  datatype Completion = Completion(card: nat, right: bool, marksRemoved: bool)

  /** What `document.querySelector(containerSelector)` finds: its cards, in document order, and its classes. */
  datatype Container = Container(cards: seq<CardState>, classes: set<string>)

  /** `zIndex` that lifts a grabbed card above the whole stack. */
  const DragZIndex: int := 1000

  class SwipeDeck {
    const threshold: real
    const hasContainer: bool
    var dom: seq<CardState>
    var classes: set<string>
    var cards: seq<nat>
    var isDragging: bool
    var startX: real
    var startY: real
    var currentCard: Option<nat>
    var pending: seq<Completion>
    var log: seq<Event>

    /** Every card the controller refers to is a card of the container. */
    ghost predicate Valid()
      reads this`dom, this`cards, this`currentCard, this`pending
    {
      && (!hasContainer ==> dom == [])
      && (forall k :: 0 <= k < |cards| ==> cards[k] < |dom|)
      && (currentCard.Some? ==> currentCard.value < |dom|)
      && (forall k :: 0 <= k < |pending| ==> pending[k].card < |dom|)
    }

    /**
     * `useSwipeCards({threshold})` followed by `init()` at mount: with a
     * container, the cards are laid out; without one, nothing is attached and
     * the controller has no cards.
     */
    constructor (threshold: real, container: Option<Container>)
      ensures Valid()
      ensures this.threshold == threshold && hasContainer == container.Some?
      ensures !isDragging && currentCard == None && startX == 0.0 && startY == 0.0
      ensures pending == [] && log == []
      ensures container.None? ==> dom == [] && classes == {} && cards == []
      ensures container.Some? ==>
        && dom == Relayout(container.value.cards)
        && cards == Visible(container.value.cards)
        && classes == container.value.classes
        && LaidOut(dom, cards)
    {
      this.threshold := threshold;
      hasContainer := container.Some?;
      dom := if container.Some? then container.value.cards else [];
      classes := if container.Some? then container.value.classes else {};
      cards := [];
      isDragging := false;
      startX, startY := 0.0, 0.0;
      currentCard := None;
      pending, log := [], [];
      new;
      if container.Some? {
        InitCards();
      }
    }

    /**
     * `initCards`: `cards` becomes the list of cards not removed, and each
     * gets the resting pose of its position.
     */
    method InitCards()
      requires Valid()
      modifies this`dom, this`cards
      ensures Valid()
      ensures cards == Visible(old(dom)) == Visible(dom)
      ensures dom == Relayout(old(dom))
      ensures LaidOut(dom, cards)
    {
      var visible := Visible(dom);
      var laid := PoseStack(dom);
      RelayoutStack(dom);
      VisibleFlagsOnly(laid, dom);
      cards := visible;
      dom := laid;
    }

    /**
     * `handleDragStart`: ignored while a session is active. Otherwise the
     * session starts on `card` and records where the press began; the
     * card is marked moving and lifted to the top. A touch event with no
     * touches throws after the session flags are set.
     */
    method HandleDragStart(ev: PointerEvent, card: nat)
      requires Valid() && card < |dom|
      modifies this`isDragging, this`currentCard, this`startX, this`startY, this`dom
      ensures Valid()
      ensures old(isDragging) ==>
        && isDragging && currentCard == old(currentCard)
        && startX == old(startX) && startY == old(startY) && dom == old(dom)
      ensures !old(isDragging) ==> isDragging && currentCard == Some(card)
      ensures !old(isDragging) && TrackedPoint(ev).Some? ==>
        && startX == TrackedPoint(ev).value.clientX
        && startY == TrackedPoint(ev).value.clientY
        && dom == old(dom)[card := old(dom)[card].(moving := true, pose := old(dom)[card].pose.(zIndex := DragZIndex))]
      ensures !old(isDragging) && TrackedPoint(ev).None? ==>
        startX == old(startX) && startY == old(startY) && dom == old(dom)
    {
      if isDragging {
        return;
      }
      isDragging := true;
      currentCard := Some(card);
      var touch := TrackedPoint(ev);
      if touch.None? {
        return;
      }
      startX := touch.value.clientX;
      startY := touch.value.clientY;
      dom := dom[card := dom[card].(moving := true, pose := dom[card].pose.(zIndex := DragZIndex))];
    }

    /**
     * `handleDragMove`: with an active session on a card, the card follows
     * the mouse or touch point, tilts by the drag rotation, and the container shows the
     * direction indicator; otherwise nothing changes.
     */
    method HandleDragMove(ev: PointerEvent)
      requires Valid()
      modifies this`dom, this`classes
      ensures Valid()
      ensures !isDragging || currentCard.None? || TrackedPoint(ev).None? ==>
        dom == old(dom) && classes == old(classes)
      ensures isDragging && currentCard.Some? && TrackedPoint(ev).Some? ==>
        var c := currentCard.value;
        var dx := TrackedPoint(ev).value.clientX - startX;
        var dy := TrackedPoint(ev).value.clientY - startY;
        && dom == old(dom)[c := old(dom)[c].(pose := old(dom)[c].pose.(x := dx, y := dy, rotation := DragRotation(dx, dy)))]
        && classes == if hasContainer then Indicated(old(classes), dx) else old(classes)
    {
      if !isDragging || currentCard.None? {
        return;
      }
      var touch := TrackedPoint(ev);
      if touch.None? {
        return;
      }
      var deltaX := touch.value.clientX - startX;
      var deltaY := touch.value.clientY - startY;
      var c := currentCard.value;
      dom := dom[c := dom[c].(pose := dom[c].pose.(x := deltaX, y := deltaY, rotation := DragRotation(deltaX, deltaY)))];
      if hasContainer {
        classes := Indicated(classes, deltaX);
      }
    }

    /**
     * `handleDragEnd`: with an active session on a card, the card stops
     * moving, the indicators go, and the session ends. Past the threshold the
     * card flies out and its removal is queued with the callback of the drag's
     * side; otherwise it snaps back to the origin and to the resting rotation
     * of its place in the list, and no callback is queued.
     */
    method HandleDragEnd(ev: PointerEvent, viewportWidth: nat)
      requires Valid()
      modifies this`dom, this`classes, this`isDragging, this`currentCard, this`pending
      ensures Valid()
      ensures !old(isDragging) || old(currentCard).None? || ReleasedPoint(ev).None? ==>
        && dom == old(dom) && classes == old(classes) && pending == old(pending)
        && isDragging == old(isDragging) && currentCard == old(currentCard)
      ensures old(isDragging) && old(currentCard).Some? && ReleasedPoint(ev).Some? ==>
        var c := old(currentCard).value;
        var dx := ReleasedPoint(ev).value.clientX - startX;
        var dy := ReleasedPoint(ev).value.clientY - startY;
        var released := old(dom)[c].(moving := false);
        && !isDragging && currentCard == None
        && classes == (if hasContainer then old(classes) - {SwipeRight, SwipeLeft} else old(classes))
        && (ShouldRemove(dx, threshold) ==>
              var e := DragExit(dx, dy, viewportWidth);
              && dom == old(dom)[c := released.(pose := released.pose.(x := e.x, y := e.y, rotation := e.rotation, opacity := 0.0))]
              && pending == old(pending) + [Completion(c, dx > 0.0, true)])
        && (!ShouldRemove(dx, threshold) ==>
              && dom == old(dom)[c := released.(pose := released.pose.(x := 0.0, y := 0.0, rotation := RestingRotation(IndexOf(Visible(old(dom)), c))))]
              && pending == old(pending))
    {
      if !isDragging || currentCard.None? {
        return;
      }
      var card := currentCard.value;
      var touch := ReleasedPoint(ev);
      if touch.None? {
        return;
      }
      var deltaX := touch.value.clientX - startX;
      var deltaY := touch.value.clientY - startY;
      var released := dom[card].(moving := false);
      if hasContainer {
        classes := classes - {SwipeRight, SwipeLeft};
      }
      if ShouldRemove(deltaX, threshold) {
        var e := DragExit(deltaX, deltaY, viewportWidth);
        dom := dom[card := released.(pose := released.pose.(x := e.x, y := e.y, rotation := e.rotation, opacity := 0.0))];
        pending := pending + [Completion(card, deltaX > 0.0, true)];
      } else {
        var cardIndex := IndexOf(Visible(dom), card);
        dom := dom[card := released.(pose := released.pose.(x := 0.0, y := 0.0, rotation := RestingRotation(cardIndex)))];
      }
      isDragging := false;
      currentCard := None;
    }

    /**
     * The `onComplete` of the exit tween queued at position `k`: the card is
     * removed and hidden, the remaining stack is laid out again, and exactly
     * one callback fires, the right one iff the removal went right. What this
     * does to the list and the poses is `DiscardThenRelayout`.
     */
    method CompleteRemoval(k: nat)
      requires Valid() && k < |pending|
      modifies this`dom, this`cards, this`pending, this`log
      ensures Valid()
      ensures
        var p := old(pending)[k];
        var after := Discard(old(dom), p.card, p.marksRemoved);
        && dom == Relayout(after)
        && cards == Visible(after)
        && pending == old(pending)[..k] + old(pending)[k + 1..]
        && log == old(log) + [if p.right then Right(p.card) else Left(p.card)]
    {
      var p := pending[k];
      var rest := pending[..k] + pending[k + 1..];
      assert forall i :: 0 <= i < |rest| ==> rest[i] in pending;
      dom := Discard(dom, p.card, p.marksRemoved);
      pending := rest;
      InitCards();
      log := log + [if p.right then Right(p.card) else Left(p.card)];
    }

    /**
     * `swipeCard(direction)`, whose direction defaults to "right": nothing on an empty stack. Otherwise the top
     * card is marked removed at once, so the stack loses exactly that card,
     * and flies out towards `direction`; its completion, queued, fires the
     * right callback iff `direction` is "right".
     */
    method SwipeCard(viewportWidth: nat, direction: string := "right")
      requires Valid()
      modifies this`dom, this`pending
      ensures Valid()
      ensures Visible(old(dom)) == [] ==> dom == old(dom) && pending == old(pending)
      ensures Visible(old(dom)) != [] ==>
        var c := Visible(old(dom))[0];
        var e := SwipeExit(direction, viewportWidth);
        && dom == old(dom)[c := old(dom)[c].(removed := true, pose := old(dom)[c].pose.(x := e.x, y := e.y, rotation := e.rotation, opacity := 0.0))]
        && pending == old(pending) + [Completion(c, direction == "right", false)]
        && Visible(dom) == Visible(old(dom))[1..]
    {
      var visibleCards := Visible(dom);
      if visibleCards == [] {
        return;
      }
      var card := visibleCards[0];
      var e := SwipeExit(direction, viewportWidth);
      var thrown := dom[card].(removed := true, pose := dom[card].pose.(x := e.x, y := e.y, rotation := e.rotation, opacity := 0.0));
      RemoveTop(dom, thrown);
      dom := dom[card := thrown];
      pending := pending + [Completion(card, direction == "right", false)];
    }

    /** `cleanup`: the exposed card list is emptied and the current card dropped. */
    method Cleanup()
      requires Valid()
      modifies this`cards, this`currentCard
      ensures Valid()
      ensures cards == [] && currentCard == None
    {
      cards := [];
      currentCard := None;
    }
  }
}
