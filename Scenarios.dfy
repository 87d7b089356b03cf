/**
 * End-to-end uses of the controller, proved from the contracts alone, the way
 * a component using the hook would drive it.
 */
module Scenarios {
  import opened Wrappers
  import opened CardLayout
  import opened Gesture
  import opened CardStack
  import opened SwipeCards

  function Fresh(): CardState {
    CardState(removed := false, moving := false, hidden := false, pose := Transform(0.0, 0.0, 0.0, 1.0, 1.0, 0))
  }

  /** A controller mounted on a container of three fresh cards. */
  method MountThree() returns (deck: SwipeDeck)
    ensures fresh(deck) && deck.Valid()
    ensures deck.threshold == 100.0 && deck.hasContainer && deck.classes == {}
    ensures |deck.dom| == 3 && Visible(deck.dom) == [0, 1, 2] && deck.cards == [0, 1, 2]
    ensures !deck.isDragging && deck.currentCard == None && deck.pending == [] && deck.log == []
  {
    var three := [Fresh(), Fresh(), Fresh()];
    assert three[..2][..1] == [Fresh()] && three[..2][..1][..0] == [];
    assert Visible(three) == [0, 1, 2];
    deck := new SwipeDeck(100.0, Some(Container(three, {})));
    VisibleFlagsOnly(deck.dom, three);
  }

  /** Three fresh cards: dragging the top one 150 to the right and releasing removes it to the right. */
  method DragTopCardRight() {
    var deck := MountThree();
    ghost var mounted := deck.dom;
    deck.HandleDragStart(Mouse(10.0, 20.0), 0);
    deck.HandleDragMove(Mouse(160.0, 20.0));
    assert SwipeRight in deck.classes;
    deck.HandleDragEnd(Mouse(160.0, 20.0), 800);
    assert !deck.isDragging && deck.currentCard == None;
    assert deck.pending == [Completion(0, true, true)];
    assert deck.log == [];
    VisibleFlagsOnly(deck.dom, mounted);
    CompleteTopCardRemoval(deck);
  }

  /**
   * The completion of that removal: the right callback fires once with the
   * card, and the two cards left are laid out as a stack of two.
   */
  method CompleteTopCardRemoval(deck: SwipeDeck)
    requires deck.Valid() && |deck.dom| == 3 && Visible(deck.dom) == [0, 1, 2]
    requires deck.pending == [Completion(0, true, true)] && deck.log == []
    modifies deck
  {
    ghost var after := Discard(deck.dom, 0, true);
    assert IndexOf([0, 1, 2], 0) == 0;
    DiscardThenRelayout(deck.dom, 0, true);
    assert Visible(after) == [1, 2] by {
      assert [0, 1, 2][..0] + [0, 1, 2][1..] == [1, 2];
    }
    deck.CompleteRemoval(0);
    assert deck.dom == Relayout(after) && deck.cards == [1, 2];
    assert deck.log == [Right(0)];
    assert deck.dom[0].removed && deck.dom[0].hidden;
    assert LaidOut(deck.dom, [1, 2]);
    assert deck.dom[1].pose == RestingPose(0, 2) == Transform(0.0, 0.0, 2.0, 1.0, 1.0, 2);
    assert deck.dom[2].pose == RestingPose(1, 2);
  }

  /** Three fresh cards: a release 40 to the right snaps the top card back; no callback is queued. */
  method DragBelowThreshold() {
    var deck := MountThree();
    ghost var mounted := deck.dom;
    deck.HandleDragStart(Mouse(0.0, 0.0), 0);
    VisibleFlagsOnly(deck.dom, mounted);
    SnapBackTopCard(deck);
  }

  /** The release of a drag on the top card that is 40 to the right of where it started. */
  method SnapBackTopCard(deck: SwipeDeck)
    requires deck.Valid() && deck.threshold == 100.0 && |deck.dom| == 3 && Visible(deck.dom) == [0, 1, 2]
    requires deck.isDragging && deck.currentCard == Some(0) && deck.startX == 0.0 && deck.startY == 0.0
    requires deck.pending == [] && deck.log == []
    modifies deck
  {
    assert IndexOf([0, 1, 2], 0) == 0;
    deck.HandleDragEnd(Mouse(40.0, 0.0), 800);
    assert !deck.isDragging && deck.currentCard == None;
    assert deck.pending == [] && deck.log == [];
    assert deck.dom[0].pose.x == 0.0 && deck.dom[0].pose.y == 0.0 && deck.dom[0].pose.rotation == 2.0;
  }

  /** One card: swiping left removes it and fires the left callback; a second swipe does nothing. */
  method SwipeLastCardLeft() {
    var one := [Fresh()];
    assert one[..0] == [];
    var deck := new SwipeDeck(100.0, Some(Container(one, {})));
    assert deck.cards == [0];
    deck.SwipeCard(800, "left");
    assert Visible(deck.dom) == [];
    deck.CompleteRemoval(0);
    assert deck.log == [Left(0)] && deck.cards == [];
    VisibleFlagsOnly(deck.dom, [deck.dom[0]]);
    ghost var before := deck.dom;
    deck.SwipeCard(800, "left");
    assert deck.dom == before && deck.pending == [];
  }

  /** A swipe with no direction given goes right and fires the right callback. */
  method SwipeWithoutDirection() {
    var one := [Fresh()];
    assert one[..0] == [];
    var deck := new SwipeDeck(100.0, Some(Container(one, {})));
    assert deck.cards == [0];
    deck.SwipeCard(800);
    assert deck.pending == [Completion(0, true, false)];
    assert deck.dom[0].pose.x == 1200.0;
    deck.CompleteRemoval(0);
    assert deck.log == [Right(0)];
  }
}
