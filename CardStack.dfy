/**
 * The cards of the swipe container in document order, the list of those not
 * removed (what `querySelectorAll(cardSelector + ':not(.removed)')` returns)
 * and the layout `initCards` applies to them. Cards stay in the document when
 * they are swiped away, so a card is identified by its position in `dom`.
 */
module CardStack {
  import opened CardLayout

  /** One card element: its `removed` and `moving` classes, whether `display` is `none`, and its pose. */
  datatype CardState = CardState(removed: bool, moving: bool, hidden: bool, pose: Transform)

  /** Positions of the cards without the `removed` class, in document order. */
  function Visible(dom: seq<CardState>): (v: seq<nat>)
    ensures |v| <= |dom|
    ensures forall k :: 0 <= k < |v| ==> v[k] < |dom| && !dom[v[k]].removed
    decreases |dom|
  {
    if dom == [] then []
    else
      var rest := Visible(dom[..|dom| - 1]);
      if dom[|dom| - 1].removed then rest else rest + [|dom| - 1]
  }

  /** The list holds every card that is not removed, and in document order. */
  lemma {:induction false} VisibleExactly(dom: seq<CardState>)
    ensures forall j :: 0 <= j < |dom| ==> (j in Visible(dom) <==> !dom[j].removed)
    ensures forall a, b :: 0 <= a < b < |Visible(dom)| ==> Visible(dom)[a] < Visible(dom)[b]
    decreases |dom|
  {
    if dom != [] {
      var front := dom[..|dom| - 1];
      VisibleExactly(front);
      forall j | 0 <= j < |front| ensures front[j] == dom[j] { }
    }
  }

  /** No card is listed twice. */
  lemma VisibleDistinct(dom: seq<CardState>)
    ensures forall a, b :: 0 <= a < |Visible(dom)| && 0 <= b < |Visible(dom)| && a != b ==> Visible(dom)[a] != Visible(dom)[b]
  {
    VisibleExactly(dom);
  }

  /** Which cards are listed depends on the `removed` flags alone. */
  lemma {:induction false} VisibleFlagsOnly(d1: seq<CardState>, d2: seq<CardState>)
    requires |d1| == |d2|
    requires forall j :: 0 <= j < |d1| ==> d1[j].removed == d2[j].removed
    ensures Visible(d1) == Visible(d2)
    decreases |d1|
  {
    if d1 != [] {
      VisibleFlagsOnly(d1[..|d1| - 1], d2[..|d2| - 1]);
    }
  }

  /** The cards listed before position `j` are a prefix of the whole list. */
  lemma {:induction false} VisiblePrefix(dom: seq<CardState>, j: nat)
    requires j <= |dom|
    ensures Visible(dom[..j]) <= Visible(dom)
    decreases |dom|
  {
    if j < |dom| {
      var front := dom[..|dom| - 1];
      assert front[..j] == dom[..j];
      VisiblePrefix(front, j);
    } else {
      assert dom[..j] == dom;
    }
  }

  /** Number of listed cards before position `j`: the stack position of card `j`. */
  function Rank(dom: seq<CardState>, j: nat): (r: nat)
    requires j <= |dom|
    ensures r <= j
  {
    |Visible(dom[..j])|
  }

  /** A card that is not removed stands in the list at its rank. */
  lemma VisibleAtRank(dom: seq<CardState>, j: nat)
    requires j < |dom| && !dom[j].removed
    ensures Rank(dom, j) < |Visible(dom)| && Visible(dom)[Rank(dom, j)] == j
  {
    var upTo := dom[..j + 1];
    assert upTo[..j] == dom[..j];
    assert Visible(upTo) == Visible(dom[..j]) + [j];
    VisiblePrefix(dom, j + 1);
  }

  /** The card at stack position `i` has rank `i`. */
  lemma RankOfVisible(dom: seq<CardState>, i: nat)
    requires i < |Visible(dom)|
    ensures Rank(dom, Visible(dom)[i]) == i
  {
    var v := Visible(dom);
    VisibleExactly(dom);
    VisibleAtRank(dom, v[i]);
  }

  /**
   * The effect of `initCards` on the cards: every listed card gets the resting
   * pose of its stack position; removed cards are left as they are.
   */
  function Relayout(dom: seq<CardState>): (r: seq<CardState>)
    ensures |r| == |dom|
    ensures forall j :: 0 <= j < |dom| ==>
      r[j].removed == dom[j].removed && r[j].moving == dom[j].moving && r[j].hidden == dom[j].hidden
    ensures forall j :: 0 <= j < |dom| && dom[j].removed ==> r[j] == dom[j]
  {
    var count := |Visible(dom)|;
    seq(|dom|, j requires 0 <= j < |dom| =>
      if dom[j].removed then dom[j] else dom[j].(pose := RestingPose(Rank(dom, j), count)))
  }

  /** After the layout, the card at stack position `i` of `n` has `RestingPose(i, n)`. */
  lemma RelayoutAt(dom: seq<CardState>, i: nat)
    requires i < |Visible(dom)|
    ensures Relayout(dom)[Visible(dom)[i]] == dom[Visible(dom)[i]].(pose := RestingPose(i, |Visible(dom)|))
  {
    RankOfVisible(dom, i);
  }

  /** Each card listed in `stack` holds the resting pose of its position there. */
  ghost predicate LaidOut(dom: seq<CardState>, stack: seq<nat>) {
    forall i :: 0 <= i < |stack| ==> stack[i] < |dom| && dom[stack[i]].pose == RestingPose(i, |stack|)
  }

  /** The layout gives every position of the stack its resting pose. */
  lemma RelayoutStack(dom: seq<CardState>)
    ensures LaidOut(Relayout(dom), Visible(dom))
  {
    forall i | 0 <= i < |Visible(dom)|
      ensures Relayout(dom)[Visible(dom)[i]].pose == RestingPose(i, |Visible(dom)|)
    {
      RelayoutAt(dom, i);
    }
  }

  /**
   * A sequence that gives each listed card the resting pose of its position
   * and leaves every removed card alone is the layout.
   */
  lemma RelayoutPointwise(dom: seq<CardState>, r: seq<CardState>)
    requires |r| == |dom|
    requires forall k :: 0 <= k < |Visible(dom)| ==>
      r[Visible(dom)[k]] == dom[Visible(dom)[k]].(pose := RestingPose(k, |Visible(dom)|))
    requires forall j :: 0 <= j < |dom| && dom[j].removed ==> r[j] == dom[j]
    ensures r == Relayout(dom)
  {
    forall j | 0 <= j < |dom| ensures r[j] == Relayout(dom)[j] {
      if !dom[j].removed {
        VisibleAtRank(dom, j);
        RelayoutAt(dom, Rank(dom, j));
      }
    }
  }

  /**
   * The `forEach` of `initCards`: walks the listed cards in order and sets
   * each one's pose from its position.
   */
  method PoseStack(dom: seq<CardState>) returns (laid: seq<CardState>)
    ensures laid == Relayout(dom)
  {
    var visible := Visible(dom);
    VisibleDistinct(dom);
    var count := |visible|;
    laid := dom;
    for index := 0 to count
      invariant |laid| == |dom|
      invariant forall k :: 0 <= k < count ==>
        laid[visible[k]] == if k < index then dom[visible[k]].(pose := RestingPose(k, count)) else dom[visible[k]]
      invariant forall j :: 0 <= j < |laid| && dom[j].removed ==> laid[j] == dom[j]
    {
      var card := visible[index];
      laid := laid[card := laid[card].(pose := RestingPose(index, count))];
    }
    RelayoutPointwise(dom, laid);
  }

  /** Laying out a stack that is already laid out changes nothing. */
  lemma RelayoutIdempotent(dom: seq<CardState>)
    ensures Relayout(Relayout(dom)) == Relayout(dom)
  {
    var once := Relayout(dom);
    VisibleFlagsOnly(once, dom);
    forall j | 0 <= j <= |dom| ensures Rank(once, j) == Rank(dom, j) {
      VisibleFlagsOnly(once[..j], dom[..j]);
    }
  }

  /**
   * Removing a listed card takes exactly that card out of the list and keeps
   * the order of the others.
   */
  lemma {:induction false} VisibleAfterRemoval(dom: seq<CardState>, j: nat, c: CardState)
    requires j < |dom| && !dom[j].removed && c.removed
    ensures Rank(dom, j) < |Visible(dom)|
    ensures Visible(dom[j := c]) == Visible(dom)[..Rank(dom, j)] + Visible(dom)[Rank(dom, j) + 1..]
    decreases |dom|
  {
    VisibleAtRank(dom, j);
    var after := dom[j := c];
    var last := |dom| - 1;
    var front := dom[..last];
    if j == last {
      RemoveLast(dom, c);
    } else {
      var r := Rank(dom, j);
      assert after[..last] == front[j := c];
      assert front[..j] == dom[..j];
      assert Rank(front, j) == r;
      VisibleAfterRemoval(front, j, c);
      var listed, shorter := Visible(front), Visible(front[j := c]);
      var tail := if dom[last].removed then [] else [last];
      assert Visible(dom) == listed + tail;
      assert Visible(after) == shorter + tail;
      DropThenAppend(listed, r, tail);
    }
  }

  /** Marking the last card removed, when it was listed, drops the last entry of the list. */
  lemma RemoveLast(dom: seq<CardState>, c: CardState)
    requires dom != [] && !dom[|dom| - 1].removed && c.removed
    ensures Visible(dom[|dom| - 1 := c]) == Visible(dom)[..Rank(dom, |dom| - 1)]
    ensures Rank(dom, |dom| - 1) + 1 == |Visible(dom)|
  {
    var last := |dom| - 1;
    var after := dom[last := c];
    assert after[..last] == dom[..last];
  }

  /** Dropping an element of `s` and then appending `tail` is appending and then dropping. */
  lemma DropThenAppend(s: seq<nat>, r: nat, tail: seq<nat>)
    requires r < |s|
    ensures (s + tail)[..r] + (s + tail)[r + 1..] == s[..r] + s[r + 1..] + tail
  {
    assert (s + tail)[..r] == s[..r];
    assert (s + tail)[r + 1..] == s[r + 1..] + tail;
  }

  /**
   * Replacing card `j` by `c`, which is removed when `marks` holds and keeps
   * the flag of card `j` otherwise: a listed card that gets marked leaves the
   * list, and otherwise the list stays as it is.
   */
  lemma VisibleAfterMark(dom: seq<CardState>, j: nat, c: CardState, marks: bool)
    requires j < |dom| && c.removed == (marks || dom[j].removed)
    ensures
      var before := Visible(dom);
      var at := IndexOf(before, j);
      Visible(dom[j := c]) == if marks && at >= 0 then before[..at] + before[at + 1..] else before
  {
    IndexOfVisible(dom, j);
    if marks && !dom[j].removed {
      VisibleAfterRemoval(dom, j, c);
    } else {
      VisibleFlagsOnly(dom[j := c], dom);
    }
  }

  /**
   * What the completion of an exit tween does to the cards before they are
   * laid out again: card `j` is hidden, and removed when `marks` holds.
   */
  function Discard(dom: seq<CardState>, j: nat, marks: bool): (r: seq<CardState>)
    requires j < |dom|
    ensures |r| == |dom| && r[j].hidden && r[j].removed == (marks || dom[j].removed)
    ensures r[j].pose == dom[j].pose && r[j].moving == dom[j].moving
    ensures forall i :: 0 <= i < |dom| && i != j ==> r[i] == dom[i]
  {
    dom[j := dom[j].(removed := marks || dom[j].removed, hidden := true)]
  }

  /**
   * After a completion and the layout that follows it, the list is the old
   * list without the card when the completion removed a listed card, and the
   * old list otherwise; a removed card is not listed; every listed card holds
   * the pose of its new position.
   */
  lemma DiscardThenRelayout(dom: seq<CardState>, j: nat, marks: bool)
    requires j < |dom|
    ensures
      var after := Discard(dom, j, marks);
      var before := Visible(dom);
      var at := IndexOf(before, j);
      && Visible(after) == (if marks && at >= 0 then before[..at] + before[at + 1..] else before)
      && Visible(Relayout(after)) == Visible(after)
      && LaidOut(Relayout(after), Visible(after))
      && Relayout(after)[j].hidden
      && Relayout(after)[j].removed == (marks || dom[j].removed)
      && (Relayout(after)[j].removed ==> j !in Visible(after))
  {
    var after := Discard(dom, j, marks);
    VisibleAfterMark(dom, j, after[j], marks);
    assert dom[j := after[j]] == after;
    VisibleFlagsOnly(Relayout(after), after);
    RelayoutStack(after);
    VisibleExactly(after);
  }

  /** The top card's removal leaves the rest of the list. */
  lemma RemoveTop(dom: seq<CardState>, c: CardState)
    requires Visible(dom) != [] && c.removed
    ensures Visible(dom[Visible(dom)[0] := c]) == Visible(dom)[1..]
  {
    var top := Visible(dom)[0];
    RankOfVisible(dom, 0);
    VisibleAfterRemoval(dom, top, c);
  }

  /**
   * `list.indexOf(card)`: the first position holding `card`, or -1 when it is
   * absent.
   */
  function IndexOf(s: seq<nat>, x: nat): (r: int)
    ensures -1 <= r < |s|
    ensures r == -1 <==> x !in s
    ensures r >= 0 ==> s[r] == x && x !in s[..r]
  {
    if s == [] then -1
    else if s[0] == x then 0
    else
      var rest := IndexOf(s[1..], x);
      assert s[1..] == s[1..][..|s| - 1];
      if rest == -1 then -1
      else
        assert s[..rest + 1] == [s[0]] + s[1..][..rest];
        rest + 1
  }

  /** `indexOf` on the list finds a listed card at its rank. */
  lemma IndexOfVisible(dom: seq<CardState>, j: nat)
    requires j < |dom|
    ensures !dom[j].removed ==> IndexOf(Visible(dom), j) == Rank(dom, j)
    ensures dom[j].removed ==> IndexOf(Visible(dom), j) == -1
  {
    VisibleExactly(dom);
    if !dom[j].removed {
      VisibleAtRank(dom, j);
    }
  }

  /** A listed card snaps back to the rotation the layout gives its position. */
  lemma ListedRotation(dom: seq<CardState>, j: nat)
    requires j < |dom| && !dom[j].removed
    ensures RestingRotation(IndexOf(Visible(dom), j)) == Relayout(dom)[j].pose.rotation
  {
    IndexOfVisible(dom, j);
    var rank := Rank(dom, j);
    assert Relayout(dom)[j] == dom[j].(pose := RestingPose(rank, |Visible(dom)|));
  }

  /**
   * The rotation a snap-back restores: for a listed card, the rotation the
   * layout gives its position; for a removed card, 0.
   */
  lemma SnapBackRotation(dom: seq<CardState>, j: nat)
    requires j < |dom|
    ensures !dom[j].removed ==> RestingRotation(IndexOf(Visible(dom), j)) == Relayout(dom)[j].pose.rotation
    ensures dom[j].removed ==> RestingRotation(IndexOf(Visible(dom), j)) == 0.0
  {
    if !dom[j].removed {
      ListedRotation(dom, j);
    } else {
      IndexOfVisible(dom, j);
      assert RestingRotation(-1) == 0.0;
    }
  }
}
