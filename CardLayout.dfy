/**
 * The resting pose of a card in the swipe stack, computed from its position
 * in the list of cards that are not removed (position 0 is the top card).
 * These are the formulas of `initCards` in src/composables/useSwipeCards.js.
 */
module CardLayout {

  /** The properties the layout tween sets on a card. */
  datatype Transform = Transform(x: real, y: real, rotation: real, scale: real, opacity: real, zIndex: int)

  /** Resting rotations in degrees, alternating left and right. */
  const Rotations: seq<real> := [2.0, -1.5, 1.0, -0.5, 0.5, -0.3]

  function Max(a: real, b: real): real {
    if a >= b then a else b
  }

  /**
   * `index % rotations.length` as JavaScript computes it: division truncates,
   * so the remainder has the sign of the dividend.
   */
  function TableSlot(index: int): (k: int)
    ensures -6 < k < 6
    ensures index >= 0 ==> k == index % 6
    ensures index < 0 ==> k <= 0
    ensures k == 0 <==> index % 6 == 0
  {
    if index >= 0 then index % 6
    else
      var m := -index;
      assert m % 6 == 0 <==> index % 6 == 0 by {
        var q := m / 6;
        assert m == 6 * q + m % 6;
        assert index == 6 * -q - m % 6;
        if m % 6 == 0 {
          assert index == 6 * -q;
        } else {
          assert index == 6 * (-q - 1) + (6 - m % 6);
        }
      }
      -(m % 6)
  }

  /**
   * `rotations[index % rotations.length] || 0`. A negative index (the -1 that
   * `indexOf` returns for a card that is not in the list) gives a negative
   * remainder, an undefined table entry and so the fallback 0, unless the
   * remainder is -0, which reads entry 0.
   */
  function RestingRotation(index: int): (r: real)
    ensures index >= 0 ==> r == Rotations[index % |Rotations|]
    ensures r == 0.0 <==> index < 0 && index % |Rotations| != 0
    ensures -1.5 <= r <= 2.0
  {
    var k := TableSlot(index);
    if 0 <= k < |Rotations| && Rotations[k] != 0.0 then Rotations[k] else 0.0
  }

  /** The resting rotation repeats every six positions. */
  lemma {:induction false} RotationPeriodic(index: nat, periods: nat)
    ensures RestingRotation(index + periods * |Rotations|) == RestingRotation(index)
  {
    if periods > 0 {
      RotationPeriodic(index, periods - 1);
      var below := index + (periods - 1) * |Rotations|;
      assert index + periods * |Rotations| == below + |Rotations|;
      assert (below + |Rotations|) % |Rotations| == below % |Rotations|;
    }
  }

  /** Opacity: 1, 0.85, 0.7 for the first three positions, then 1 - 0.15 * index, floored at 0.5. */
  function Opacity(index: nat): (r: real)
    ensures 0.5 <= r <= 1.0
    ensures r == 1.0 <==> index == 0
  {
    if index == 0 then 1.0
    else if index == 1 then 0.85
    else if index == 2 then 0.7
    else Max(0.5, 1.0 - index as real * 0.15)
  }

  lemma OpacityNonIncreasing(i: nat, j: nat)
    requires i <= j
    ensures Opacity(j) <= Opacity(i)
  {
  }

  /** Scale: (20 - 0.6 * index) / 20, floored at 0.88. */
  function Scale(index: nat): (r: real)
    ensures 0.88 <= r <= 1.0
    ensures r == 1.0 <==> index == 0
  {
    Max(0.88, (20.0 - index as real * 0.6) / 20.0)
  }

  lemma ScaleNonIncreasing(i: nat, j: nat)
    requires i <= j
    ensures Scale(j) <= Scale(i)
  {
  }

  /** The pose `initCards` gives the card at `index` in a stack of `count` cards. */
  function RestingPose(index: nat, count: nat): (t: Transform)
    ensures 0.5 <= t.opacity <= 1.0 && 0.88 <= t.scale <= 1.0
    ensures t.rotation != 0.0
    ensures index < count ==> 1 <= t.zIndex <= count
    ensures index == 0 <==> t.x == 0.0
    ensures index == 0 ==> t == Transform(0.0, 0.0, 2.0, 1.0, 1.0, count)
  {
    Transform(
      x := index as real * 3.0,
      y := -35.0 * index as real,
      rotation := RestingRotation(index),
      scale := Scale(index),
      opacity := Opacity(index),
      zIndex := count - index)
  }

  /**
   * Deeper cards sit strictly lower in the stacking order, further up and to
   * the right, and are no larger and no more opaque than the cards above them.
   */
  lemma StackOrder(i: nat, j: nat, count: nat)
    requires i < j
    ensures RestingPose(j, count).zIndex < RestingPose(i, count).zIndex
    ensures RestingPose(j, count).y < RestingPose(i, count).y
    ensures RestingPose(i, count).x < RestingPose(j, count).x
    ensures RestingPose(j, count).scale <= RestingPose(i, count).scale
    ensures RestingPose(j, count).opacity <= RestingPose(i, count).opacity
  {
    OpacityNonIncreasing(i, j);
    ScaleNonIncreasing(i, j);
  }
}
