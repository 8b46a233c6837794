/** Where a split puts its children: strip by strip, in coordinates. */
module LayoutStrips {
  import opened Arith
  import opened LayoutTree
  import opened LayoutGeometry

  /** The floored lengths, in order, of children that share `extent` by their weights. */
  function Lengths(cs: seq<Child>, extent: nat, total: nat): (r: seq<int>)
    requires total > 0
    ensures |r| == |cs| && forall i :: 0 <= i < |cs| ==> r[i] == extent * cs[i].weight / total && r[i] >= 0
  {
    seq(|cs|, i requires 0 <= i < |cs| => Length(extent, cs[i].weight, total))
  }

  lemma {:induction false} SumNatural(ls: seq<int>)
    requires forall i :: 0 <= i < |ls| ==> ls[i] >= 0
    ensures Sum(ls) >= 0
  {
    if ls != [] {
      SumNatural(ls[1..]);
    }
  }

  /** The slot that child `i` gets when the children are laid out from `pos`. */
  function SlotOf(cs: seq<Child>, o: Orient, vp: Rect, total: nat, pos: nat, i: nat): Rect
    requires total > 0 && i < |cs|
  {
    SumNatural(Lengths(cs, Extent(o, vp), total)[..i]);
    Slot(o, vp, pos + Sum(Lengths(cs, Extent(o, vp), total)[..i]), Extent(o, vp) * cs[i].weight / total)
  }

  lemma SlotOfTail(cs: seq<Child>, o: Orient, vp: Rect, total: nat, pos: nat, i: nat)
    requires total > 0 && 0 < i < |cs|
    ensures SlotOf(cs, o, vp, total, pos, i)
         == SlotOf(cs[1..], o, vp, total, pos + Length(Extent(o, vp), cs[0].weight, total), i - 1)
  {
    var ls := Lengths(cs, Extent(o, vp), total);
    assert ls[..i][0] == ls[0] && ls[..i][1..] == Lengths(cs[1..], Extent(o, vp), total)[..i - 1];
  }

  lemma SliceAfter<T>(head: seq<T>, rest: seq<T>, first: nat, mine: seq<T>)
    requires first + |mine| <= |rest| && rest[first..first + |mine|] == mine
    ensures (head + rest)[|head| + first..|head| + first + |mine|] == mine
  {
  }

  lemma PlaceCons(cs: seq<Child>, o: Orient, vp: Rect, total: nat, pos: nat)
    requires total > 0 && cs != []
    ensures var len := Length(Extent(o, vp), cs[0].weight, total);
            var mine := Leaves(cs[0].node, SlotOf(cs, o, vp, total, pos, 0));
            && Place(cs, o, vp, total, pos) == mine + Place(cs[1..], o, vp, total, pos + len)
            && |mine| == |AllLeaves(cs[0].node)|
  {
    LeavesKeepOrder(cs[0].node, SlotOf(cs, o, vp, total, pos, 0));
  }

  /** The leaves of child `i` come after those of the children before it, and fill its slot. */
  lemma {:induction false} PlaceAt(cs: seq<Child>, o: Orient, vp: Rect, total: nat, pos: nat, i: nat)
    requires total > 0 && i < |cs|
    ensures var mine, all := Leaves(cs[i].node, SlotOf(cs, o, vp, total, pos, i)), Place(cs, o, vp, total, pos);
            var first := |LeavesOf(cs[..i])|;
            first + |mine| <= |all| && all[first..first + |mine|] == mine
    decreases i
  {
    PlaceCons(cs, o, vp, total, pos);
    var head := Leaves(cs[0].node, SlotOf(cs, o, vp, total, pos, 0));
    if i > 0 {
      var next := pos + Length(Extent(o, vp), cs[0].weight, total);
      PlaceAt(cs[1..], o, vp, total, next, i - 1);
      SlotOfTail(cs, o, vp, total, pos, i);
      LeavesBefore(cs, i);
      SliceAfter(head, Place(cs[1..], o, vp, total, next), |LeavesOf(cs[1..][..i - 1])|,
        Leaves(cs[i].node, SlotOf(cs, o, vp, total, pos, i)));
    }
  }

  lemma LeavesBefore(cs: seq<Child>, i: nat)
    requires 0 < i <= |cs|
    ensures LeavesOf(cs[..i]) == AllLeaves(cs[0].node) + LeavesOf(cs[1..][..i - 1])
  {
    assert cs[..i][0] == cs[0] && cs[..i][1..] == cs[1..][..i - 1];
  }

  /** The sum of the weights, at least 1. */
  function Total(cs: seq<Child>): (total: nat)
    ensures total > 0 && total == if Sum(Weights(cs)) > 0 then Sum(Weights(cs)) else 1
  {
    TotalIsSum(cs);
    Max(TotalWeight(cs), 1)
  }

  lemma {:induction false} TotalIsSum(cs: seq<Child>)
    ensures TotalWeight(cs) == Sum(Weights(cs))
  {
    if cs != [] {
      assert Weights(cs)[1..] == Weights(cs[1..]);
      TotalIsSum(cs[1..]);
    }
  }

  /** Child `i` of a split gets one strip. Side by side, it starts after the floored widths of the children before it,
      is as wide as the floor of the width times its weight over the total, and keeps the full height; stacked, the
      same with heights. The leaves of the child, in order and with no others in between, are placed as if the strip
      were their viewport, so they stay inside it, and a child that is a single pane is exactly the strip. */
  lemma ChildStrip(n: LayoutNode, vp: Rect, i: nat)
    requires n.Split? && i < |n.children|
    ensures var cs, side := n.children, n.orient == Vertical;
            var ls := Lengths(cs, if side then vp.w else vp.h, Total(cs));
            var before := Sum(ls[..i]);
            var first, len := |LeavesOf(cs[..i])|, |AllLeaves(cs[i].node)|;
            && before >= 0 && first + len <= |Leaves(n, vp)|
            && var strip :=
                 if side then Rect(vp.x + before, vp.y, ls[i], vp.h) else Rect(vp.x, vp.y + before, vp.w, ls[i]);
            && var mine := Leaves(n, vp)[first..first + len];
            && mine == Leaves(cs[i].node, strip)
            && (cs[i].node.Leaf? ==> mine == [Placed(cs[i].node.id, strip)])
            && forall k :: 0 <= k < len ==>
                 var r := mine[k].rect;
                 && strip.x <= r.x && r.x + r.w <= strip.x + strip.w
                 && strip.y <= r.y && r.y + r.h <= strip.y + strip.h
  {
    var cs, o := n.children, n.orient;
    var strip := SlotOf(cs, o, vp, Total(cs), Start(o, vp), i);
    SumNatural(Lengths(cs, Extent(o, vp), Total(cs))[..i]);
    PlaceAt(cs, o, vp, Total(cs), Start(o, vp), i);
    var mine := Leaves(cs[i].node, strip);
    LeavesKeepOrder(cs[i].node, strip);
    LeavesGeometry(cs[i].node, strip);
    assert |mine| == |AllLeaves(cs[i].node)|;
  }

  /** The panes of child `i`, between those of the children before it and after it. */
  lemma {:induction false} LeavesOfChild(cs: seq<Child>, i: nat)
    requires i < |cs|
    ensures LeavesOf(cs) == LeavesOf(cs[..i]) + AllLeaves(cs[i].node) + LeavesOf(cs[i + 1..])
  {
    if i == 0 {
      assert LeavesOf(cs[..0]) == [];
    } else {
      LeavesOfChild(cs[1..], i - 1);
      assert cs[..i][0] == cs[0] && cs[..i][1..] == cs[1..][..i - 1] && cs[i + 1..] == cs[1..][i..];
    }
  }

  /** The panes of a layout, child by child. */
  lemma PanesOfSplit(n: LayoutNode, i: nat)
    requires n.Split? && i < |n.children|
    ensures AllLeaves(n) == LeavesOf(n.children[..i]) + AllLeaves(n.children[i].node) + LeavesOf(n.children[i + 1..])
    ensures forall p: PaneId :: AllLeaves(Leaf(p)) == [p]
  {
    LeavesOfChild(n.children, i);
  }

  /** 70 and 30 side by side in 100 by 50: the panes are 70 and 30 wide. */
  lemma SeventyThirty()
    ensures Leaves(Split(Vertical, [Child(Leaf(0), 70), Child(Leaf(1), 30)]), Rect(0, 0, 100, 50))
         == [Placed(0, Rect(0, 0, 70, 50)), Placed(1, Rect(70, 0, 30, 50))]
  {
    var cs := [Child(Leaf(0), 70), Child(Leaf(1), 30)];
    assert cs[1..] == [Child(Leaf(1), 30)] && cs[1..][1..] == [];
    LeavesOfTwo(cs);
    assert Place(cs[1..], Vertical, Rect(0, 0, 100, 50), 100, 70) == [Placed(1, Rect(70, 0, 30, 50))] + [];
  }
}
