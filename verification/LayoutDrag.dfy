/** What dragging the boundary between two panes changes, and what it leaves alone. */
module LayoutDrag {
  import opened Arith
  import opened LayoutTree
  import opened LayoutWeights

  /** A child of a split: its panes, those of its sibling, and its weight. */
  datatype Slot = Slot(panes: seq<PaneId>, beside: seq<PaneId>, weight: int)

  /** All children of all splits of a window layout, from the root down. */
  ghost function Slots(n: LayoutNode): seq<Slot>
    requires Binary(n)
  {
    match n
    case Leaf(_) => []
    case Split(_, cs) => RootSlots(cs) + Slots(cs[0].node) + Slots(cs[1].node)
  }

  function RootSlots(cs: seq<Child>): seq<Slot>
    requires |cs| == 2
  {
    var a, b := AllLeaves(cs[0].node), AllLeaves(cs[1].node);
    [Slot(a, b, cs[0].weight), Slot(b, a, cs[1].weight)]
  }

  /** The slot of the single pane `l` beside the single pane `r`. */
  predicate Beside(s: Slot, l: PaneId, r: PaneId) {
    s.panes == [l] && s.beside == [r]
  }

  /** What becomes of a slot: only the two that lie directly beside each other get the new weights. */
  function Dragged(s: Slot, l: PaneId, r: PaneId, wl: int, wr: int): Slot {
    if Beside(s, l, r) then s.(weight := wl) else if Beside(s, r, l) then s.(weight := wr) else s
  }

  ghost predicate AllDragged(a: seq<Slot>, b: seq<Slot>, l: PaneId, r: PaneId, wl: int, wr: int) {
    |a| == |b| && forall k :: 0 <= k < |a| ==> b[k] == Dragged(a[k], l, r, wl, wr)
  }

  lemma DraggedConcat(
      a: seq<Slot>, a': seq<Slot>, b: seq<Slot>, b': seq<Slot>, l: PaneId, r: PaneId, wl: int, wr: int)
    requires AllDragged(a, a', l, r, wl, wr) && AllDragged(b, b', l, r, wl, wr)
    ensures AllDragged(a + b, a' + b', l, r, wl, wr)
  {
  }

  /** The panes of a slot are panes of the layout. */
  lemma {:induction false} SlotPanes(n: LayoutNode, k: nat, p: PaneId)
    requires Binary(n) && k < |Slots(n)| && (p in Slots(n)[k].panes || p in Slots(n)[k].beside)
    ensures p in AllLeaves(n)
    decreases n
  {
    var cs := n.children;
    LeavesOfTwo(cs);
    assert cs[0].node < cs[0] && cs[1].node < cs[1];
    var first := |Slots(cs[0].node)|;
    if 2 <= k < 2 + first {
      SlotPanes(cs[0].node, k - 2, p);
    } else if 2 + first <= k {
      SlotPanes(cs[1].node, k - 2 - first, p);
    }
  }

  /** Where `l` does not occur nothing is dragged. */
  lemma NothingToDrag(n: LayoutNode, l: PaneId, r: PaneId, wl: int, wr: int)
    requires Binary(n) && l !in AllLeaves(n)
    ensures AllDragged(Slots(n), Slots(n), l, r, wl, wr)
    ensures forall k :: 0 <= k < |Slots(n)| ==> !Beside(Slots(n)[k], l, r)
  {
    forall k | 0 <= k < |Slots(n)| ensures !Beside(Slots(n)[k], l, r) && !Beside(Slots(n)[k], r, l) {
      BesideHas(Slots(n)[k], l, r);
      BesideHas(Slots(n)[k], r, l);
      if l in Slots(n)[k].panes || l in Slots(n)[k].beside {
        SlotPanes(n, k, l);
      }
    }
  }

  lemma BesideHas(s: Slot, l: PaneId, r: PaneId)
    ensures Beside(s, l, r) ==> l in s.panes && r in s.beside
  {
  }

  lemma {:induction false} SolePane(n: LayoutNode, p: PaneId)
    requires Binary(n)
    ensures AllLeaves(n) != []
    ensures AllLeaves(n) == [p] <==> n == Leaf(p)
    decreases n
  {
    if n.Split? {
      LeavesOfTwo(n.children);
      assert n.children[0].node < n.children[0] && n.children[1].node < n.children[1];
      SolePane(n.children[0].node, p);
      SolePane(n.children[1].node, p);
    }
  }

  /** Some slot of the layout is `l` beside `r`. */
  ghost predicate HasPair(n: LayoutNode, l: PaneId, r: PaneId)
    requires Binary(n)
  {
    Among(Slots(n), l, r)
  }

  lemma HasPairIff(n: LayoutNode, l: PaneId, r: PaneId)
    requires Binary(n) && n.Split?
    ensures HasPair(n, l, r)
       <==> (exists s :: s in RootSlots(n.children) && Beside(s, l, r))
            || HasPair(n.children[0].node, l, r) || HasPair(n.children[1].node, l, r)
  {
    var root, a, b := RootSlots(n.children), Slots(n.children[0].node), Slots(n.children[1].node);
    Assoc(root, a, b);
    AmongIff(root, a + b, l, r);
    AmongIff(a, b, l, r);
    AmongMembers(root, l, r);
  }

  lemma AmongMembers(s: seq<Slot>, l: PaneId, r: PaneId)
    ensures Among(s, l, r) <==> exists t :: t in s && Beside(t, l, r)
  {
    if t :| t in s && Beside(t, l, r) {
      var k :| 0 <= k < |s| && s[k] == t;
    }
    if k :| 0 <= k < |s| && Beside(s[k], l, r) {
      assert s[k] in s;
    }
  }

  ghost predicate Among(s: seq<Slot>, l: PaneId, r: PaneId) {
    exists k :: 0 <= k < |s| && Beside(s[k], l, r)
  }

  lemma AmongIff(a: seq<Slot>, b: seq<Slot>, l: PaneId, r: PaneId)
    ensures Among(a + b, l, r) <==> Among(a, l, r) || Among(b, l, r)
  {
    if k :| 0 <= k < |a + b| && Beside((a + b)[k], l, r) {
      assert if k < |a| then Beside(a[k], l, r) else Beside(b[k - |a|], l, r);
    }
    if k :| 0 <= k < |a| && Beside(a[k], l, r) {
      assert Beside((a + b)[k], l, r);
    }
    if k :| 0 <= k < |b| && Beside(b[k], l, r) {
      assert Beside((a + b)[|a| + k], l, r);
    }
  }

  /** Both panes are direct children of this split. */
  predicate PairHere(cs: seq<Child>, l: PaneId, r: PaneId) {
    LastLeaf(cs, l).Some? && LastLeaf(cs, r).Some?
  }

  lemma PairHereIff(n: LayoutNode, l: PaneId, r: PaneId)
    requires Binary(n) && n.Split? && l != r
    ensures PairHere(n.children, l, r) <==> exists s :: s in RootSlots(n.children) && Beside(s, l, r)
    ensures PairHere(n.children, l, r) <==> exists s :: s in RootSlots(n.children) && Beside(s, r, l)
  {
    var cs := n.children;
    SolePane(cs[0].node, l);
    SolePane(cs[0].node, r);
    SolePane(cs[1].node, l);
    SolePane(cs[1].node, r);
    var root := RootSlots(cs);
    assert root[0] in root && root[1] in root;
    if PairHere(cs, l, r) {
      assert Beside(root[LastLeaf(cs, l).value], l, r) && Beside(root[LastLeaf(cs, r).value], r, l);
    }
  }

  /** The drag finds its pair in the split of which both are direct children. */
  lemma DragHere(n: LayoutNode, l: PaneId, r: PaneId, wl: u16, wr: u16)
    requires Binary(n) && n.Split? && l != r && 5 <= wl <= 95 && wl + wr == 100 && PairHere(n.children, l, r)
    ensures var (n', hit) := ApplyPair(n, l, r, wl, wr);
            hit && Binary(n') && AllDragged(Slots(n), Slots(n'), l, r, wl, wr)
  {
    var cs, cs' := n.children, ApplyPair(n, l, r, wl, wr).0.children;
    var i, j := LastLeaf(cs, l).value, LastLeaf(cs, r).value;
    SolePane(cs[i].node, l);
    SolePane(cs[j].node, r);
    assert cs'[i] == Child(Leaf(l), wl) && cs'[j] == Child(Leaf(r), wr) && |cs'| == 2;
    assert Slots(n) == RootSlots(cs) && Slots(n.(children := cs')) == RootSlots(cs');
  }

  /** Otherwise it looks in the first child, and in the second if there is nothing in the first. */
  lemma DragBelow(n: LayoutNode, l: PaneId, r: PaneId, wl: u16, wr: u16)
    requires Binary(n) && n.Split? && !PairHere(n.children, l, r)
    ensures var cs := n.children;
            var (a, hitA), (b, hitB) := ApplyPair(cs[0].node, l, r, wl, wr), ApplyPair(cs[1].node, l, r, wl, wr);
            ApplyPair(n, l, r, wl, wr)
              == (Split(n.orient, [Child(a, cs[0].weight), Child(if hitA then cs[1].node else b, cs[1].weight)]),
                  hitA || hitB)
  {
    var cs := n.children;
    var tail := cs[1..];
    assert tail == [cs[1]] && tail[1..] == [];
    var (a, hitA) := ApplyPair(cs[0].node, l, r, wl, wr);
    var (b, hitB) := ApplyPair(cs[1].node, l, r, wl, wr);
    assert ApplyPairFirst(tail[1..], l, r, wl, wr) == ([], false);
    var second := [Child(b, cs[1].weight)];
    assert second + [] == second;
    assert ApplyPairFirst(tail, l, r, wl, wr) == (second, hitB);
    assert [Child(a, cs[0].weight)] + tail == [Child(a, cs[0].weight), cs[1]];
    assert [Child(a, cs[0].weight)] + second == [Child(a, cs[0].weight), second[0]];
  }

  /** On a window layout a drag finds its pair exactly when the two panes lie directly beside each other. Then these two
      get the new weights; every other weight, and the whole tree, stays. */
  lemma {:induction false} DragChanges(n: LayoutNode, l: PaneId, r: PaneId, wl: u16, wr: u16)
    requires Good(n) && l != r && 5 <= wl <= 95 && wl + wr == 100
    ensures Binary(ApplyPair(n, l, r, wl, wr).0) && SameShape(n, ApplyPair(n, l, r, wl, wr).0)
    ensures AllDragged(Slots(n), Slots(ApplyPair(n, l, r, wl, wr).0), l, r, wl, wr)
    ensures ApplyPair(n, l, r, wl, wr).1 <==> HasPair(n, l, r)
    decreases n
  {
    DragOnWindow(n, l, r, wl, wr);
    if n.Split? {
      HasPairIff(n, l, r);
      PairHereIff(n, l, r);
      if PairHere(n.children, l, r) {
        DragHere(n, l, r, wl, wr);
      } else {
        DragDeeper(n, l, r, wl, wr);
      }
    }
  }

  lemma {:induction false} DragDeeper(n: LayoutNode, l: PaneId, r: PaneId, wl: u16, wr: u16)
    requires Good(n) && n.Split? && l != r && 5 <= wl <= 95 && wl + wr == 100 && !PairHere(n.children, l, r)
    ensures Binary(ApplyPair(n, l, r, wl, wr).0)
    ensures AllDragged(Slots(n), Slots(ApplyPair(n, l, r, wl, wr).0), l, r, wl, wr)
    ensures ApplyPair(n, l, r, wl, wr).1
       <==> HasPair(n.children[0].node, l, r) || HasPair(n.children[1].node, l, r)
    decreases n, 0
  {
    var cs := n.children;
    assert cs[0].node < cs[0] && cs[1].node < cs[1];
    LeavesOfTwo(cs);
    DistinctConcat(AllLeaves(cs[0].node), AllLeaves(cs[1].node));
    DragOnWindow(n, l, r, wl, wr);
    DragBelow(n, l, r, wl, wr);
    DragChanges(cs[0].node, l, r, wl, wr);
    DragChanges(cs[1].node, l, r, wl, wr);
    var cs' := ApplyPair(n, l, r, wl, wr).0.children;
    SecondChild(cs, cs', l, r, wl, wr);
    RootStays(n, cs', l, r, wl, wr);
    DraggedConcat(RootSlots(cs), RootSlots(cs'), Slots(cs[0].node), Slots(cs'[0].node), l, r, wl, wr);
    DraggedConcat(RootSlots(cs) + Slots(cs[0].node), RootSlots(cs') + Slots(cs'[0].node),
                  Slots(cs[1].node), Slots(cs'[1].node), l, r, wl, wr);
  }

  /** When the pair is in the first child it is not in the second, so not looking there changes nothing. */
  lemma SecondChild(cs: seq<Child>, cs': seq<Child>, l: PaneId, r: PaneId, wl: u16, wr: u16)
    requires |cs| == |cs'| == 2 && Binary(cs[0].node) && Binary(cs[1].node)
    requires forall p :: p in AllLeaves(cs[0].node) ==> p !in AllLeaves(cs[1].node)
    requires ApplyPair(cs[0].node, l, r, wl, wr).1 <==> HasPair(cs[0].node, l, r)
    requires cs'[1].node == if ApplyPair(cs[0].node, l, r, wl, wr).1 then cs[1].node
                            else ApplyPair(cs[1].node, l, r, wl, wr).0
    requires Binary(ApplyPair(cs[1].node, l, r, wl, wr).0)
    requires AllDragged(Slots(cs[1].node), Slots(ApplyPair(cs[1].node, l, r, wl, wr).0), l, r, wl, wr)
    ensures AllDragged(Slots(cs[1].node), Slots(cs'[1].node), l, r, wl, wr)
  {
    if HasPair(cs[0].node, l, r) {
      var k :| 0 <= k < |Slots(cs[0].node)| && Beside(Slots(cs[0].node)[k], l, r);
      assert l in Slots(cs[0].node)[k].panes;
      SlotPanes(cs[0].node, k, l);
      NothingToDrag(cs[1].node, l, r, wl, wr);
    }
  }

  lemma RootStays(n: LayoutNode, cs': seq<Child>, l: PaneId, r: PaneId, wl: u16, wr: u16)
    requires Binary(n) && n.Split? && |cs'| == 2 && l != r && !PairHere(n.children, l, r)
    requires forall i :: 0 <= i < 2 ==>
               cs'[i].weight == n.children[i].weight && SameShape(n.children[i].node, cs'[i].node)
    ensures AllDragged(RootSlots(n.children), RootSlots(cs'), l, r, wl, wr)
  {
    PairHereIff(n, l, r);
    SameShapeSameLeaves(n.children[0].node, cs'[0].node);
    SameShapeSameLeaves(n.children[1].node, cs'[1].node);
    var root := RootSlots(n.children);
    assert root[0] in root && root[1] in root;
  }

  /** A drag between two panes that lie beside each other moves the boundary with the mouse: the pane in front ends at
      the weight it started from plus the distance moved, held in [5, 95], and the one behind at the rest of 100. Every
      other slot stays. */
  lemma DragFollowsMouse(n: LayoutNode, l: PaneId, r: PaneId, start: u16, percent: int)
    requires Good(n) && l != r
    ensures Binary(Drag(n, l, r, start, percent))
    ensures var before, after, moved := Slots(n), Slots(Drag(n, l, r, start, percent)), start + percent;
            var left := if moved < 5 then 5 else if moved > 95 then 95 else moved;
            |after| == |before| && forall k :: 0 <= k < |before| ==>
              var s := before[k];
              after[k] == if s.panes == [l] && s.beside == [r] then Slot([l], [r], left)
                          else if s.panes == [r] && s.beside == [l] then Slot([r], [l], 100 - left)
                          else s
  {
    var left := Clamp(start + percent, 5, 95);
    DragChanges(n, l, r, left, 100 - left);
  }

  // ---- On any tree ----

  /** The children of every split, from the root down, depth first. */
  function Splits(n: LayoutNode): seq<seq<Child>>
    decreases n, 1
  {
    match n
    case Leaf(_) => []
    case Split(_, cs) => [cs] + SplitsBelow(cs)
  }

  function SplitsBelow(cs: seq<Child>): seq<seq<Child>>
    decreases cs, 0
  {
    if cs == [] then [] else
      assert cs[0].node < cs[0];
      Splits(cs[0].node) + SplitsBelow(cs[1..])
  }

  function WeightLists(ss: seq<seq<Child>>): seq<seq<int>> {
    if ss == [] then [] else [Weights(ss[0])] + WeightLists(ss[1..])
  }

  /** Some split has both panes as direct children. */
  predicate Found(ss: seq<seq<Child>>, l: PaneId, r: PaneId) {
    ss != [] && (PairHere(ss[0], l, r) || Found(ss[1..], l, r))
  }

  /** The weights after the last child that is `l`, and the last that is `r`, got new ones. */
  function PairWeights(cs: seq<Child>, l: PaneId, r: PaneId, wl: u16, wr: u16): seq<int>
    requires PairHere(cs, l, r)
  {
    Weights(cs)[LastLeaf(cs, l).value := wl][LastLeaf(cs, r).value := wr]
  }

  /** All weights after the drag: those of the pair in the first split that has it change. */
  function DraggedLists(ss: seq<seq<Child>>, l: PaneId, r: PaneId, wl: u16, wr: u16): seq<seq<int>> {
    if ss == [] then []
    else if PairHere(ss[0], l, r) then [PairWeights(ss[0], l, r, wl, wr)] + WeightLists(ss[1..])
    else [Weights(ss[0])] + DraggedLists(ss[1..], l, r, wl, wr)
  }

  lemma {:induction false} ListsConcat(a: seq<seq<Child>>, b: seq<seq<Child>>)
    ensures WeightLists(a + b) == WeightLists(a) + WeightLists(b)
  {
    if a == [] {
      assert a + b == b;
    } else {
      assert (a + b)[1..] == a[1..] + b;
      ListsConcat(a[1..], b);
    }
  }

  lemma {:induction false} FoundConcat(a: seq<seq<Child>>, b: seq<seq<Child>>, l: PaneId, r: PaneId)
    ensures Found(a + b, l, r) <==> Found(a, l, r) || Found(b, l, r)
  {
    if a == [] {
      assert a + b == b;
    } else {
      assert (a + b)[1..] == a[1..] + b;
      FoundConcat(a[1..], b, l, r);
    }
  }

  lemma {:induction false} DraggedListsConcat(
      a: seq<seq<Child>>, b: seq<seq<Child>>, l: PaneId, r: PaneId, wl: u16, wr: u16)
    ensures DraggedLists(a + b, l, r, wl, wr)
         == if Found(a, l, r) then DraggedLists(a, l, r, wl, wr) + WeightLists(b)
            else WeightLists(a) + DraggedLists(b, l, r, wl, wr)
  {
    if a == [] {
      assert a + b == b;
    } else {
      var s, t := a[0], a[1..];
      assert (a + b)[0] == s && (a + b)[1..] == t + b;
      if PairHere(s, l, r) {
        ListsConcat(t, b);
        Assoc([PairWeights(s, l, r, wl, wr)], WeightLists(t), WeightLists(b));
      } else {
        DraggedListsConcat(t, b, l, r, wl, wr);
        Assoc([Weights(s)], DraggedLists(t, l, r, wl, wr), WeightLists(b));
        Assoc([Weights(s)], WeightLists(t), DraggedLists(b, l, r, wl, wr));
      }
    }
  }

  lemma {:induction false} SameNodesSameSplits(cs: seq<Child>, ds: seq<Child>)
    requires |cs| == |ds| && forall i :: 0 <= i < |cs| ==> cs[i].node == ds[i].node
    ensures SplitsBelow(cs) == SplitsBelow(ds)
    decreases cs
  {
    if cs != [] {
      SameNodesSameSplits(cs[1..], ds[1..]);
    }
  }

  /** On every tree and for all weights a drag finds its pair if and only if both panes are direct children of one
      split, next to each other or not. In the first such split, depth first, the two get the new weights; every other
      weight of every split, and the tree, stays. */
  lemma {:induction false} DragAnywhere(n: LayoutNode, l: PaneId, r: PaneId, wl: u16, wr: u16)
    ensures SameShape(n, ApplyPair(n, l, r, wl, wr).0)
    ensures ApplyPair(n, l, r, wl, wr).1 <==> Found(Splits(n), l, r)
    ensures WeightLists(Splits(ApplyPair(n, l, r, wl, wr).0)) == DraggedLists(Splits(n), l, r, wl, wr)
    decreases n, 1
  {
    if n.Split? {
      var below := SplitsBelow(n.children);
      assert ([n.children] + below)[1..] == below;
      if PairHere(n.children, l, r) {
        DragAtRoot(n, l, r, wl, wr);
      } else {
        DragChildren(n.children, l, r, wl, wr);
        var cs' := ApplyPair(n, l, r, wl, wr).0.children;
        assert Weights(cs') == Weights(n.children);
        assert ([cs'] + SplitsBelow(cs'))[1..] == SplitsBelow(cs');
      }
    }
  }

  lemma DragAtRoot(n: LayoutNode, l: PaneId, r: PaneId, wl: u16, wr: u16)
    requires n.Split? && PairHere(n.children, l, r)
    ensures SameShape(n, ApplyPair(n, l, r, wl, wr).0) && ApplyPair(n, l, r, wl, wr).1
    ensures WeightLists(Splits(ApplyPair(n, l, r, wl, wr).0))
         == [PairWeights(n.children, l, r, wl, wr)] + WeightLists(SplitsBelow(n.children))
  {
    var cs, cs' := n.children, ApplyPair(n, l, r, wl, wr).0.children;
    RootPair(cs, cs', l, r, wl, wr);
    ShapesRefl(cs);
    SameNodesSameSplits(cs, cs');
    assert ([cs'] + SplitsBelow(cs'))[1..] == SplitsBelow(cs');
  }

  lemma RootPair(cs: seq<Child>, cs': seq<Child>, l: PaneId, r: PaneId, wl: u16, wr: u16)
    requires PairHere(cs, l, r) && cs' == SetPair(cs, LastLeaf(cs, l).value, LastLeaf(cs, r).value, wl, wr)
    ensures |cs'| == |cs| && (forall i :: 0 <= i < |cs| ==> cs'[i].node == cs[i].node)
    ensures Weights(cs') == PairWeights(cs, l, r, wl, wr)
  {
  }

  lemma {:induction false} DragChildren(cs: seq<Child>, l: PaneId, r: PaneId, wl: u16, wr: u16)
    ensures SameBelow(cs, ApplyPairFirst(cs, l, r, wl, wr).0)
    ensures ApplyPairFirst(cs, l, r, wl, wr).1 <==> Found(SplitsBelow(cs), l, r)
    ensures WeightLists(SplitsBelow(ApplyPairFirst(cs, l, r, wl, wr).0))
         == DraggedLists(SplitsBelow(cs), l, r, wl, wr)
    decreases cs, 0
  {
    if cs != [] {
      assert cs[0].node < cs[0];
      var (m, hit) := ApplyPair(cs[0].node, l, r, wl, wr);
      var tail := if hit then cs[1..] else ApplyPairFirst(cs[1..], l, r, wl, wr).0;
      DragAnywhere(cs[0].node, l, r, wl, wr);
      DragChildren(cs[1..], l, r, wl, wr);
      ShapesRefl(cs[1..]);
      FirstAndTail(cs, m, tail);
      ListsBelow(cs, m, tail, l, r, wl, wr);
    }
  }

  /** Where the pair is not found all weights stay. */
  lemma {:induction false} NotFound(ss: seq<seq<Child>>, l: PaneId, r: PaneId, wl: u16, wr: u16)
    requires !Found(ss, l, r)
    ensures DraggedLists(ss, l, r, wl, wr) == WeightLists(ss)
  {
    if ss != [] {
      NotFound(ss[1..], l, r, wl, wr);
    }
  }

  lemma ListsBelow(cs: seq<Child>, m: LayoutNode, tail: seq<Child>, l: PaneId, r: PaneId, wl: u16, wr: u16)
    requires cs != [] && WeightLists(Splits(m)) == DraggedLists(Splits(cs[0].node), l, r, wl, wr)
    requires if Found(Splits(cs[0].node), l, r) then tail == cs[1..]
             else WeightLists(SplitsBelow(tail)) == DraggedLists(SplitsBelow(cs[1..]), l, r, wl, wr)
    ensures WeightLists(Splits(m) + SplitsBelow(tail)) == DraggedLists(SplitsBelow(cs), l, r, wl, wr)
    ensures Found(SplitsBelow(cs), l, r) <==> Found(Splits(cs[0].node), l, r) || Found(SplitsBelow(cs[1..]), l, r)
  {
    var first, rest := Splits(cs[0].node), SplitsBelow(cs[1..]);
    assert SplitsBelow(cs) == first + rest;
    ListsConcat(Splits(m), SplitsBelow(tail));
    FoundConcat(first, rest, l, r);
    DraggedListsConcat(first, rest, l, r, wl, wr);
    if !Found(first, l, r) {
      NotFound(first, l, r, wl, wr);
    }
  }

  /** The same children with the same weights, up to weights further down. */
  ghost predicate SameBelow(cs: seq<Child>, ds: seq<Child>) {
    |cs| == |ds| && forall i :: 0 <= i < |cs| ==> cs[i].weight == ds[i].weight && SameShape(cs[i].node, ds[i].node)
  }

  lemma ShapesRefl(cs: seq<Child>)
    ensures SameBelow(cs, cs)
  {
    forall i | 0 <= i < |cs| ensures SameShape(cs[i].node, cs[i].node) {
      SameShapeRefl(cs[i].node);
    }
  }

  /** A changed first child in front of a changed tail. */
  lemma FirstAndTail(cs: seq<Child>, m: LayoutNode, tail: seq<Child>)
    requires cs != [] && SameBelow(cs[1..], tail) && SameShape(cs[0].node, m)
    ensures SameBelow(cs, [Child(m, cs[0].weight)] + tail)
    ensures SplitsBelow([Child(m, cs[0].weight)] + tail) == Splits(m) + SplitsBelow(tail)
  {
    var cs' := [Child(m, cs[0].weight)] + tail;
    assert cs'[1..] == tail;
    forall i | 0 < i < |cs| ensures cs[i].weight == cs'[i].weight && SameShape(cs[i].node, cs'[i].node) {
      assert cs[i] == cs[1..][i - 1] && cs'[i] == tail[i - 1];
    }
  }

  /** Three panes side by side: a drag between the outer two leaves the middle one alone, and the weights then sum to
      140. */
  lemma OuterPanesCanBeDragged()
    ensures ApplyPair(Split(Vertical, [Child(Leaf(0), 30), Child(Leaf(1), 40), Child(Leaf(2), 30)]), 0, 2, 20, 80)
         == (Split(Vertical, [Child(Leaf(0), 20), Child(Leaf(1), 40), Child(Leaf(2), 80)]), true)
  {
    var cs := [Child(Leaf(0), 30), Child(Leaf(1), 40), Child(Leaf(2), 30)];
    assert LastLeaf(cs, 0).Some? && LastLeaf(cs, 2).Some? by {
      assert cs[0].node == Leaf(0) && cs[2].node == Leaf(2);
    }
    assert LastLeaf(cs, 0) == Some(0) && LastLeaf(cs, 2) == Some(2);
    assert SetPair(cs, 0, 2, 20, 80) == [Child(Leaf(0), 20), Child(Leaf(1), 40), Child(Leaf(2), 80)];
  }
}
