/** Everything that can happen to the layout of a window, as a cell updated in place and as runs of edits. */
module LayoutRuns {
  import opened Arith
  import opened LayoutTree
  import opened LayoutEdits
  import opened LayoutWeights
  import opened LayoutDrag

  datatype Edit =
    | SplitPane(focused: PaneId, added: PaneId, orient: Orient)
    | ClosePane(pane: PaneId)
    | SetPaneWeight(target: PaneId, request: u16)
    | DragBoundary(left: PaneId, right: PaneId, start: u16, percent: int)

  /** New panes get ids that are not in use, and a boundary lies between two different panes. */
  ghost predicate Allowed(n: LayoutNode, e: Edit) {
    match e
    case SplitPane(_, added, _) => added !in AllLeaves(n)
    case DragBoundary(l, r, _, _) => l != r
    case _ => true
  }

  function Apply(n: LayoutNode, e: Edit): LayoutNode {
    match e
    case SplitPane(f, added, o) => SplitInner(n, f, added, o).0
    case ClosePane(p) => Close(n, p).0
    case SetPaneWeight(p, w) => SetWeightInner(n, p, w).0
    case DragBoundary(l, r, start, percent) => Drag(n, l, r, start, percent)
  }

  function Run(n: LayoutNode, es: seq<Edit>): LayoutNode
    decreases |es|
  {
    if es == [] then n else Run(Apply(n, es[0]), es[1..])
  }

  ghost predicate AllAllowed(n: LayoutNode, es: seq<Edit>)
    decreases |es|
  {
    es == [] || (Allowed(n, es[0]) && AllAllowed(Apply(n, es[0]), es[1..]))
  }

  lemma ApplyKeepsGood(n: LayoutNode, e: Edit)
    requires Good(n) && Allowed(n, e)
    ensures Good(Apply(n, e))
  {
    match e
    case SplitPane(f, added, o) =>
      SplitKeepsGood(n, f, added, o);
    case ClosePane(p) =>
      CloseKeepsGood(n, p);
    case SetPaneWeight(p, w) =>
      SetWeightOnWindow(n, p, w);
      SameShapeSameLeaves(n, Apply(n, e));
    case DragBoundary(l, r, start, percent) =>
      var left := Clamp(start + percent, 5, 95);
      DragOnWindow(n, l, r, left, 100 - left);
      SameShapeSameLeaves(n, Apply(n, e));
  }

  /** Every layout reachable from one pane has distinct panes, two children per split, and sibling weights in
      [5, 95] that sum to 100. */
  lemma ReachableIsGood(first: PaneId, es: seq<Edit>)
    requires AllAllowed(Leaf(first), es)
    ensures Good(Run(Leaf(first), es))
  {
    RunKeepsGood(Leaf(first), es);
  }

  lemma {:induction false} RunKeepsGood(n: LayoutNode, es: seq<Edit>)
    requires Good(n) && AllAllowed(n, es)
    ensures Good(Run(n, es))
    decreases |es|
  {
    if es != [] {
      ApplyKeepsGood(n, es[0]);
      RunKeepsGood(Apply(n, es[0]), es[1..]);
    }
  }

  /** The layout of one window, which the daemon and the clients edit in place. */
  class Window {
    var layout: LayoutNode

    constructor (first: PaneId)
      ensures layout == Leaf(first) && Good(layout)
    {
      layout := Leaf(first);
    }

    method SplitFocused(f: PaneId, added: PaneId, o: Orient)
      modifies this
      ensures layout == SplitInner(old(layout), f, added, o).0
      ensures AllLeaves(layout) == InsertAfter(old(AllLeaves(layout)), f, added)
      ensures old(Good(layout)) && added !in old(AllLeaves(layout)) ==> Good(layout)
    {
      SplitInsertsAfter(layout, f, added, o);
      if Good(layout) && added !in AllLeaves(layout) {
        SplitKeepsGood(layout, f, added, o);
      }
      var n, _ := SplitFocusedInner(layout, f, added, o);
      layout := n;
    }

    method ClosePane(p: PaneId) returns (focus: Option<PaneId>)
      modifies this
      ensures (layout, focus) == Close(old(layout), p)
      ensures old(Distinct(AllLeaves(layout))) ==> p !in AllLeaves(layout) || AllLeaves(layout) == [p]
      ensures old(Good(layout)) ==> Good(layout)
    {
      if Good(layout) {
        CloseKeepsGood(layout, p);
      }
      if Distinct(AllLeaves(layout)) {
        CloseLaw(layout, p);
        RemoveFilters(layout, p);
      }
      var all := AllLeaves(layout);
      var pos := IndexOf(all, p);
      if pos == |all| || |all| == 1 {
        return None;
      }
      var n, _ := RemoveLeafInner(layout, p);
      layout := n;
      var remaining := AllLeaves(layout);
      var at := if pos > 0 then pos - 1 else 0;
      focus := if at < |remaining| then Some(remaining[at]) else None;
    }

    method SetPaneWeight(p: PaneId, request: u16)
      modifies this
      ensures layout == SetWeightInner(old(layout), p, request).0
      ensures old(Good(layout)) ==> Good(layout) && SameShape(old(layout), layout)
    {
      if Good(layout) {
        ApplyKeepsGood(layout, Edit.SetPaneWeight(p, request));
        SetWeightOnWindow(layout, p, request);
      }
      var n, _ := SetWeight(layout, p, request);
      layout := n;
    }

    method ApplyDragWeights(l: PaneId, r: PaneId, start: u16, percent: int)
      modifies this
      ensures layout == Drag(old(layout), l, r, start, percent)
      ensures old(Good(layout)) && l != r ==> Good(layout) && SameShape(old(layout), layout)
      ensures old(Good(layout)) && l != r ==>
                var before, after, moved := old(Slots(layout)), Slots(layout), start + percent;
                var left := if moved < 5 then 5 else if moved > 95 then 95 else moved;
                |after| == |before| && forall k :: 0 <= k < |before| ==>
                  var s := before[k];
                  after[k] == if s.panes == [l] && s.beside == [r] then Slot([l], [r], left)
                              else if s.panes == [r] && s.beside == [l] then Slot([r], [l], 100 - left)
                              else s
    {
      var left: u16 := Clamp(start + percent, 5, 95);
      if Good(layout) && l != r {
        ApplyKeepsGood(layout, DragBoundary(l, r, start, percent));
        DragOnWindow(layout, l, r, left, 100 - left);
        DragFollowsMouse(layout, l, r, start, percent);
      }
      var right: u16 := 100 - left;
      var n, _ := ApplyWeightsForPair(layout, l, r, left, right);
      layout := n;
    }
  }
}
