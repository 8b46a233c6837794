/** Rectangles assigned to the leaves of a layout, and what holds of them for every tree and viewport. */
module LayoutGeometry {
  import opened Arith
  import opened LayoutTree

  datatype Rect = Rect(x: nat, y: nat, w: nat, h: nat)

  datatype Placed = Placed(id: PaneId, rect: Rect)

  /** The part of `vp` that starts at `pos` and is `len` long along the split axis. */
  function Slot(o: Orient, vp: Rect, pos: nat, len: nat): Rect {
    match o
    case Vertical => Rect(pos, vp.y, len, vp.h)
    case Horizontal => Rect(vp.x, pos, vp.w, len)
  }

  function Start(o: Orient, r: Rect): nat { if o == Vertical then r.x else r.y }

  function Extent(o: Orient, r: Rect): nat { if o == Vertical then r.w else r.h }

  /** The extent across the split axis. */
  function Cross(o: Orient, r: Rect): nat { if o == Vertical then r.h else r.w }

  /** The length given to a child of weight `w`. */
  function Length(extent: nat, w: nat, total: nat): nat
    requires total > 0
  {
    extent * w / total
  }

  function Leaves(n: LayoutNode, vp: Rect): seq<Placed>
    decreases n, 1
  {
    match n
    case Leaf(id) => [Placed(id, vp)]
    case Split(o, cs) => Place(cs, o, vp, Max(TotalWeight(cs), 1), Start(o, vp))
  }

  /** The leaves of children laid out one after the other from `pos`. */
  function Place(cs: seq<Child>, o: Orient, vp: Rect, total: nat, pos: nat): seq<Placed>
    requires total > 0
    decreases cs, 0
  {
    if cs == [] then [] else
      assert cs[0].node < cs[0];
      var len := Length(Extent(o, vp), cs[0].weight, total);
      Leaves(cs[0].node, Slot(o, vp, pos, len)) + Place(cs[1..], o, vp, total, pos + len)
  }

  /** The loops of the source, which accumulate the position of the next child and the output. */
  method LeavesInner(n: LayoutNode, vp: Rect) returns (out: seq<Placed>)
    ensures out == Leaves(n, vp)
    decreases n
  {
    match n
    case Leaf(id) =>
      out := [Placed(id, vp)];
    case Split(o, cs) =>
      out := [];
      var total := TotalWeight(cs);
      total := Max(total, 1);
      var pos: nat := Start(o, vp);
      for i := 0 to |cs|
        invariant out + Place(cs[i..], o, vp, total, pos) == Leaves(n, vp)
      {
        assert cs[i..][0] == cs[i] && cs[i..][1..] == cs[i + 1..];
        assert cs[i].node < cs[i];
        var len := Extent(o, vp) * cs[i].weight / total;
        var placed := LeavesInner(cs[i].node, Slot(o, vp, pos, len));
        out := out + placed;
        pos := pos + len;
      }
  }

  /** The first rectangle recorded for `target`. */
  function RectFor(n: LayoutNode, vp: Rect, target: PaneId): Option<Rect> {
    FindRect(Leaves(n, vp), target)
  }

  function FindRect(ps: seq<Placed>, target: PaneId): (r: Option<Rect>)
    ensures r == None ==> forall k :: 0 <= k < |ps| ==> ps[k].id != target
    ensures r.Some? ==> Placed(target, r.value) in ps
  {
    if ps == [] then None
    else if ps[0].id == target then Some(ps[0].rect)
    else
      var r := FindRect(ps[1..], target);
      assert ps == [ps[0]] + ps[1..];
      r
  }

  function Ids(ps: seq<Placed>): (s: seq<PaneId>) {
    seq(|ps|, i requires 0 <= i < |ps| => ps[i].id)
  }

  // ---- Identity: the same panes in the same order ----

  lemma {:induction false} LeavesKeepOrder(n: LayoutNode, vp: Rect)
    ensures Ids(Leaves(n, vp)) == AllLeaves(n)
    decreases n, 1
  {
    if n.Split? {
      PlaceKeepsOrder(n.children, n.orient, vp, Max(TotalWeight(n.children), 1), Start(n.orient, vp));
    }
  }

  lemma {:induction false} PlaceKeepsOrder(cs: seq<Child>, o: Orient, vp: Rect, total: nat, pos: nat)
    requires total > 0
    ensures Ids(Place(cs, o, vp, total, pos)) == LeavesOf(cs)
    decreases cs, 0
  {
    if cs != [] {
      assert cs[0].node < cs[0];
      var len := Length(Extent(o, vp), cs[0].weight, total);
      LeavesKeepOrder(cs[0].node, Slot(o, vp, pos, len));
      PlaceKeepsOrder(cs[1..], o, vp, total, pos + len);
    }
  }

  lemma FindsFirst(ps: seq<Placed>, target: PaneId)
    ensures FindRect(ps, target)
         == if target in Ids(ps) then Some(ps[IndexOf(Ids(ps), target)].rect) else None
  {
    if ps != [] {
      assert Ids(ps)[1..] == Ids(ps[1..]) && Ids(ps) == [ps[0].id] + Ids(ps[1..]);
      FindsFirst(ps[1..], target);
    }
  }

  /** The rectangle of a pane is that of its first occurrence; with distinct panes it is the only one. */
  lemma RectForIff(n: LayoutNode, vp: Rect, target: PaneId)
    ensures RectFor(n, vp, target).Some? <==> target in AllLeaves(n)
    ensures target in AllLeaves(n) ==>
              && IndexOf(AllLeaves(n), target) < |Leaves(n, vp)|
              && RectFor(n, vp, target) == Some(Leaves(n, vp)[IndexOf(AllLeaves(n), target)].rect)
    ensures Distinct(AllLeaves(n)) ==>
              forall r :: RectFor(n, vp, target) == Some(r) <==> Placed(target, r) in Leaves(n, vp)
  {
    var ps := Leaves(n, vp);
    LeavesKeepOrder(n, vp);
    FindsFirst(ps, target);
    assert forall k :: 0 <= k < |ps| ==> ps[k].id == AllLeaves(n)[k];
    if Distinct(AllLeaves(n)) {
      forall r | Placed(target, r) in ps ensures RectFor(n, vp, target) == Some(r) {
        var k :| 0 <= k < |ps| && ps[k] == Placed(target, r);
        var j :| 0 <= j < |ps| && ps[j] == Placed(target, RectFor(n, vp, target).value);
        assert AllLeaves(n)[k] == AllLeaves(n)[j];
      }
    }
  }

  // ---- Containment and separation ----

  ghost predicate Within(r: Rect, vp: Rect) {
    && vp.x <= r.x && r.x + r.w <= vp.x + vp.w
    && vp.y <= r.y && r.y + r.h <= vp.y + vp.h
  }

  /** `a` lies wholly to the left of `b`, or wholly above it. */
  ghost predicate Precedes(a: Rect, b: Rect) {
    a.x + a.w <= b.x || a.y + a.h <= b.y
  }

  ghost predicate AllWithin(ps: seq<Placed>, vp: Rect) {
    forall k :: 0 <= k < |ps| ==> Within(ps[k].rect, vp)
  }

  /** Leaves earlier in depth-first order precede later ones on the screen. */
  ghost predicate Ordered(ps: seq<Placed>) {
    forall i, j :: 0 <= i < j < |ps| ==> Precedes(ps[i].rect, ps[j].rect)
  }

  /** The length consumed by all the children of a split. */
  function Used(cs: seq<Child>, extent: nat, total: nat): nat
    requires total > 0
  {
    if cs == [] then 0 else Length(extent, cs[0].weight, total) + Used(cs[1..], extent, total)
  }

  /** The floors lose less than one unit per child. */
  lemma {:induction false} UsedBounds(cs: seq<Child>, extent: nat, total: nat)
    requires total > 0
    ensures Used(cs, extent, total) * total <= extent * TotalWeight(cs)
    ensures cs != [] ==> extent * TotalWeight(cs) < (Used(cs, extent, total) + |cs|) * total
  {
    if cs != [] {
      var w, len, rest := cs[0].weight, Length(extent, cs[0].weight, total), Used(cs[1..], extent, total);
      UsedBounds(cs[1..], extent, total);
      DivBounds(extent * w, total);
      MulDist(w, TotalWeight(cs[1..]), extent);
      MulDist(len, rest, total);
      MulDist(len + 1, rest + |cs[1..]|, total);
      assert len + 1 + (rest + |cs[1..]|) == Used(cs, extent, total) + |cs|;
    }
  }

  lemma UsedFits(cs: seq<Child>, extent: nat)
    ensures Used(cs, extent, Max(TotalWeight(cs), 1)) <= extent
  {
    var total := Max(TotalWeight(cs), 1);
    UsedBounds(cs, extent, total);
    MulMono(TotalWeight(cs), total, extent);
    if Used(cs, extent, total) > extent {
      MulMono(extent + 1, Used(cs, extent, total), total);
      assert false;
    }
  }

  lemma UsedNearlyAll(cs: seq<Child>, extent: nat)
    requires TotalWeight(cs) > 0
    ensures extent - |cs| + 1 <= Used(cs, extent, TotalWeight(cs)) <= extent
  {
    UsedFits(cs, extent);
    UsedBounds(cs, extent, TotalWeight(cs));
    if Used(cs, extent, TotalWeight(cs)) + |cs| <= extent {
      MulMono(Used(cs, extent, TotalWeight(cs)) + |cs|, extent, TotalWeight(cs));
      assert false;
    }
  }

  lemma SlotArea(o: Orient, vp: Rect, pos: nat, len: nat)
    ensures Slot(o, vp, pos, len).w * Slot(o, vp, pos, len).h == len * Cross(o, vp)
    ensures vp.w * vp.h == Extent(o, vp) * Cross(o, vp)
  {
  }

  /** For every tree and viewport, each leaf lies inside the viewport and any two leaves are separated along
      one axis, the earlier one first. */
  lemma {:induction false} LeavesGeometry(n: LayoutNode, vp: Rect)
    ensures AllWithin(Leaves(n, vp), vp)
    ensures Ordered(Leaves(n, vp))
    decreases n, 1
  {
    if n.Split? {
      var o, cs := n.orient, n.children;
      var total := Max(TotalWeight(cs), 1);
      UsedFits(cs, Extent(o, vp));
      PlaceGeometry(cs, o, vp, total, Start(o, vp));
      var region := Slot(o, vp, Start(o, vp), Used(cs, Extent(o, vp), total));
      assert forall r :: Within(r, region) ==> Within(r, vp);
    }
  }

  lemma {:induction false} PlaceGeometry(cs: seq<Child>, o: Orient, vp: Rect, total: nat, pos: nat)
    requires total > 0
    ensures AllWithin(Place(cs, o, vp, total, pos), Slot(o, vp, pos, Used(cs, Extent(o, vp), total)))
    ensures Ordered(Place(cs, o, vp, total, pos))
    decreases cs, 0
  {
    if cs != [] {
      assert cs[0].node < cs[0];
      var len := Length(Extent(o, vp), cs[0].weight, total);
      var first, rest := Leaves(cs[0].node, Slot(o, vp, pos, len)), Place(cs[1..], o, vp, total, pos + len);
      LeavesGeometry(cs[0].node, Slot(o, vp, pos, len));
      PlaceGeometry(cs[1..], o, vp, total, pos + len);
      var all := Place(cs, o, vp, total, pos);
      assert all == first + rest;
      forall i, j | 0 <= i < j < |all| ensures Precedes(all[i].rect, all[j].rect) {
        if i < |first| <= j {
          assert all[j] == rest[j - |first|];
        } else if |first| <= i {
          assert all[i] == rest[i - |first|] && all[j] == rest[j - |first|];
        }
      }
    }
  }

  // ---- How much of the viewport is covered ----

  function Area(ps: seq<Placed>): nat {
    if ps == [] then 0 else ps[0].rect.w * ps[0].rect.h + Area(ps[1..])
  }

  lemma AreaConcat(a: seq<Placed>, b: seq<Placed>)
    ensures Area(a + b) == Area(a) + Area(b)
  {
    if a == [] {
      assert a + b == b;
    } else {
      assert (a + b)[1..] == a[1..] + b;
      AreaConcat(a[1..], b);
    }
  }

  /** Every split has a child and a positive total weight. */
  ghost predicate Solid(n: LayoutNode)
    decreases n, 1
  {
    n.Split? ==> n.children != [] && TotalWeight(n.children) > 0 && SolidAll(n.children)
  }

  ghost predicate SolidAll(cs: seq<Child>)
    decreases cs, 0
  {
    cs == [] || (assert cs[0].node < cs[0]; Solid(cs[0].node) && SolidAll(cs[1..]))
  }

  /** Rounding down leaves uncovered at most one strip per leaf after the first. */
  lemma {:induction false} AreaBound(n: LayoutNode, vp: Rect, side: nat)
    requires Solid(n) && vp.w <= side && vp.h <= side
    ensures |AllLeaves(n)| >= 1
    ensures Area(Leaves(n, vp)) >= vp.w * vp.h - (|AllLeaves(n)| - 1) * side
    decreases n, 1
  {
    match n
    case Leaf(id) =>
      assert Area(Leaves(n, vp)) == vp.w * vp.h + Area([]);
    case Split(o, cs) =>
      var total, extent := TotalWeight(cs), Extent(o, vp);
      UsedNearlyAll(cs, extent);
      PlaceArea(cs, o, vp, total, Start(o, vp), side);
      StripsAndLost(cs, extent, total, Cross(o, vp), side);
      SlotArea(o, vp, 0, 0);
      LostStrips(extent, Used(cs, extent, total), |cs|, |LeavesOf(cs)|, Cross(o, vp), side);
  }

  /** Arithmetic of one split: `used` of `extent` is handed to children that lose `leaves - k` strips. */
  lemma LostStrips(extent: nat, used: nat, k: nat, leaves: nat, cross: nat, side: nat)
    requires extent - k + 1 <= used && 1 <= k <= leaves && cross <= side
    ensures used * cross - (leaves - k) * side >= extent * cross - (leaves - 1) * side
  {
    MulMono(extent - (k - 1), used, cross);
    MulMono(cross, side, k - 1);
    MulDist(extent, -(k - 1), cross);
    MulDist(leaves - k, k - 1, side);
  }

  /** The areas handed to the children, and the strips lost inside them. */
  function Strips(cs: seq<Child>, extent: nat, total: nat, cross: nat): nat
    requires total > 0
  {
    if cs == [] then 0 else Length(extent, cs[0].weight, total) * cross + Strips(cs[1..], extent, total, cross)
  }

  function Lost(cs: seq<Child>, side: nat): int {
    if cs == [] then 0 else (|AllLeaves(cs[0].node)| - 1) * side + Lost(cs[1..], side)
  }

  lemma StripsAndLost(cs: seq<Child>, extent: nat, total: nat, cross: nat, side: nat)
    requires total > 0
    ensures Strips(cs, extent, total, cross) == Used(cs, extent, total) * cross
    ensures Lost(cs, side) == (|LeavesOf(cs)| - |cs|) * side
  {
    if cs != [] {
      StripsAndLost(cs[1..], extent, total, cross, side);
      MulDist(Length(extent, cs[0].weight, total), Used(cs[1..], extent, total), cross);
      MulDist(|AllLeaves(cs[0].node)| - 1, |LeavesOf(cs[1..])| - |cs[1..]|, side);
    }
  }

  lemma {:induction false} PlaceArea(cs: seq<Child>, o: Orient, vp: Rect, total: nat, pos: nat, side: nat)
    requires SolidAll(cs) && total > 0 && vp.w <= side && vp.h <= side
    requires Used(cs, Extent(o, vp), total) <= Extent(o, vp)
    ensures |LeavesOf(cs)| >= |cs|
    ensures Area(Place(cs, o, vp, total, pos)) >= Strips(cs, Extent(o, vp), total, Cross(o, vp)) - Lost(cs, side)
    decreases cs, 0
  {
    if cs != [] {
      assert cs[0].node < cs[0];
      var len := Length(Extent(o, vp), cs[0].weight, total);
      var slot := Slot(o, vp, pos, len);
      ChildArea(cs[0].node, o, vp, pos, len, side);
      PlaceArea(cs[1..], o, vp, total, pos + len, side);
      AreaConcat(Leaves(cs[0].node, slot), Place(cs[1..], o, vp, total, pos + len));
    }
  }

  lemma {:induction false} ChildArea(n: LayoutNode, o: Orient, vp: Rect, pos: nat, len: nat, side: nat)
    requires Solid(n) && vp.w <= side && vp.h <= side && len <= Extent(o, vp)
    ensures |AllLeaves(n)| >= 1
    ensures Area(Leaves(n, Slot(o, vp, pos, len))) >= len * Cross(o, vp) - (|AllLeaves(n)| - 1) * side
    decreases n, 2
  {
    AreaBound(n, Slot(o, vp, pos, len), side);
    SlotArea(o, vp, pos, len);
  }

  // ---- The smallest a leaf can become ----

  /** For each leaf, in order, the number of splits of orientation `o` above it. */
  function Depths(n: LayoutNode, o: Orient): seq<nat>
    decreases n, 1
  {
    match n
    case Leaf(_) => [0]
    case Split(o', cs) => DepthsOf(cs, o, if o == o' then 1 else 0)
  }

  function DepthsOf(cs: seq<Child>, o: Orient, add: nat): seq<nat>
    decreases cs, 0
  {
    if cs == [] then [] else
      assert cs[0].node < cs[0];
      Deeper(Depths(cs[0].node, o), add) + DepthsOf(cs[1..], o, add)
  }

  function Deeper(ds: seq<nat>, add: nat): seq<nat> {
    seq(|ds|, i requires 0 <= i < |ds| => ds[i] + add)
  }

  /** Every child has at least a twentieth of the total weight of its split. */
  ghost predicate Weighty(n: LayoutNode)
    decreases n, 1
  {
    n.Split? ==> TotalWeight(n.children) > 0 && WeightyAll(n.children, TotalWeight(n.children))
  }

  ghost predicate WeightyAll(cs: seq<Child>, total: nat)
    decreases cs, 0
  {
    cs == [] ||
    (assert cs[0].node < cs[0]; 20 * cs[0].weight >= total && Weighty(cs[0].node) && WeightyAll(cs[1..], total))
  }

  function Pow20(d: nat): (p: nat)
    ensures p > 0
  {
    if d == 0 then 1 else 20 * Pow20(d - 1)
  }

  /** Each leaf keeps at least the floor of a 20^d-th of `extent`, where d is its depth. */
  ghost predicate Large(ps: seq<Placed>, ds: seq<nat>, o: Orient, extent: nat) {
    |ds| == |ps| && forall k :: 0 <= k < |ps| ==> Extent(o, ps[k].rect) >= extent / Pow20(ds[k])
  }

  /** A leaf below `d` splits of an orientation keeps at least the floor of a 20^d-th of the extent. */
  lemma {:induction false} SizeBound(n: LayoutNode, vp: Rect, o: Orient)
    requires Weighty(n)
    ensures Large(Leaves(n, vp), Depths(n, o), o, Extent(o, vp))
    decreases n, 1
  {
    if n.Split? {
      var cs, total := n.children, TotalWeight(n.children);
      PlaceSizeBound(cs, n.orient, vp, total, Start(n.orient, vp), o);
    }
  }

  lemma {:induction false} PlaceSizeBound(
      cs: seq<Child>, o': Orient, vp: Rect, total: nat, pos: nat, o: Orient)
    requires total > 0 && WeightyAll(cs, total)
    ensures Large(Place(cs, o', vp, total, pos), DepthsOf(cs, o, if o == o' then 1 else 0), o, Extent(o, vp))
    decreases cs, 0
  {
    if cs != [] {
      assert cs[0].node < cs[0];
      var add := if o == o' then 1 else 0;
      var len := Length(Extent(o', vp), cs[0].weight, total);
      var slot := Slot(o', vp, pos, len);
      SizeBound(cs[0].node, slot, o);
      PlaceSizeBound(cs[1..], o', vp, total, pos + len, o);
      var ps, ds := Leaves(cs[0].node, slot), Depths(cs[0].node, o);
      if o == o' {
        LargeInSlot(ps, ds, o, Extent(o, vp), cs[0].weight, total);
      }
      LargeConcat(ps, Deeper(ds, add), Place(cs[1..], o', vp, total, pos + len), DepthsOf(cs[1..], o, add),
                  o, Extent(o, vp));
    }
  }

  lemma LargeInSlot(ps: seq<Placed>, ds: seq<nat>, o: Orient, extent: nat, w: nat, total: nat)
    requires total > 0 && 20 * w >= total && Large(ps, ds, o, Length(extent, w, total))
    ensures Large(ps, Deeper(ds, 1), o, extent)
  {
    forall k | 0 <= k < |ps| ensures Extent(o, ps[k].rect) >= extent / Pow20(Deeper(ds, 1)[k]) {
      TwentiethKept(extent, w, total, ds[k]);
    }
  }

  lemma LargeConcat(ps: seq<Placed>, ds: seq<nat>, ps': seq<Placed>, ds': seq<nat>, o: Orient, extent: nat)
    requires Large(ps, ds, o, extent) && Large(ps', ds', o, extent)
    ensures Large(ps + ps', ds + ds', o, extent)
  {
  }

  lemma TwentiethKept(extent: nat, w: nat, total: nat, d: nat)
    requires total > 0 && 20 * w >= total
    ensures Length(extent, w, total) / Pow20(d) >= extent / Pow20(d + 1)
  {
    var q := extent / 20;
    DivBounds(extent, 20);
    // (extent / 20) * total <= extent * w
    MulMono(q * 20, extent, w);
    MulMono(total, 20 * w, q);
    assert q * (20 * w) == (q * 20) * w;
    DivLargest(extent * w, total, q);
    DivMono(q, Length(extent, w, total), Pow20(d));
    DivDiv(extent, 20, Pow20(d));
  }

  // ---- Window layouts meet the hypotheses above ----

  lemma {:induction false} BinaryIsSolid(n: LayoutNode)
    requires Binary(n)
    ensures Solid(n) && Weighty(n)
    decreases n
  {
    if n.Split? {
      var cs := n.children;
      assert cs[0].node < cs[0] && cs[1].node < cs[1];
      BinaryIsSolid(cs[0].node);
      BinaryIsSolid(cs[1].node);
      LeavesOfTwo(cs);
      assert cs[1..][0] == cs[1] && cs[1..][1..] == [];
      assert SolidAll(cs[1..]) && WeightyAll(cs[1..], 100);
    }
  }

  /** For every window layout: the covered area, and the smallest width and height of each leaf. */
  lemma CoverageOfWindows(n: LayoutNode, vp: Rect)
    requires Good(n)
    ensures Area(Leaves(n, vp)) >= vp.w * vp.h - (|AllLeaves(n)| - 1) * Max(vp.w, vp.h)
    ensures |Leaves(n, vp)| == |AllLeaves(n)| == |Depths(n, Vertical)| == |Depths(n, Horizontal)|
    ensures forall k :: 0 <= k < |AllLeaves(n)| ==>
              && Leaves(n, vp)[k].rect.w >= vp.w / Pow20(Depths(n, Vertical)[k])
              && Leaves(n, vp)[k].rect.h >= vp.h / Pow20(Depths(n, Horizontal)[k])
  {
    BinaryIsSolid(n);
    LeavesKeepOrder(n, vp);
    AreaBound(n, vp, Max(vp.w, vp.h));
    SizeBound(n, vp, Vertical);
    SizeBound(n, vp, Horizontal);
    assert forall k :: 0 <= k < |AllLeaves(n)| ==>
             && Leaves(n, vp)[k].rect.w == Extent(Vertical, Leaves(n, vp)[k].rect)
             && Leaves(n, vp)[k].rect.h == Extent(Horizontal, Leaves(n, vp)[k].rect);
  }
}
