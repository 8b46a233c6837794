/** The browser-side copy of the layout tree and its pure edits, compared with the daemon's in-place edits. */
module LayoutMirror {
  import opened Arith
  import opened LayoutTree
  import opened LayoutEdits

  datatype MirrorNode =
    | MLeaf(pane: PaneId)
    | MSplit(dir: Orient, children: seq<MirrorNode>, weights: Option<seq<int>>)

  /** The daemon's tree as it reaches the browser. */
  function Mirror(n: LayoutNode): MirrorNode
    decreases n, 1
  {
    match n
    case Leaf(id) => MLeaf(id)
    case Split(o, cs) => MSplit(o, MirrorAll(cs), Some(Weights(cs)))
  }

  function MirrorAll(cs: seq<Child>): (r: seq<MirrorNode>)
    ensures |r| == |cs|
    decreases cs, 0
  {
    if cs == [] then [] else
      assert cs[0].node < cs[0];
      [Mirror(cs[0].node)] + MirrorAll(cs[1..])
  }

  // ---- splitLeaf ----

  function SplitLeaf(n: MirrorNode, target: PaneId, dir: Orient, added: PaneId): MirrorNode
    decreases n, 1
  {
    match n
    case MLeaf(p) => if p != target then n else MSplit(dir, [MLeaf(target), MLeaf(added)], Some([50, 50]))
    case MSplit(_, cs, _) => n.(children := SplitLeaves(cs, target, dir, added))
  }

  function SplitLeaves(cs: seq<MirrorNode>, target: PaneId, dir: Orient, added: PaneId): seq<MirrorNode>
    decreases cs, 0
  {
    if cs == [] then [] else [SplitLeaf(cs[0], target, dir, added)] + SplitLeaves(cs[1..], target, dir, added)
  }

  function Occurrences(s: seq<PaneId>, p: PaneId): nat {
    if s == [] then 0 else (if s[0] == p then 1 else 0) + Occurrences(s[1..], p)
  }

  lemma OccurrencesConcat(a: seq<PaneId>, b: seq<PaneId>, p: PaneId)
    ensures Occurrences(a + b, p) == Occurrences(a, p) + Occurrences(b, p)
  {
    if a == [] {
      assert a + b == b;
    } else {
      assert (a + b)[1..] == a[1..] + b;
      OccurrencesConcat(a[1..], b, p);
    }
  }

  lemma NoOccurrence(s: seq<PaneId>, p: PaneId)
    ensures Occurrences(s, p) == 0 <==> p !in s
    ensures Distinct(s) ==> Occurrences(s, p) <= 1
  {
    if s != [] {
      NoOccurrence(s[1..], p);
      assert s == [s[0]] + s[1..];
      DistinctConcat([s[0]], s[1..]);
    }
  }

  /** Number of panes of a browser-side tree. */
  function Count(n: MirrorNode): nat
    decreases n, 1
  {
    match n
    case MLeaf(_) => 1
    case MSplit(_, cs, _) => CountAll(cs)
  }

  function CountAll(cs: seq<MirrorNode>): nat
    decreases cs, 0
  {
    if cs == [] then 0 else Count(cs[0]) + CountAll(cs[1..])
  }

  lemma {:induction false} MirrorCount(n: LayoutNode)
    ensures Count(Mirror(n)) == |AllLeaves(n)|
    decreases n, 1
  {
    if n.Split? { MirrorCountAll(n.children); }
  }

  lemma {:induction false} MirrorCountAll(cs: seq<Child>)
    ensures CountAll(MirrorAll(cs)) == |LeavesOf(cs)|
    decreases cs, 0
  {
    if cs != [] {
      assert cs[0].node < cs[0];
      MirrorCount(cs[0].node);
      MirrorCountAll(cs[1..]);
    }
  }

  /** `splitLeaf` splits every occurrence of the target, `split_focused` only the first. */
  lemma {:induction false} SplitCount(n: LayoutNode, f: PaneId, o: Orient, added: PaneId)
    ensures Count(SplitLeaf(Mirror(n), f, o, added)) == |AllLeaves(n)| + Occurrences(AllLeaves(n), f)
    ensures Occurrences(AllLeaves(n), f) <= 1 ==>
              SplitLeaf(Mirror(n), f, o, added) == Mirror(SplitInner(n, f, added, o).0)
    decreases n, 1
  {
    match n
    case Leaf(id) =>
      var pair := [MLeaf(f), MLeaf(added)];
      assert pair[1..] == [MLeaf(added)] && CountAll(pair[1..]) == 1 + CountAll(pair[1..][1..]) == 1;
      assert CountAll(pair) == 2;
      var cs := [Child(Leaf(f), 50), Child(Leaf(added), 50)];
      assert cs[1..][0] == cs[1] && MirrorAll(cs[1..]) == [MLeaf(added)];
      assert Weights(cs) == [50, 50];
      assert Occurrences([id], f) == if id == f then 1 else 0;
    case Split(_, cs) =>
      SplitCountAll(cs, f, o, added);
  }

  lemma {:induction false} SplitCountAll(cs: seq<Child>, f: PaneId, o: Orient, added: PaneId)
    ensures CountAll(SplitLeaves(MirrorAll(cs), f, o, added)) == |LeavesOf(cs)| + Occurrences(LeavesOf(cs), f)
    ensures Occurrences(LeavesOf(cs), f) <= 1 ==>
              SplitLeaves(MirrorAll(cs), f, o, added) == MirrorAll(SplitFirst(cs, f, added, o).0)
    ensures Weights(SplitFirst(cs, f, added, o).0) == Weights(cs)
    decreases cs, 0
  {
    if cs != [] {
      assert cs[0].node < cs[0];
      var head, tail := AllLeaves(cs[0].node), LeavesOf(cs[1..]);
      SplitCount(cs[0].node, f, o, added);
      SplitCountAll(cs[1..], f, o, added);
      OccurrencesConcat(head, tail, f);
      NoOccurrence(head, f);
      NoOccurrence(tail, f);
      SplitInsertsAfter(cs[0].node, f, added, o);
      SplitFirstInserts(cs[1..], f, added, o);
      var split := SplitFirst(cs, f, added, o).0;
      assert MirrorAll(cs)[1..] == MirrorAll(cs[1..]);
      assert split[0] == Child(SplitInner(cs[0].node, f, added, o).0, cs[0].weight);
      assert split[1..] == if f in head then cs[1..] else SplitFirst(cs[1..], f, added, o).0;
      WeightsStep(split);
      WeightsStep(cs);
    }
  }

  lemma WeightsStep(cs: seq<Child>)
    requires cs != []
    ensures Weights(cs) == [cs[0].weight] + Weights(cs[1..])
  {
  }

  /** The two splits agree if and only if the focused pane does not occur twice. */
  lemma SplitLeafRefines(n: LayoutNode, f: PaneId, o: Orient, added: PaneId)
    ensures SplitLeaf(Mirror(n), f, o, added) == Mirror(SplitInner(n, f, added, o).0)
       <==> Occurrences(AllLeaves(n), f) <= 1
  {
    SplitCount(n, f, o, added);
    MirrorCount(SplitInner(n, f, added, o).0);
    SplitInsertsAfter(n, f, added, o);
    if f in AllLeaves(n) {
      InsertAfterAt(AllLeaves(n), f, added);
    }
  }

  // ---- removeLeaf ----

  function WeightAt(weights: Option<seq<int>>, i: nat): int {
    if weights.Some? && i < |weights.value| then weights.value[i] else 50
  }

  function RemoveLeafM(n: MirrorNode, p: PaneId): Option<MirrorNode>
    decreases n, 1, 0
  {
    match n
    case MLeaf(id) => if id == p then None else Some(n)
    case MSplit(dir, cs, ws) =>
      var (kept, keptWeights) := KeptFrom(cs, ws, 0, p);
      if |kept| == 0 then None
      else if |kept| == 1 then Some(kept[0])
      else Some(MSplit(dir, kept, Some(keptWeights)))
  }

  /** The children from index `i` on that survive, with their weights. */
  function KeptFrom(cs: seq<MirrorNode>, ws: Option<seq<int>>, i: nat, p: PaneId): (seq<MirrorNode>, seq<int>)
    requires i <= |cs|
    decreases cs, 0, |cs| - i
  {
    if i == |cs| then ([], []) else
      var (rest, restWeights) := KeptFrom(cs, ws, i + 1, p);
      match RemoveLeafM(cs[i], p)
      case None => (rest, restWeights)
      case Some(m) => ([m] + rest, [WeightAt(ws, i)] + restWeights)
  }

  /** The loop of the source, which pushes survivors onto two local arrays. */
  method RemoveLeafLoop(n: MirrorNode, p: PaneId) returns (r: Option<MirrorNode>)
    ensures r == RemoveLeafM(n, p)
    decreases n
  {
    match n
    case MLeaf(id) =>
      r := if id == p then None else Some(n);
    case MSplit(dir, cs, ws) =>
      var kept: seq<MirrorNode>, keptWeights: seq<int> := [], [];
      for i := 0 to |cs|
        invariant kept + KeptFrom(cs, ws, i, p).0 == KeptFrom(cs, ws, 0, p).0
        invariant keptWeights + KeptFrom(cs, ws, i, p).1 == KeptFrom(cs, ws, 0, p).1
      {
        var m := RemoveLeafLoop(cs[i], p);
        if m.Some? {
          kept := kept + [m.value];
          keptWeights := keptWeights + [WeightAt(ws, i)];
        }
      }
      assert kept + [] == kept && keptWeights + [] == keptWeights;
      if |kept| == 0 {
        return None;
      }
      if |kept| == 1 {
        return Some(kept[0]);
      }
      r := Some(MSplit(dir, kept, Some(keptWeights)));
  }

  /** A split that comes without weights is treated as if every child had 50. */
  lemma MissingWeightsAreFifty(dir: Orient, cs: seq<MirrorNode>, p: PaneId)
    ensures RemoveLeafM(MSplit(dir, cs, None), p) == RemoveLeafM(MSplit(dir, cs, Some(seq(|cs|, _ => 50))), p)
  {
    KeptAlike(cs, seq(|cs|, _ => 50), 0, p);
  }

  lemma {:induction false} KeptAlike(cs: seq<MirrorNode>, ws: seq<int>, i: nat, p: PaneId)
    requires i <= |cs| == |ws| && forall k :: 0 <= k < |ws| ==> ws[k] == 50
    ensures KeptFrom(cs, None, i, p) == KeptFrom(cs, Some(ws), i, p)
    decreases |cs| - i
  {
    if i < |cs| {
      KeptAlike(cs, ws, i + 1, p);
    }
  }

  /** Every split of the tree has a leaf other than `p` below it. */
  ghost predicate Survives(n: LayoutNode, p: PaneId)
    decreases n, 1
  {
    match n
    case Leaf(_) => true
    case Split(_, cs) => Without(LeavesOf(cs), p) != [] && SurviveAll(cs, p)
  }

  ghost predicate SurviveAll(cs: seq<Child>, p: PaneId)
    decreases cs, 0
  {
    cs == [] || (assert cs[0].node < cs[0]; Survives(cs[0].node, p) && SurviveAll(cs[1..], p))
  }

  /** What `remove_leaf` leaves behind, as the browser would see it. */
  function RemovedMirror(n: LayoutNode, p: PaneId): Option<MirrorNode> {
    var (n', gone) := RemoveLeaf(n, p);
    if gone then None else Some(Mirror(n'))
  }

  lemma {:induction false} SurvivorsAgree(n: LayoutNode, p: PaneId)
    requires Survives(n, p)
    ensures RemoveLeafM(Mirror(n), p) == RemovedMirror(n, p)
    decreases n, 1
  {
    if n.Split? {
      var cs := n.children;
      KeptAgree(cs, Weights(cs), MirrorAll(cs), 0, p);
      RetainFilters(cs, p);
      assert cs[0..] == cs;
      assert Retain(cs, p) != [];
    }
  }

  lemma {:induction false} KeptAgree(cs: seq<Child>, ws: seq<int>, ms: seq<MirrorNode>, i: nat, p: PaneId)
    requires i <= |cs| && ws == Weights(cs) && ms == MirrorAll(cs) && SurviveAll(cs[i..], p)
    ensures KeptFrom(ms, Some(ws), i, p) == (MirrorAll(Retain(cs[i..], p)), Weights(Retain(cs[i..], p)))
    decreases cs, 0, |cs| - i
  {
    if i < |cs| {
      assert cs[i..][0] == cs[i] && cs[i..][1..] == cs[i + 1..];
      assert cs[i].node < cs[i];
      MirrorAt(cs, i);
      SurvivorsAgree(cs[i].node, p);
      KeptAgree(cs, ws, ms, i + 1, p);
      var kept := Retain(cs[i..], p);
      if !RemoveLeaf(cs[i].node, p).1 {
        assert kept[1..] == Retain(cs[i + 1..], p);
        WeightsStep(kept);
      } else {
        assert kept == Retain(cs[i + 1..], p);
      }
    } else {
      assert cs[i..] == [] && Weights([]) == [];
    }
  }

  lemma {:induction false} MirrorAt(cs: seq<Child>, i: nat)
    requires i < |cs|
    ensures MirrorAll(cs)[i] == Mirror(cs[i].node)
  {
    if i > 0 {
      MirrorAt(cs[1..], i - 1);
    }
  }

  // The converse: the browser's result has a pane below every split, the daemon's keeps an emptied split.

  ghost predicate Inhabited(n: MirrorNode)
    decreases n, 1
  {
    match n
    case MLeaf(_) => true
    case MSplit(_, cs, _) => cs != [] && forall i :: 0 <= i < |cs| ==> Inhabited(cs[i])
  }

  lemma {:induction false} BrowserKeepsNoEmptySplit(n: MirrorNode, p: PaneId)
    ensures RemoveLeafM(n, p).Some? ==> Inhabited(RemoveLeafM(n, p).value)
    decreases n, 1, 0
  {
    if n.MSplit? {
      KeptInhabited(n.children, n.weights, 0, p);
    }
  }

  lemma {:induction false} KeptInhabited(cs: seq<MirrorNode>, ws: Option<seq<int>>, i: nat, p: PaneId)
    requires i <= |cs|
    ensures forall m :: m in KeptFrom(cs, ws, i, p).0 ==> Inhabited(m)
    decreases cs, 0, |cs| - i
  {
    if i < |cs| {
      BrowserKeepsNoEmptySplit(cs[i], p);
      KeptInhabited(cs, ws, i + 1, p);
    }
  }

  lemma {:induction false} DaemonKeepsEmptySplit(n: LayoutNode, p: PaneId)
    requires !RemoveLeaf(n, p).1 && Inhabited(Mirror(RemoveLeaf(n, p).0))
    ensures Survives(n, p)
    decreases n, 1
  {
    if n.Split? {
      var cs, kept := n.children, Retain(n.children, p);
      assert Inhabited(Mirror(Split(n.orient, kept))) by {
        if |kept| == 1 {
          assert MirrorAll(kept) == [Mirror(kept[0].node)];
        }
      }
      RetainInhabited(cs, p);
      RetainFilters(cs, p);
      InhabitedHasLeaf(Split(n.orient, kept));
    }
  }

  lemma {:induction false} RetainInhabited(cs: seq<Child>, p: PaneId)
    requires forall m :: m in MirrorAll(Retain(cs, p)) ==> Inhabited(m)
    ensures SurviveAll(cs, p)
    decreases cs, 0
  {
    if cs != [] {
      assert cs[0].node < cs[0];
      var kept, rest := Retain(cs, p), Retain(cs[1..], p);
      if !RemoveLeaf(cs[0].node, p).1 {
        assert kept[0].node == RemoveLeaf(cs[0].node, p).0 && kept[1..] == rest;
        assert MirrorAll(kept) == [Mirror(kept[0].node)] + MirrorAll(rest);
        assert Mirror(kept[0].node) in MirrorAll(kept);
        DaemonKeepsEmptySplit(cs[0].node, p);
      } else {
        assert kept == rest;
      }
      RetainInhabited(cs[1..], p);
    }
  }

  lemma {:induction false} InhabitedHasLeaf(n: LayoutNode)
    requires Inhabited(Mirror(n))
    ensures AllLeaves(n) != []
    decreases n
  {
    if n.Split? {
      var cs := n.children;
      MirrorAt(cs, 0);
      assert cs[0].node < cs[0];
      InhabitedHasLeaf(cs[0].node);
    }
  }

  /** The two removals agree if and only if every split has a pane other than the one removed. */
  lemma RemoveLeafRefines(n: LayoutNode, p: PaneId)
    ensures RemoveLeafM(Mirror(n), p) == RemovedMirror(n, p) <==> Survives(n, p)
  {
    if Survives(n, p) {
      SurvivorsAgree(n, p);
    } else if RemoveLeafM(Mirror(n), p) == RemovedMirror(n, p) {
      assert n.Split?;
      BrowserKeepsNoEmptySplit(Mirror(n), p);
      DaemonKeepsEmptySplit(n, p);
      assert false;
    }
  }

  /** On a split whose only pane is removed the two removals differ: the browser is left with nothing, the daemon with
      a split without children. */
  lemma RemovalsDifferOnSoleChild()
    ensures var n := Split(Vertical, [Child(Leaf(0), 100)]);
            && RemoveLeafM(Mirror(n), 0) == None
            && RemovedMirror(n, 0) == Some(MSplit(Vertical, [], Some([])))
  {
    var cs := [Child(Leaf(0), 100)];
    assert cs[1..] == [] && RemoveLeaf(Leaf(0), 0) == (Leaf(0), true);
    assert Retain(cs, 0) == [] + Retain(cs[1..], 0) == [];
    assert Weights([]) == [];
    MirrorAt(cs, 0);
    assert KeptFrom(MirrorAll(cs), Some(Weights(cs)), 1, 0) == ([], []);
    assert KeptFrom(MirrorAll(cs), Some(Weights(cs)), 0, 0) == ([], []);
  }

  /** On a tree with the focused pane twice the two splits differ: the browser ends with four panes, the daemon with
      three. */
  lemma SplitsDifferOnRepeatedPane()
    ensures var n := Split(Vertical, [Child(Leaf(0), 50), Child(Leaf(0), 50)]);
            && Count(SplitLeaf(Mirror(n), 0, Vertical, 1)) == 4
            && Count(Mirror(SplitInner(n, 0, 1, Vertical).0)) == 3
  {
    var n := Split(Vertical, [Child(Leaf(0), 50), Child(Leaf(0), 50)]);
    LeavesOfTwo(n.children);
    assert AllLeaves(n) == [0] + [0] == [0, 0] && [0, 0][1..] == [0] && [0][1..] == [];
    SplitCount(n, 0, Vertical, 1);
    SplitsFirstOfTwo(n);
  }

  lemma SplitsFirstOfTwo(n: LayoutNode)
    requires AllLeaves(n) == [0, 0]
    ensures Count(Mirror(SplitInner(n, 0, 1, Vertical).0)) == 3
  {
    MirrorCount(SplitInner(n, 0, 1, Vertical).0);
    SplitInsertsAfter(n, 0, 1, Vertical);
    assert InsertAfter([0, 0], 0, 1) == [0, 1] + [0, 0][1..];
  }

  /** Every split has at least two children. */
  ghost predicate Branching(n: LayoutNode)
    decreases n, 1
  {
    n.Split? ==> |n.children| >= 2 && BranchingAll(n.children)
  }

  ghost predicate BranchingAll(cs: seq<Child>)
    decreases cs, 0
  {
    cs == [] || (assert cs[0].node < cs[0]; Branching(cs[0].node) && BranchingAll(cs[1..]))
  }

  lemma {:induction false} BranchingSurvives(n: LayoutNode, p: PaneId)
    requires Branching(n) && Distinct(AllLeaves(n))
    ensures Survives(n, p) && AllLeaves(n) != [] && (n.Split? ==> |AllLeaves(n)| >= 2)
    decreases n, 1
  {
    if n.Split? {
      BranchingAllSurvive(n.children, p);
      var s := AllLeaves(n);
      if p in s {
        WithoutDistinct(s, p);
      }
    }
  }

  lemma {:induction false} BranchingAllSurvive(cs: seq<Child>, p: PaneId)
    requires BranchingAll(cs) && Distinct(LeavesOf(cs))
    ensures SurviveAll(cs, p) && |LeavesOf(cs)| >= |cs|
    decreases cs, 0
  {
    if cs != [] {
      assert cs[0].node < cs[0];
      DistinctConcat(AllLeaves(cs[0].node), LeavesOf(cs[1..]));
      BranchingSurvives(cs[0].node, p);
      BranchingAllSurvive(cs[1..], p);
    }
  }

  /** On trees with distinct panes and at least two children per split, both edits agree with the daemon's, and
      the browser's removal yields null exactly for the sole leaf. */
  lemma MirrorRefinesDaemon(n: LayoutNode, p: PaneId, o: Orient, added: PaneId)
    requires Branching(n) && Distinct(AllLeaves(n))
    ensures RemoveLeafM(Mirror(n), p) == if n == Leaf(p) then None else Some(Mirror(RemoveLeaf(n, p).0))
    ensures SplitLeaf(Mirror(n), p, o, added) == Mirror(SplitInner(n, p, added, o).0)
  {
    BranchingSurvives(n, p);
    RemoveLeafRefines(n, p);
    NoOccurrence(AllLeaves(n), p);
    SplitLeafRefines(n, p, o, added);
  }
}
