/** Splitting and closing panes: the edits as functions of the tree, the loops that perform them, and the laws
    that relate them. A node that the source edits through `&mut self` is an in- and an out-parameter here. */
module LayoutEdits {
  import opened Arith
  import opened LayoutTree

  // ---- Split ----

  /** The tree after the split, and whether a leaf `f` was found. Only the first one is replaced. */
  function SplitInner(n: LayoutNode, f: PaneId, added: PaneId, o: Orient): (LayoutNode, bool)
    decreases n, 1
  {
    match n
    case Leaf(id) =>
      if id == f then (Split(o, [Child(Leaf(id), 50), Child(Leaf(added), 50)]), true) else (n, false)
    case Split(o', cs) =>
      var (cs', hit) := SplitFirst(cs, f, added, o);
      (Split(o', cs'), hit)
  }

  function SplitFirst(cs: seq<Child>, f: PaneId, added: PaneId, o: Orient): (r: (seq<Child>, bool))
    ensures |r.0| == |cs|
    decreases cs, 0
  {
    if cs == [] then ([], false) else
      assert cs[0].node < cs[0];
      var (m, hit) := SplitInner(cs[0].node, f, added, o);
      if hit then ([Child(m, cs[0].weight)] + cs[1..], true)
      else
        var (rest, hit') := SplitFirst(cs[1..], f, added, o);
        ([Child(m, cs[0].weight)] + rest, hit')
  }

  method SplitFocusedInner(n: LayoutNode, f: PaneId, added: PaneId, o: Orient)
    returns (n': LayoutNode, hit: bool)
    ensures (n', hit) == SplitInner(n, f, added, o)
    decreases n, 1
  {
    match n
    case Leaf(id) =>
      if id == f {
        var existing, sibling := Leaf(id), Leaf(added);
        n', hit := Split(o, [Child(existing, 50), Child(sibling, 50)]), true;
      } else {
        n', hit := n, false;
      }
    case Split(o', cs) =>
      var cs';
      cs', hit := SplitChildren(cs, f, added, o);
      n' := Split(o', cs');
  }

  /** The loop over the children, which stops at the first one that was modified. */
  method SplitChildren(cs: seq<Child>, f: PaneId, added: PaneId, o: Orient)
    returns (cs': seq<Child>, hit: bool)
    ensures (cs', hit) == SplitFirst(cs, f, added, o)
    decreases cs, 0
  {
    var done: seq<Child>, todo := [], cs;
    hit := false;
    assert [] + SplitFirst(cs, f, added, o).0 == SplitFirst(cs, f, added, o).0;
    while todo != [] && !hit
      invariant |todo| <= |cs| && todo == cs[|cs| - |todo|..]
      invariant SplitFirst(cs, f, added, o)
             == if hit then (done + todo, true)
                else (done + SplitFirst(todo, f, added, o).0, SplitFirst(todo, f, added, o).1)
      decreases |todo|
    {
      var m;
      assert todo[0] == cs[|cs| - |todo|] && todo[0].node < todo[0];
      m, hit := SplitFocusedInner(todo[0].node, f, added, o);
      ghost var slot := [Child(m, todo[0].weight)];
      Assoc(done, slot, SplitFirst(todo[1..], f, added, o).0);
      Assoc(done, slot, todo[1..]);
      done, todo := done + [Child(m, todo[0].weight)], todo[1..];
    }
    cs' := done + todo;
  }

  /** The leaf order after a split: `added` follows the first `f`, and nothing else moves. */
  function InsertAfter(s: seq<PaneId>, f: PaneId, added: PaneId): seq<PaneId> {
    if s == [] then []
    else if s[0] == f then [f, added] + s[1..]
    else [s[0]] + InsertAfter(s[1..], f, added)
  }

  lemma {:induction false} InsertAfterAbsent(s: seq<PaneId>, f: PaneId, added: PaneId)
    requires f !in s
    ensures InsertAfter(s, f, added) == s
  {
    if s != [] {
      InsertAfterAbsent(s[1..], f, added);
      assert s == [s[0]] + s[1..];
    }
  }

  lemma {:induction false} InsertAfterAt(s: seq<PaneId>, f: PaneId, added: PaneId)
    requires f in s
    ensures var k := IndexOf(s, f); InsertAfter(s, f, added) == s[..k + 1] + ([added] + s[k + 1..])
  {
    var x, t := s[0], s[1..];
    if x == f {
      assert s[..1] == [f];
      Assoc([f], [added], t);
    } else {
      var k := IndexOf(t, f);
      InsertAfterAt(t, f, added);
      Assoc([x], t[..k + 1], [added] + t[k + 1..]);
      assert s[..k + 2] == [x] + t[..k + 1] && s[k + 2..] == t[k + 1..];
    }
  }

  lemma {:induction false} InsertAfterConcat(a: seq<PaneId>, b: seq<PaneId>, f: PaneId, added: PaneId)
    ensures InsertAfter(a + b, f, added)
         == if f in a then InsertAfter(a, f, added) + b else a + InsertAfter(b, f, added)
  {
    if a == [] {
      assert a + b == b;
    } else {
      var x, t := a[0], a[1..];
      assert a == [x] + t;
      assert (a + b)[0] == x && (a + b)[1..] == t + b;
      if x == f {
        Assoc([f, added], t, b);
      } else {
        InsertAfterConcat(t, b, f, added);
        Assoc([x], InsertAfter(t, f, added), b);
        Assoc([x], t, InsertAfter(b, f, added));
      }
    }
  }

  lemma IndexOfConcat<T>(a: seq<T>, b: seq<T>, x: T)
    ensures IndexOf(a + b, x) == if x in a then IndexOf(a, x) else |a| + IndexOf(b, x)
  {
    if a == [] {
      assert a + b == b;
    } else {
      assert (a + b)[1..] == a[1..] + b;
      IndexOfConcat(a[1..], b, x);
    }
  }

  lemma {:induction false} SplitInsertsAfter(n: LayoutNode, f: PaneId, added: PaneId, o: Orient)
    ensures AllLeaves(SplitInner(n, f, added, o).0) == InsertAfter(AllLeaves(n), f, added)
    ensures SplitInner(n, f, added, o).1 <==> f in AllLeaves(n)
    ensures f !in AllLeaves(n) ==> SplitInner(n, f, added, o).0 == n
    decreases n, 1
  {
    match n
    case Leaf(id) =>
      LeavesOfTwo([Child(n, 50), Child(Leaf(added), 50)]);
    case Split(_, cs) =>
      SplitFirstInserts(cs, f, added, o);
  }

  lemma {:induction false} SplitFirstInserts(cs: seq<Child>, f: PaneId, added: PaneId, o: Orient)
    ensures LeavesOf(SplitFirst(cs, f, added, o).0) == InsertAfter(LeavesOf(cs), f, added)
    ensures SplitFirst(cs, f, added, o).1 <==> f in LeavesOf(cs)
    ensures f !in LeavesOf(cs) ==> SplitFirst(cs, f, added, o).0 == cs
    decreases cs, 0
  {
    if cs != [] {
      assert cs[0].node < cs[0];
      SplitInsertsAfter(cs[0].node, f, added, o);
      SplitFirstInserts(cs[1..], f, added, o);
      InsertAfterConcat(AllLeaves(cs[0].node), LeavesOf(cs[1..]), f, added);
      var cs' := SplitFirst(cs, f, added, o).0;
      assert cs'[0] == Child(SplitInner(cs[0].node, f, added, o).0, cs[0].weight);
      assert cs'[1..] == if f in AllLeaves(cs[0].node) then cs[1..] else SplitFirst(cs[1..], f, added, o).0;
    }
  }

  /** A split replaces the leaf `f` by a split of the given orientation, in which `f` and the new pane get 50 each. At
      every other split the orientation, the number of children and their weights stay, and so does every child but the
      first one that has `f` below it. */
  lemma SplitLaw(n: LayoutNode, f: PaneId, added: PaneId, o: Orient)
    ensures SplitInner(Leaf(f), f, added, o) == (Split(o, [Child(Leaf(f), 50), Child(Leaf(added), 50)]), true)
    ensures n.Split? ==>
              var n', cs := SplitInner(n, f, added, o).0, n.children;
              && n'.Split? && n'.orient == n.orient && |n'.children| == |cs|
              && forall i :: 0 <= i < |cs| ==>
                   && n'.children[i].weight == cs[i].weight
                   && n'.children[i].node
                        == if f in AllLeaves(cs[i].node) && f !in LeavesOf(cs[..i])
                           then SplitInner(cs[i].node, f, added, o).0 else cs[i].node
  {
    if n.Split? {
      SplitFirstLaw(n.children, f, added, o);
    }
  }

  lemma {:induction false} SplitFirstLaw(cs: seq<Child>, f: PaneId, added: PaneId, o: Orient)
    ensures var cs' := SplitFirst(cs, f, added, o).0;
            forall i :: 0 <= i < |cs| ==>
              cs'[i] == if f in AllLeaves(cs[i].node) && f !in LeavesOf(cs[..i])
                        then Child(SplitInner(cs[i].node, f, added, o).0, cs[i].weight) else cs[i]
  {
    if cs != [] {
      SplitInsertsAfter(cs[0].node, f, added, o);
      SplitFirstLaw(cs[1..], f, added, o);
      forall i | 0 < i < |cs|
        ensures cs[i] == cs[1..][i - 1] && LeavesOf(cs[..i]) == AllLeaves(cs[0].node) + LeavesOf(cs[1..][..i - 1])
      {
        assert cs[..i][0] == cs[0] && cs[..i][1..] == cs[1..][..i - 1];
      }
      SplitFirstInserts(cs[1..], f, added, o);
    }
  }

  // ---- Remove ----

  /** The node after removing every leaf `p` below it, and whether its own slot must go. */
  function RemoveLeaf(n: LayoutNode, p: PaneId): (LayoutNode, bool)
    decreases n, 1
  {
    match n
    case Leaf(id) => (n, id == p)
    case Split(o, cs) =>
      var kept := Retain(cs, p);
      (if |kept| == 1 then kept[0].node else Split(o, kept), false)
  }

  function Retain(cs: seq<Child>, p: PaneId): seq<Child>
    decreases cs, 0
  {
    if cs == [] then [] else
      assert cs[0].node < cs[0];
      var (m, gone) := RemoveLeaf(cs[0].node, p);
      (if gone then [] else [Child(m, cs[0].weight)]) + Retain(cs[1..], p)
  }

  method RemoveLeafInner(n: LayoutNode, p: PaneId) returns (n': LayoutNode, gone: bool)
    ensures (n', gone) == RemoveLeaf(n, p)
    decreases n
  {
    match n
    case Leaf(id) =>
      n', gone := n, id == p;
    case Split(o, cs) =>
      var kept := [];
      assert cs[0..] == cs;
      for i := 0 to |cs|
        invariant kept + Retain(cs[i..], p) == Retain(cs, p)
      {
        assert cs[i..][0] == cs[i] && cs[i..][1..] == cs[i + 1..];
        assert cs[i].node < cs[i];
        var m, drop := RemoveLeafInner(cs[i].node, p);
        var slot := if drop then [] else [Child(m, cs[i].weight)];
        assert Retain(cs[i..], p) == slot + Retain(cs[i + 1..], p);
        kept := kept + slot;
      }
      assert cs[|cs|..] == [];
      assert kept == Retain(cs, p);
      if |kept| == 1 {
        n' := kept[0].node;
      } else {
        n' := Split(o, kept);
      }
      gone := false;
  }

  function Without(s: seq<PaneId>, p: PaneId): (r: seq<PaneId>)
    ensures p !in r
    ensures p !in s ==> r == s
  {
    if s == [] then []
    else
      var r := Without(s[1..], p);
      assert p !in s ==> r == s[1..];
      if s[0] == p then r else [s[0]] + r
  }

  lemma WithoutConcat(a: seq<PaneId>, b: seq<PaneId>, p: PaneId)
    ensures Without(a + b, p) == Without(a, p) + Without(b, p)
  {
    if a == [] {
      assert a + b == b;
    } else {
      assert (a + b)[1..] == a[1..] + b;
      WithoutConcat(a[1..], b, p);
    }
  }

  /** Removal filters the leaf sequence and keeps its order, on every tree, singletons and repeats included. */
  lemma {:induction false} RemoveFilters(n: LayoutNode, p: PaneId)
    ensures var (n', gone) := RemoveLeaf(n, p);
            if gone then n == Leaf(p) else AllLeaves(n') == Without(AllLeaves(n), p)
    decreases n, 1
  {
    match n
    case Leaf(id) =>
      assert AllLeaves(n)[1..] == [];
    case Split(_, cs) =>
      RetainFilters(cs, p);
      var kept := Retain(cs, p);
      if |kept| == 1 {
        assert LeavesOf(kept) == AllLeaves(kept[0].node) + LeavesOf(kept[1..]);
      }
  }

  lemma {:induction false} RetainFilters(cs: seq<Child>, p: PaneId)
    ensures LeavesOf(Retain(cs, p)) == Without(LeavesOf(cs), p)
    decreases cs, 0
  {
    if cs != [] {
      assert cs[0].node < cs[0];
      var (m, gone) := RemoveLeaf(cs[0].node, p);
      RemoveFilters(cs[0].node, p);
      RetainFilters(cs[1..], p);
      WithoutConcat(AllLeaves(cs[0].node), LeavesOf(cs[1..]), p);
      if gone {
        assert Without([p], p) == [] && Retain(cs, p) == Retain(cs[1..], p);
      } else {
        assert Retain(cs, p)[1..] == Retain(cs[1..], p);
      }
    }
  }

  /** Removing an absent pane leaves a tree alone if and only if it has no single-child split to collapse. */
  lemma {:induction false} RemoveAbsent(n: LayoutNode, p: PaneId)
    requires p !in AllLeaves(n)
    ensures !RemoveLeaf(n, p).1
    ensures NoSingletons(RemoveLeaf(n, p).0)
    ensures RemoveLeaf(n, p).0 == n <==> NoSingletons(n)
    decreases n, 1
  {
    if n.Split? {
      RetainAbsent(n.children, p);
      var kept := Retain(n.children, p);
      if |kept| == 1 {
        assert NoSingletons(kept[0].node);
      }
    }
  }

  lemma {:induction false} RetainAbsent(cs: seq<Child>, p: PaneId)
    requires p !in LeavesOf(cs)
    ensures |Retain(cs, p)| == |cs|
    ensures NoSingletonsIn(Retain(cs, p))
    ensures Retain(cs, p) == cs <==> NoSingletonsIn(cs)
    decreases cs, 0
  {
    if cs != [] {
      assert cs[0].node < cs[0];
      RemoveAbsent(cs[0].node, p);
      RetainAbsent(cs[1..], p);
      var kept := Retain(cs, p);
      assert kept[0] == Child(RemoveLeaf(cs[0].node, p).0, cs[0].weight) && kept[1..] == Retain(cs[1..], p);
      assert kept == cs <==> kept[0] == cs[0] && kept[1..] == cs[1..] by {
        assert cs == [cs[0]] + cs[1..] && kept == [kept[0]] + kept[1..];
      }
    }
  }

  /** On a window layout removing a pane puts its sibling in the place of their split. Every split above keeps its
      orientation, its weights and its other child. */
  lemma RemoveOnWindow(n: LayoutNode, p: PaneId)
    requires Good(n) && n.Split? && p in AllLeaves(n)
    ensures var a, b := n.children[0], n.children[1];
            RemoveLeaf(n, p)
              == (if a.node == Leaf(p) then b.node
                  else if b.node == Leaf(p) then a.node
                  else if p in AllLeaves(a.node) then Split(n.orient, [Child(RemoveLeaf(a.node, p).0, a.weight), b])
                  else Split(n.orient, [a, Child(RemoveLeaf(b.node, p).0, b.weight)]), false)
  {
    var cs := n.children;
    LeavesOfTwo(cs);
    DistinctConcat(AllLeaves(cs[0].node), AllLeaves(cs[1].node));
    RetainTwo(cs, p);
    forall i | 0 <= i < 2 && p !in AllLeaves(cs[i].node) ensures RemoveLeaf(cs[i].node, p) == (cs[i].node, false) {
      BinaryHasNoSingletons(cs[i].node);
      RemoveAbsent(cs[i].node, p);
    }
  }

  lemma RetainTwo(cs: seq<Child>, p: PaneId)
    requires |cs| == 2
    ensures var (a, goneA), (b, goneB) := RemoveLeaf(cs[0].node, p), RemoveLeaf(cs[1].node, p);
            Retain(cs, p)
              == if goneA && goneB then []
                 else if goneA then [Child(b, cs[1].weight)]
                 else if goneB then [Child(a, cs[0].weight)]
                 else [Child(a, cs[0].weight), Child(b, cs[1].weight)]
  {
    assert cs[1..][0] == cs[1] && cs[1..][1..] == [];
    assert Retain(cs[1..][1..], p) == [];
  }

  /** Splitting and removing the new pane restores the tree if and only if it has no single-child split. */
  lemma {:induction false} SplitThenRemove(n: LayoutNode, f: PaneId, added: PaneId, o: Orient)
    requires f in AllLeaves(n) && added !in AllLeaves(n)
    ensures !RemoveLeaf(SplitInner(n, f, added, o).0, added).1
    ensures RemoveLeaf(SplitInner(n, f, added, o).0, added).0 == RemoveLeaf(n, added).0
    ensures RemoveLeaf(SplitInner(n, f, added, o).0, added).0 == n <==> NoSingletons(n)
    decreases n, 1
  {
    RemoveAbsent(n, added);
    match n
    case Leaf(id) =>
      var cs := [Child(n, 50), Child(Leaf(added), 50)];
      assert cs[1..][0] == cs[1] && cs[1..][1..] == [];
      assert Retain(cs[1..], added) == [] + Retain(cs[1..][1..], added);
      assert Retain(cs, added) == [Child(n, 50)] + Retain(cs[1..], added) == [Child(n, 50)];
    case Split(_, cs) =>
      SplitThenRetain(cs, f, added, o);
  }

  lemma {:induction false} SplitThenRetain(cs: seq<Child>, f: PaneId, added: PaneId, o: Orient)
    requires f in LeavesOf(cs) && added !in LeavesOf(cs)
    ensures Retain(SplitFirst(cs, f, added, o).0, added) == Retain(cs, added)
    decreases cs, 0
  {
    assert cs[0].node < cs[0];
    SplitInsertsAfter(cs[0].node, f, added, o);
    RemoveAbsent(cs[0].node, added);
    var cs' := SplitFirst(cs, f, added, o).0;
    if f in AllLeaves(cs[0].node) {
      SplitThenRemove(cs[0].node, f, added, o);
      assert cs'[1..] == cs[1..];
    } else {
      SplitThenRetain(cs[1..], f, added, o);
      assert cs'[1..] == SplitFirst(cs[1..], f, added, o).0;
    }
  }

  // ---- Close ----

  /** The tree after `close`, and the pane that receives the focus. */
  function Close(n: LayoutNode, p: PaneId): (LayoutNode, Option<PaneId>) {
    var all := AllLeaves(n);
    var pos := IndexOf(all, p);
    if pos == |all| || |all| == 1 then (n, None)
    else
      var n' := RemoveLeaf(n, p).0;
      var remaining := AllLeaves(n');
      var focus := if pos > 0 then pos - 1 else 0;
      (n', if focus < |remaining| then Some(remaining[focus]) else None)
  }

  lemma {:induction false} WithoutDistinct(s: seq<PaneId>, p: PaneId)
    requires Distinct(s) && p in s
    ensures Without(s, p) == s[..IndexOf(s, p)] + s[IndexOf(s, p) + 1..]
  {
    if s[0] == p {
      assert p !in s[1..];
    } else {
      assert Distinct(s[1..]) by {
        DistinctConcat([s[0]], s[1..]);
        assert s == [s[0]] + s[1..];
      }
      WithoutDistinct(s[1..], p);
      var k := IndexOf(s[1..], p);
      assert s[..k + 1] == [s[0]] + s[1..][..k] && s[k + 2..] == s[1..][k + 1..];
    }
  }

  lemma CutDistinct(s: seq<PaneId>, k: nat)
    requires Distinct(s) && k < |s|
    ensures Distinct(s[..k] + s[k + 1..])
  {
    var r := s[..k] + s[k + 1..];
    assert forall i :: 0 <= i < |r| ==> r[i] == s[if i < k then i else i + 1];
  }

  /** On a tree with distinct panes, `close` removes that pane and no other, keeps the order, and hands the focus to the
      pane before it, or to the one after it when it comes first; it returns None, with the tree untouched, exactly when
      the pane is absent or alone. */
  lemma CloseLaw(n: LayoutNode, p: PaneId)
    requires Distinct(AllLeaves(n))
    ensures var s, (n', focus) := AllLeaves(n), Close(n, p);
            if p !in s || |s| == 1 then n' == n && focus == None
            else
              && AllLeaves(n') == s[..IndexOf(s, p)] + s[IndexOf(s, p) + 1..]
              && focus == Some(if s[0] == p then s[1] else s[IndexOf(s, p) - 1])
  {
    var s := AllLeaves(n);
    if p in s && |s| != 1 {
      RemoveFilters(n, p);
      WithoutDistinct(s, p);
      assert RemoveLeaf(n, p).1 ==> |AllLeaves(n)| == 1;
    }
  }

  /** `close` undoes `split_focused` and returns the focus to the pane that was split. */
  lemma SplitCloseRoundTrip(n: LayoutNode, f: PaneId, added: PaneId, o: Orient)
    requires f in AllLeaves(n) && added !in AllLeaves(n)
    ensures Close(SplitInner(n, f, added, o).0, added).1 == Some(f)
    ensures Close(SplitInner(n, f, added, o).0, added).0 == n <==> NoSingletons(n)
  {
    var s, n' := AllLeaves(n), SplitInner(n, f, added, o).0;
    SplitInsertsAfter(n, f, added, o);
    SplitThenRemove(n, f, added, o);
    InsertedPosition(s, f, added);
    RemoveFilters(n, added);
    RemoveAbsent(n, added);
  }

  /** On a window layout closing the pane just added always restores the layout. */
  lemma WindowRoundTrip(n: LayoutNode, f: PaneId, added: PaneId, o: Orient)
    requires Good(n) && f in AllLeaves(n) && added !in AllLeaves(n)
    ensures Close(SplitInner(n, f, added, o).0, added) == (n, Some(f))
  {
    BinaryHasNoSingletons(n);
    SplitCloseRoundTrip(n, f, added, o);
  }

  /** The new pane sits right after the one that was split. */
  lemma InsertedPosition(s: seq<PaneId>, f: PaneId, added: PaneId)
    requires f in s && added !in s
    ensures var k := IndexOf(s, f);
            s[k] == f && |InsertAfter(s, f, added)| == |s| + 1 && IndexOf(InsertAfter(s, f, added), added) == k + 1
  {
    var k := IndexOf(s, f);
    InsertAfterAt(s, f, added);
    var front, back := s[..k + 1], [added] + s[k + 1..];
    assert added !in front;
    IndexOfConcat(front, back, added);
    assert IndexOf(back, added) == 0;
  }

  /** A tree with a single-child split for which closing the pane just added does not restore it. */
  lemma RoundTripFailsOnSingleton()
    ensures var n := Split(Vertical, [Child(Leaf(0), 100)]);
            Close(SplitInner(n, 0, 1, Vertical).0, 1) == (Leaf(0), Some(0))
  {
    var n := Split(Vertical, [Child(Leaf(0), 100)]);
    assert AllLeaves(n) == [0] + LeavesOf(n.children[1..]) == [0];
    SplitCloseRoundTrip(n, 0, 1, Vertical);
    SplitThenRemove(n, 0, 1, Vertical);
    var (m, gone) := RemoveLeaf(Leaf(0), 1);
    assert Retain(n.children, 1) == [Child(m, 100)] + Retain(n.children[1..], 1) == [Child(Leaf(0), 100)];
    SplitInsertsAfter(n, 0, 1, Vertical);
  }

  // ---- Window layouts stay window layouts ----

  lemma {:induction false} SplitKeepsBinary(n: LayoutNode, f: PaneId, added: PaneId, o: Orient)
    requires Binary(n)
    ensures Binary(SplitInner(n, f, added, o).0)
    decreases n
  {
    if n.Split? {
      var cs := n.children;
      assert cs[0].node < cs[0] && cs[1].node < cs[1];
      SplitKeepsBinary(cs[0].node, f, added, o);
      SplitKeepsBinary(cs[1].node, f, added, o);
      assert cs[1..][0] == cs[1] && cs[1..][1..] == [];
      var rest := SplitFirst(cs[1..], f, added, o).0;
      assert rest == [Child(SplitInner(cs[1].node, f, added, o).0, cs[1].weight)];
    }
  }

  lemma {:induction false} RemoveKeepsBinary(n: LayoutNode, p: PaneId)
    requires Good(n)
    ensures Binary(RemoveLeaf(n, p).0)
    decreases n
  {
    if n.Split? {
      var cs := n.children;
      assert cs[0].node < cs[0] && cs[1].node < cs[1];
      LeavesOfTwo(cs);
      DistinctConcat(AllLeaves(cs[0].node), AllLeaves(cs[1].node));
      RemoveKeepsBinary(cs[0].node, p);
      RemoveKeepsBinary(cs[1].node, p);
      assert cs[1..][0] == cs[1] && cs[1..][1..] == [];
      var (a, goneA) := RemoveLeaf(cs[0].node, p);
      var (b, goneB) := RemoveLeaf(cs[1].node, p);
      assert Retain(cs[1..], p) == if goneB then [] else [Child(b, cs[1].weight)];
      RemoveFilters(cs[0].node, p);
      RemoveFilters(cs[1].node, p);
      assert goneA ==> p in AllLeaves(cs[0].node);
      assert goneB ==> p in AllLeaves(cs[1].node);
    }
  }

  lemma InsertKeepsDistinct(s: seq<PaneId>, f: PaneId, added: PaneId)
    requires Distinct(s) && added !in s
    ensures Distinct(InsertAfter(s, f, added))
  {
    if f !in s {
      InsertAfterAbsent(s, f, added);
    } else {
      InsertAfterAt(s, f, added);
      var k := IndexOf(s, f);
      var front, back := s[..k + 1], s[k + 1..];
      assert s == front + back;
      DistinctConcat(front, back);
      DistinctConcat([added], back);
      DistinctConcat(front, [added] + back);
    }
  }

  lemma SplitKeepsGood(n: LayoutNode, f: PaneId, added: PaneId, o: Orient)
    requires Good(n) && added !in AllLeaves(n)
    ensures Good(SplitInner(n, f, added, o).0)
  {
    SplitKeepsBinary(n, f, added, o);
    SplitInsertsAfter(n, f, added, o);
    InsertKeepsDistinct(AllLeaves(n), f, added);
  }

  lemma CloseKeepsGood(n: LayoutNode, p: PaneId)
    requires Good(n)
    ensures Good(Close(n, p).0)
  {
    RemoveKeepsBinary(n, p);
    CloseLaw(n, p);
    if p in AllLeaves(n) {
      CutDistinct(AllLeaves(n), IndexOf(AllLeaves(n), p));
    }
  }
}
