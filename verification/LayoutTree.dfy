/** The tiling tree shared by the daemon and every client, and the readings that depend on its shape alone.
    A split keeps its orientation as a field; the source has one constructor for each orientation. */
module LayoutTree {
  import opened Arith

  type PaneId(==, !new) = nat

  /** `Vertical` is side by side (children laid along x), `Horizontal` is stacked (along y). */
  datatype Orient = Vertical | Horizontal

  datatype LayoutNode =
    | Leaf(id: PaneId)
    | Split(orient: Orient, children: seq<Child>)

  datatype Child = Child(node: LayoutNode, weight: u16)

  /** Pane ids in depth-first order. */
  function AllLeaves(n: LayoutNode): seq<PaneId>
    decreases n, 1
  {
    match n
    case Leaf(id) => [id]
    case Split(_, cs) => LeavesOf(cs)
  }

  function LeavesOf(cs: seq<Child>): seq<PaneId>
    decreases cs, 0
  {
    if cs == [] then [] else
      assert cs[0].node < cs[0];
      AllLeaves(cs[0].node) + LeavesOf(cs[1..])
  }

  function Weights(cs: seq<Child>): seq<int> {
    seq(|cs|, i requires 0 <= i < |cs| => cs[i].weight)
  }

  function Sum(ws: seq<int>): int {
    if ws == [] then 0 else ws[0] + Sum(ws[1..])
  }

  function TotalWeight(cs: seq<Child>): nat {
    if cs == [] then 0 else cs[0].weight + TotalWeight(cs[1..])
  }

  /** The position of the first occurrence of `x`, or `|s|`. */
  function IndexOf<T(==)>(s: seq<T>, x: T): (i: nat)
    ensures i <= |s|
    ensures x !in s[..i]
    ensures i < |s| ==> s[i] == x
    ensures i < |s| <==> x in s
  {
    if s == [] then 0
    else if s[0] == x then 0
    else
      var i := 1 + IndexOf(s[1..], x);
      assert s == [s[0]] + s[1..] && s[..i] == [s[0]] + s[1..][..i - 1];
      i
  }

  lemma Assoc<T>(a: seq<T>, b: seq<T>, c: seq<T>)
    ensures (a + b) + c == a + (b + c)
  {
  }

  lemma DistinctConcat<T>(a: seq<T>, b: seq<T>)
    ensures Distinct(a + b) ==> Distinct(a) && Distinct(b) && forall x :: x in a ==> x !in b
    ensures Distinct(a) && Distinct(b) && (forall x :: x in a ==> x !in b) ==> Distinct(a + b)
  {
    var s := a + b;
    if Distinct(s) {
      forall i, j | 0 <= i < j < |a| ensures a[i] != a[j] {
        assert s[i] != s[j];
      }
      forall i, j | 0 <= i < j < |b| ensures b[i] != b[j] {
        assert s[|a| + i] != s[|a| + j];
      }
      forall i, j | 0 <= i < |a| && 0 <= j < |b| ensures a[i] != b[j] {
        assert s[i] != s[|a| + j];
      }
    } else if Distinct(a) && Distinct(b) && forall x :: x in a ==> x !in b {
      forall i, j | 0 <= i < j < |s| ensures s[i] != s[j] {
        if i < |a| <= j {
          assert a[i] in a && b[j - |a|] in b;
        } else if |a| <= i {
          assert b[i - |a|] != b[j - |a|];
        }
      }
    }
  }

  // ---- Shape predicates ----

  /** Every split has exactly two children with weights in [5, 95] that sum to 100. */
  ghost predicate Binary(n: LayoutNode) {
    match n
    case Leaf(_) => true
    case Split(_, cs) =>
      && |cs| == 2
      && 5 <= cs[0].weight <= 95
      && cs[0].weight + cs[1].weight == 100
      && Binary(cs[0].node) && Binary(cs[1].node)
  }

  /** No split has exactly one child. */
  ghost predicate NoSingletons(n: LayoutNode)
    decreases n, 1
  {
    match n
    case Leaf(_) => true
    case Split(_, cs) => |cs| != 1 && NoSingletonsIn(cs)
  }

  ghost predicate NoSingletonsIn(cs: seq<Child>)
    decreases cs, 0
  {
    cs == [] || (assert cs[0].node < cs[0]; NoSingletons(cs[0].node) && NoSingletonsIn(cs[1..]))
  }

  /** The invariant of every window layout. */
  ghost predicate Good(n: LayoutNode) {
    Binary(n) && Distinct(AllLeaves(n))
  }

  lemma LeavesOfTwo(cs: seq<Child>)
    requires |cs| == 2
    ensures LeavesOf(cs) == AllLeaves(cs[0].node) + AllLeaves(cs[1].node)
    ensures TotalWeight(cs) == cs[0].weight + cs[1].weight
  {
    assert cs[1..][0] == cs[1] && cs[1..][1..] == [];
    assert LeavesOf(cs[1..]) == AllLeaves(cs[1].node) + [];
    assert TotalWeight(cs[1..]) == cs[1].weight;
  }

  lemma BinaryHasNoSingletons(n: LayoutNode)
    requires Binary(n)
    ensures NoSingletons(n)
    decreases n
  {
    if n.Split? {
      var cs := n.children;
      BinaryHasNoSingletons(cs[0].node);
      BinaryHasNoSingletons(cs[1].node);
      assert cs[1..][1..] == [] && cs[1..][0] == cs[1];
      assert NoSingletonsIn(cs[1..]);
    }
  }
}
