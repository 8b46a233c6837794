/** Moving the keyboard focus to the nearest pane in a direction. */
module LayoutFocus {
  import opened Arith
  import opened LayoutTree
  import opened LayoutGeometry

  datatype Dir = Left | Right | Up | Down

  const VIRTUAL_VIEWPORT := Rect(0, 0, 1_000, 1_000)

  function Opposite(d: Dir): Dir {
    match d
    case Left => Right
    case Right => Left
    case Up => Down
    case Down => Up
  }

  /** `r` lies wholly beyond the edge of `cur` that faces `d`. */
  predicate Beyond(cur: Rect, r: Rect, d: Dir) {
    match d
    case Left => r.x + r.w <= cur.x
    case Right => r.x >= cur.x + cur.w
    case Up => r.y + r.h <= cur.y
    case Down => r.y >= cur.y + cur.h
  }

  function Abs(x: int): (a: nat)
    ensures a == x || a == -x
  {
    if x < 0 then -x else x
  }

  /** Manhattan distance between the (integer) centres. */
  function Distance(a: Rect, b: Rect): nat {
    Abs((b.x + b.w / 2) - (a.x + a.w / 2)) + Abs((b.y + b.h / 2) - (a.y + a.h / 2))
  }

  function Candidates(ps: seq<Placed>, current: PaneId, cur: Rect, d: Dir): (r: seq<Placed>)
    ensures forall q :: q in r <==> q in ps && q.id != current && Beyond(cur, q.rect, d)
  {
    if ps == [] then [] else
      var rest := Candidates(ps[1..], current, cur, d);
      assert ps == [ps[0]] + ps[1..];
      if ps[0].id != current && Beyond(cur, ps[0].rect, d) then [ps[0]] + rest else rest
  }

  /** The first candidate at the smallest distance. */
  function Closest(ps: seq<Placed>, cur: Rect): (r: Placed)
    requires ps != []
    ensures r in ps
    ensures forall q :: q in ps ==> Distance(cur, r.rect) <= Distance(cur, q.rect)
  {
    if |ps| == 1 then ps[0] else
      var rest := Closest(ps[1..], cur);
      assert ps == [ps[0]] + ps[1..];
      if Distance(cur, ps[0].rect) <= Distance(cur, rest.rect) then ps[0] else rest
  }

  function FocusDir(n: LayoutNode, current: PaneId, d: Dir): Option<PaneId> {
    var ps := Leaves(n, VIRTUAL_VIEWPORT);
    match FindRect(ps, current)
    case None => None
    case Some(cur) =>
      var cs := Candidates(ps, current, cur, d);
      if cs == [] then None else Some(Closest(cs, cur).id)
  }

  /** The place of a pane in the virtual viewport. */
  function PlaceOf(n: LayoutNode, p: PaneId): (r: Rect)
    requires p in AllLeaves(n)
    ensures RectFor(n, Rect(0, 0, 1_000, 1_000), p) == Some(r)
  {
    RectForIff(n, VIRTUAL_VIEWPORT, p);
    RectFor(n, VIRTUAL_VIEWPORT, p).value
  }

  lemma PlacedAt(n: LayoutNode, p: PaneId)
    requires p in AllLeaves(n)
    ensures Placed(p, PlaceOf(n, p)) in Leaves(n, VIRTUAL_VIEWPORT)
  {
    RectForIff(n, VIRTUAL_VIEWPORT, p);
  }

  lemma PlacedOnlyThere(n: LayoutNode, q: Placed)
    requires Distinct(AllLeaves(n)) && q in Leaves(n, VIRTUAL_VIEWPORT)
    ensures q.id in AllLeaves(n) && q.rect == PlaceOf(n, q.id)
  {
    LeavesKeepOrder(n, VIRTUAL_VIEWPORT);
    var k :| 0 <= k < |Leaves(n, VIRTUAL_VIEWPORT)| && Leaves(n, VIRTUAL_VIEWPORT)[k] == q;
    assert Ids(Leaves(n, VIRTUAL_VIEWPORT))[k] == q.id;
    RectForIff(n, VIRTUAL_VIEWPORT, q.id);
    assert Placed(q.id, q.rect) in Leaves(n, VIRTUAL_VIEWPORT);
  }

  lemma ClosestCons(x: Placed, rest: seq<Placed>, cur: Rect)
    ensures Closest([x] + rest, cur)
         == if rest == [] || Distance(cur, x.rect) <= Distance(cur, Closest(rest, cur).rect) then x
            else Closest(rest, cur)
  {
    assert ([x] + rest)[1..] == rest;
  }

  ghost predicate Farther(q: Placed, cur: Rect, than: nat) {
    Distance(cur, q.rect) > than
  }

  /** The answer is the first pane, if it qualifies and no later one is nearer, or else the answer among the others. */
  lemma AnswerCons(ps: seq<Placed>, current: PaneId, cur: Rect, d: Dir)
    requires Candidates(ps, current, cur, d) != []
    ensures var answer, rest := Closest(Candidates(ps, current, cur, d), cur), Candidates(ps[1..], current, cur, d);
            || answer == ps[0]
            || (rest != [] && answer == Closest(rest, cur)
                && (ps[0].id != current && Beyond(cur, ps[0].rect, d) ==>
                      Farther(ps[0], cur, Distance(cur, answer.rect))))
  {
    var rest := Candidates(ps[1..], current, cur, d);
    if ps[0].id != current && Beyond(cur, ps[0].rect, d) {
      assert Candidates(ps, current, cur, d) == [ps[0]] + rest;
      ClosestCons(ps[0], rest, cur);
    }
  }

  /** The answer stands in `ps` where no pane before it that qualifies is as near. */
  lemma {:induction false} FirstNearest(ps: seq<Placed>, current: PaneId, cur: Rect, d: Dir) returns (k: nat)
    requires Candidates(ps, current, cur, d) != []
    ensures k < |ps| && ps[k] == Closest(Candidates(ps, current, cur, d), cur)
    ensures forall j :: 0 <= j < k && ps[j].id != current && Beyond(cur, ps[j].rect, d) ==>
              Farther(ps[j], cur, Distance(cur, Closest(Candidates(ps, current, cur, d), cur).rect))
  {
    AnswerCons(ps, current, cur, d);
    var answer := Closest(Candidates(ps, current, cur, d), cur);
    if answer == ps[0] {
      return 0;
    }
    var k' := FirstNearest(ps[1..], current, cur, d);
    k := k' + 1;
    var near := Distance(cur, answer.rect);
    forall j | 0 <= j < k && ps[j].id != current && Beyond(cur, ps[j].rect, d) ensures Farther(ps[j], cur, near) {
      assert j > 0 ==> ps[j] == ps[1..][j - 1];
    }
  }

  lemma FirstOfEquals(n: LayoutNode, p: PaneId, d: Dir, r: PaneId)
    requires Distinct(AllLeaves(n)) && p in AllLeaves(n) && r in AllLeaves(n) && r != p
    requires Beyond(PlaceOf(n, p), PlaceOf(n, r), d) && FocusDir(n, p, d).Some?
    requires var cur := PlaceOf(n, p);
             var cs := Candidates(Leaves(n, VIRTUAL_VIEWPORT), p, cur, d);
             cs != [] && Distance(cur, Closest(cs, cur).rect) == Distance(cur, PlaceOf(n, r))
    ensures FocusDir(n, p, d).value in AllLeaves(n)
    ensures IndexOf(AllLeaves(n), FocusDir(n, p, d).value) <= IndexOf(AllLeaves(n), r)
  {
    var ps, all := Leaves(n, VIRTUAL_VIEWPORT), AllLeaves(n);
    RectForIff(n, VIRTUAL_VIEWPORT, p);
    RectForIff(n, VIRTUAL_VIEWPORT, r);
    LeavesKeepOrder(n, VIRTUAL_VIEWPORT);
    var k := FirstNearest(ps, p, PlaceOf(n, p), d);
    assert all[k] == ps[k].id;
    var j := IndexOf(all, r);
    assert all[j] == ps[j].id && ps[j].rect == PlaceOf(n, r);
  }

  /** The answer is a pane beyond the edge, nearest among those that qualify and the first of several equally near
      ones, and there is no answer exactly when no pane qualifies. */
  lemma FocusDirLaw(n: LayoutNode, p: PaneId, d: Dir)
    requires Distinct(AllLeaves(n)) && p in AllLeaves(n)
    ensures FocusDir(n, p, d).Some? ==>
              var q := FocusDir(n, p, d).value;
              && q in AllLeaves(n) && q != p && Beyond(PlaceOf(n, p), PlaceOf(n, q), d)
              && forall r :: r in AllLeaves(n) && r != p && Beyond(PlaceOf(n, p), PlaceOf(n, r), d) ==>
                   && Distance(PlaceOf(n, p), PlaceOf(n, q)) <= Distance(PlaceOf(n, p), PlaceOf(n, r))
                   && (Distance(PlaceOf(n, p), PlaceOf(n, q)) == Distance(PlaceOf(n, p), PlaceOf(n, r)) ==>
                         IndexOf(AllLeaves(n), q) <= IndexOf(AllLeaves(n), r))
    ensures FocusDir(n, p, d) == None ==>
              forall r :: r in AllLeaves(n) && r != p ==> !Beyond(PlaceOf(n, p), PlaceOf(n, r), d)
  {
    var ps, cur, all := Leaves(n, VIRTUAL_VIEWPORT), PlaceOf(n, p), AllLeaves(n);
    RectForIff(n, VIRTUAL_VIEWPORT, p);
    var cs := Candidates(ps, p, cur, d);
    forall r | r in all && r != p && Beyond(cur, PlaceOf(n, r), d)
      ensures Placed(r, PlaceOf(n, r)) in cs
      ensures cs != [] && Distance(cur, Closest(cs, cur).rect) == Distance(cur, PlaceOf(n, r)) ==>
                IndexOf(all, Closest(cs, cur).id) <= IndexOf(all, r)
    {
      PlacedAt(n, r);
      if Distance(cur, Closest(cs, cur).rect) == Distance(cur, PlaceOf(n, r)) {
        FirstOfEquals(n, p, d, r);
      }
    }
    if cs != [] {
      PlacedOnlyThere(n, Closest(cs, cur));
    }
  }

  lemma FocusAmong(n: LayoutNode, p: PaneId, d: Dir, r: PaneId, a: Rect, c: Rect)
    requires Distinct(AllLeaves(n)) && r != p
    requires RectFor(n, VIRTUAL_VIEWPORT, p) == Some(a) && RectFor(n, VIRTUAL_VIEWPORT, r) == Some(c)
    ensures match FocusDir(n, p, d)
            case None => !Beyond(a, c, d)
            case Some(q) =>
              && q != p && RectFor(n, VIRTUAL_VIEWPORT, q).Some?
              && var b := RectFor(n, VIRTUAL_VIEWPORT, q).value;
              && Beyond(a, b, d)
              && (Beyond(a, c, d) ==>
                    || Distance(a, b) < Distance(a, c)
                    || (Distance(a, b) == Distance(a, c) && IndexOf(AllLeaves(n), q) <= IndexOf(AllLeaves(n), r)))
  {
    RectForIff(n, VIRTUAL_VIEWPORT, p);
    RectForIff(n, VIRTUAL_VIEWPORT, r);
    FocusDirLaw(n, p, d);
  }

  /** The law in coordinates: the places of the pane, of the answer and of another pane in the 1000 by 1000 viewport. */
  lemma FocusInCoordinates(n: LayoutNode, p: PaneId, d: Dir, q: PaneId, r: PaneId, a: Rect, b: Rect, c: Rect)
    requires Distinct(AllLeaves(n)) && r != p && FocusDir(n, p, d) == Some(q)
    requires RectFor(n, Rect(0, 0, 1_000, 1_000), p) == Some(a) && RectFor(n, Rect(0, 0, 1_000, 1_000), q) == Some(b)
    requires RectFor(n, Rect(0, 0, 1_000, 1_000), r) == Some(c)
    ensures q != p
    ensures match d
            case Left => b.x + b.w <= a.x
            case Right => b.x >= a.x + a.w
            case Up => b.y + b.h <= a.y
            case Down => b.y >= a.y + a.h
    ensures (match d
             case Left => c.x + c.w <= a.x
             case Right => c.x >= a.x + a.w
             case Up => c.y + c.h <= a.y
             case Down => c.y >= a.y + a.h) ==>
              || Distance(a, b) < Distance(a, c)
              || (Distance(a, b) == Distance(a, c) && IndexOf(AllLeaves(n), q) <= IndexOf(AllLeaves(n), r))
    ensures Distance(a, c) == Abs((c.x + c.w / 2) - (a.x + a.w / 2)) + Abs((c.y + c.h / 2) - (a.y + a.h / 2))
  {
    FocusAmong(n, p, d, r, a, c);
  }

  /** Every other pane qualifies in at least one of the four directions. */
  lemma SomeDirectionQualifies(n: LayoutNode, p: PaneId, q: PaneId)
    requires Distinct(AllLeaves(n)) && p in AllLeaves(n) && q in AllLeaves(n) && p != q
    ensures exists d :: Beyond(PlaceOf(n, p), PlaceOf(n, q), d)
  {
    var ps, a, b := Leaves(n, VIRTUAL_VIEWPORT), PlaceOf(n, p), PlaceOf(n, q);
    PlacedAt(n, p);
    PlacedAt(n, q);
    LeavesGeometry(n, VIRTUAL_VIEWPORT);
    var i :| 0 <= i < |ps| && ps[i] == Placed(p, a);
    var j :| 0 <= j < |ps| && ps[j] == Placed(q, b);
    if i < j {
      assert Precedes(ps[i].rect, ps[j].rect);
      assert Beyond(a, b, Right) || Beyond(a, b, Down);
    } else {
      assert Precedes(ps[j].rect, ps[i].rect);
      assert Beyond(a, b, Left) || Beyond(a, b, Up);
    }
  }

  /** No neighbour in any direction means that the pane is alone. */
  lemma NoNeighbourMeansAlone(n: LayoutNode, p: PaneId)
    requires Distinct(AllLeaves(n)) && p in AllLeaves(n)
    ensures (forall d :: FocusDir(n, p, d) == None) <==> AllLeaves(n) == [p]
  {
    var s := AllLeaves(n);
    if s == [p] {
      forall d ensures FocusDir(n, p, d) == None {
        FocusDirLaw(n, p, d);
      }
    } else {
      var q := if s[0] != p then s[0] else s[1];
      assert q in s && q != p;
      SomeDirectionQualifies(n, p, q);
      var d :| Beyond(PlaceOf(n, p), PlaceOf(n, q), d);
      FocusDirLaw(n, p, d);
      assert FocusDir(n, p, d) != None;
    }
  }

  /** After a move, the opposite move is always possible. */
  lemma MovesCanBeReversed(n: LayoutNode, p: PaneId, d: Dir)
    requires Distinct(AllLeaves(n)) && FocusDir(n, p, d).Some?
    ensures FocusDir(n, FocusDir(n, p, d).value, Opposite(d)).Some?
  {
    RectForIff(n, VIRTUAL_VIEWPORT, p);
    FocusDirLaw(n, p, d);
    var q := FocusDir(n, p, d).value;
    assert Beyond(PlaceOf(n, q), PlaceOf(n, p), Opposite(d));
    FocusDirLaw(n, q, Opposite(d));
  }
}
