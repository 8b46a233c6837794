/** Changing weights: the rebalancing of `set_weight`, done in place on the weights of one split, and the drag
    of a boundary between two panes. */
module LayoutWeights {
  import opened Arith
  import opened LayoutTree

  // ---- Rebalancing the weights of one split ----

  /** The new weight of a sibling when `d` units are shared among siblings of total weight `s`. */
  function NewWeight(w: int, d: int, s: int): int
    requires s > 0
  {
    Clamp(w + TruncDiv(w * d, s), 5, 95)
  }

  /** Every weight but the one at `idx` takes its share of `d`. */
  function Spread(ws: seq<int>, idx: nat, d: int, s: int): (r: seq<int>)
    requires s > 0
    ensures |r| == |ws|
  {
    seq(|ws|, i requires 0 <= i < |ws| => if i == idx then ws[i] else NewWeight(ws[i], d, s))
  }

  function LastSibling(count: nat, idx: nat): nat
    requires idx < count && count >= 2
  {
    if idx == count - 1 then count - 2 else count - 1
  }

  /** What truncation and clamping leave undistributed when the weight at `idx` becomes `clamped`. */
  function Leftover(ws: seq<int>, idx: nat, clamped: int): int
    requires idx < |ws| && Sum(ws) - ws[idx] > 0
  {
    var d := ws[idx] - clamped;
    var target := ws[idx := clamped];
    d - (Sum(Spread(target, idx, d, Sum(ws) - ws[idx])) - Sum(target))
  }

  /** The siblings after taking their shares and the last of them the leftover. */
  function Settled(ws: seq<int>, idx: nat, clamped: int): (r: seq<int>)
    requires idx < |ws|
    ensures |r| == |ws| && r[idx] == clamped
  {
    var target := ws[idx := clamped];
    var s := Sum(ws) - ws[idx];
    if s > 0 then
      assert |ws| == 1 ==> ws[1..] == [] && Sum(ws) == ws[0] + Sum(ws[1..]);
      var spread := Spread(target, idx, ws[idx] - clamped, s);
      var k := LastSibling(|ws|, idx);
      spread[k := Clamp(spread[k] + Leftover(ws, idx, clamped), 5, 95)]
    else target
  }

  /** The weights after the one at `idx` was asked to become `request`. */
  function Rebalanced(ws: seq<int>, idx: nat, request: int): (r: seq<int>)
    requires idx < |ws|
    ensures |r| == |ws|
    ensures Bounded(ws) ==> Bounded(r)
  {
    var clamped := Clamp(request, 5, 95);
    if clamped == ws[idx] then ws
    else
      var settled := Settled(ws, idx, clamped);
      var total := Sum(settled);
      if total == 100 then settled else settled[idx := Clamp(clamped + 100 - total, 5, 95)]
  }

  /** Every weight fits its 16-bit field. */
  predicate Bounded(ws: seq<int>) {
    forall i :: 0 <= i < |ws| ==> 0 <= ws[i] < 0x1_0000
  }

  lemma {:induction false} SumUpdate(ws: seq<int>, i: nat, v: int)
    requires i < |ws|
    ensures Sum(ws[i := v]) == Sum(ws) - ws[i] + v
  {
    if i == 0 {
      assert ws[0 := v][1..] == ws[1..];
    } else {
      assert ws[i := v][1..] == ws[1..][i - 1 := v];
      SumUpdate(ws[1..], i - 1, v);
    }
  }

  /** The loops of the source over the weights of the children of one split. */
  method RebalanceInPlace(ws: array<u16>, idx: nat, request: u16)
    requires idx < ws.Length
    modifies ws
    ensures ws[..] == Rebalanced(old(ws[..]), idx, request)
  {
    ghost var was: seq<int> := ws[..];
    var clamped: u16 := Clamp(request, 5, 95);
    var before := ws[idx];
    if clamped == before {
      return;
    }
    SettleInPlace(ws, idx, clamped);
    ghost var settled: seq<int> := ws[..];
    var total := SumArray(ws);
    if total != 100 {
      ws[idx] := Clamp(ws[idx] + (100 - total), 5, 95);
      assert ws[..] == settled[idx := Clamp(clamped + 100 - total, 5, 95)];
    }
  }

  /** Set the target, spread the difference over the siblings and give the leftover to the last of them. */
  method SettleInPlace(ws: array<u16>, idx: nat, clamped: u16)
    requires idx < ws.Length
    modifies ws
    ensures ws[..] == Settled(old(ws[..]), idx, clamped)
  {
    ghost var was: seq<int> := ws[..];
    ghost var target := was[idx := clamped];
    var delta := clamped - ws[idx];
    ws[idx] := clamped;
    assert ws[..] == target;
    SumUpdate(was, idx, clamped);
    var siblings := SiblingTotal(ws, idx);
    assert siblings == Sum(was) - was[idx];
    assert ws.Length == 1 ==> was[1..] == [];
    if siblings > 0 {
      var leftover := SpreadInPlace(ws, idx, -delta, siblings);
      ghost var spread: seq<int> := ws[..];
      assert spread == Spread(target, idx, was[idx] - clamped, siblings) && leftover == Leftover(was, idx, clamped);
      var last := if idx == ws.Length - 1 then idx - 1 else ws.Length - 1;
      ws[last] := Clamp(ws[last] + leftover, 5, 95);
      assert ws[..] == spread[last := Clamp(spread[last] + leftover, 5, 95)];
    }
  }

  method SpreadInPlace(ws: array<u16>, idx: nat, d: int, siblings: int) returns (leftover: int)
    requires idx < ws.Length && siblings > 0
    modifies ws
    ensures ws[..] == Spread(old(ws[..]), idx, d, siblings)
    ensures leftover == d - (Sum(ws[..]) - Sum(old(ws[..])))
  {
    ghost var was: seq<int> := ws[..];
    leftover := d;
    for i := 0 to ws.Length
      invariant forall j :: 0 <= j < i ==> ws[j] == Spread(was, idx, d, siblings)[j]
      invariant forall j :: i <= j < ws.Length ==> ws[j] == was[j]
      invariant leftover == d - (Sum(ws[..]) - Sum(was))
    {
      if i != idx {
        ghost var prior: seq<int> := ws[..];
        var share := TruncDiv(ws[i] * d, siblings);
        var adjusted: u16 := Clamp(ws[i] + share, 5, 95);
        leftover := leftover - (adjusted - ws[i]);
        ws[i] := adjusted;
        SumUpdate(prior, i, adjusted);
        assert ws[..] == prior[i := adjusted];
      }
    }
    assert ws[..] == Spread(was, idx, d, siblings);
  }

  method SumArray(ws: array<u16>) returns (total: int)
    ensures total == Sum(ws[..])
  {
    total := 0;
    assert ws[0..] == ws[..];
    for i := 0 to ws.Length
      invariant total + Sum(ws[i..]) == Sum(ws[..])
    {
      assert ws[i..][1..] == ws[i + 1..];
      total := total + ws[i];
    }
  }

  method SiblingTotal(ws: array<u16>, idx: nat) returns (total: int)
    requires idx < ws.Length
    ensures total == Sum(ws[..]) - ws[idx]
  {
    total := 0;
    assert ws[0..] == ws[..];
    for i := 0 to ws.Length
      invariant total + Sum(ws[i..]) == Sum(ws[..]) - (if i > idx then ws[idx] else 0)
    {
      assert ws[i..][1..] == ws[i + 1..];
      if i != idx {
        total := total + ws[i];
      }
    }
  }

  // ---- What the rebalancing guarantees ----

  /** The weights of a well-formed split: at least two, each at least 5, summing to 100. */
  ghost predicate Balanced(ws: seq<int>) {
    |ws| >= 2 && (forall i :: 0 <= i < |ws| ==> ws[i] >= 5) && Sum(ws) == 100
  }

  lemma ShareOf(p: nat, d: nat, s: int)
    requires s > 0 && p <= d * s
    ensures 0 <= TruncDiv(p, s) <= d && TruncDiv(p, s) * s <= p
  {
    TruncDivBounds(p, s);
    MulCancel(TruncDiv(p, s), d, s);
  }

  lemma SharesUp(w: int, d: nat, s: int)
    requires 5 <= w <= s && s + d <= 95
    ensures w <= NewWeight(w, d, s) && (NewWeight(w, d, s) - w) * s <= w * d
  {
    MulMono(w, s, d);
    assert 0 <= w * d <= d * s;
    ShareOf(w * d, d, s);
    assert NewWeight(w, d, s) - w == TruncDiv(w * d, s);
  }

  lemma SharesDown(w: int, d: int, s: int)
    requires 5 <= w <= s <= 95 && d <= 0
    ensures 5 <= NewWeight(w, d, s) <= w && (NewWeight(w, d, s) - w) * s >= w * d
  {
    assert w * d <= 0;
    var share := TruncDiv(w * d, s);
    TruncDivBounds(w * d, s);
    MulMono(share, NewWeight(w, d, s) - w, s);
  }

  /** A change `gain` of weights that total `w` lies between zero and their exact share of `d` out of `s`. */
  ghost predicate WithinShare(gain: int, w: int, d: int, s: int) {
    && (d >= 0 ==> 0 <= gain && gain * s <= w * d)
    && (d <= 0 ==> gain <= 0 && gain * s >= w * d)
  }

  /** One sibling moves in the direction of `d`, by no more than its exact share. */
  lemma NewWeightBounds(w: int, d: int, s: int)
    requires 5 <= w <= s && s + d <= 95 && s <= 95
    ensures WithinShare(NewWeight(w, d, s) - w, w, d, s) && NewWeight(w, d, s) >= 5
  {
    if d >= 0 {
      SharesUp(w, d, s);
    }
    if d <= 0 {
      SharesDown(w, d, s);
    }
  }

  lemma {:induction false} SumWithinShare(gains: seq<int>, ws: seq<int>, d: int, s: int)
    requires |gains| == |ws| && forall i :: 0 <= i < |ws| ==> WithinShare(gains[i], ws[i], d, s)
    ensures WithinShare(Sum(gains), Sum(ws), d, s)
  {
    if ws != [] {
      SumWithinShare(gains[1..], ws[1..], d, s);
      AddShares(gains[0], Sum(gains[1..]), ws[0], Sum(ws[1..]), d, s);
    }
  }

  lemma AddShares(g: int, g': int, w: int, w': int, d: int, s: int)
    requires WithinShare(g, w, d, s) && WithinShare(g', w', d, s)
    ensures WithinShare(g + g', w + w', d, s)
  {
    MulDist(g, g', s);
    MulDist(w, w', d);
  }

  /** The change of each sibling; 0 at `idx`. */
  function Gains(ws: seq<int>, idx: nat, d: int, s: int): seq<int>
    requires s > 0
  {
    seq(|ws|, i requires 0 <= i < |ws| => if i == idx then 0 else NewWeight(ws[i], d, s) - ws[i])
  }

  lemma {:induction false} SumAdd(a: seq<int>, b: seq<int>, c: seq<int>)
    requires |a| == |b| == |c| && forall i :: 0 <= i < |a| ==> c[i] == a[i] + b[i]
    ensures Sum(c) == Sum(a) + Sum(b)
  {
    if a != [] {
      SumAdd(a[1..], b[1..], c[1..]);
    }
  }

  ghost predicate NonNegative(ws: seq<int>) {
    forall i :: 0 <= i < |ws| ==> ws[i] >= 0
  }

  lemma {:induction false} SumAtLeast(ws: seq<int>, i: nat)
    requires NonNegative(ws) && i < |ws|
    ensures ws[i] <= Sum(ws)
  {
    if i > 0 {
      SumAtLeast(ws[1..], i - 1);
    } else if |ws| > 1 {
      SumAtLeast(ws[1..], 0);
    }
  }

  lemma {:induction false} PairAtMostSum(ws: seq<int>, i: nat, j: nat)
    requires NonNegative(ws) && i < j < |ws|
    ensures ws[i] + ws[j] <= Sum(ws)
  {
    if i == 0 {
      SumAtLeast(ws[1..], j - 1);
    } else {
      PairAtMostSum(ws[1..], i - 1, j - 1);
    }
  }

  lemma SiblingsBelow(ws: seq<int>, idx: nat)
    requires Balanced(ws) && idx < |ws|
    ensures 5 <= ws[idx] <= 95
    ensures forall i :: 0 <= i < |ws| && i != idx ==> 5 <= ws[i] && ws[i] + ws[idx] <= 100
  {
    forall i | 0 <= i < |ws| && i != idx ensures ws[i] + ws[idx] <= 100 {
      PairAtMostSum(ws, if i < idx then i else idx, if i < idx then idx else i);
    }
    var other := if idx == 0 then 1 else 0;
    assert ws[other] >= 5;
  }

  /** Siblings of total weight `s` together change by at most `d`. */
  lemma GainBounds(target: seq<int>, idx: nat, d: int, s: int)
    requires 0 < s <= 95 && s + d <= 95 && idx < |target| && Sum(target) - target[idx] == s
    requires forall i :: 0 <= i < |target| && i != idx ==> 5 <= target[i] <= s
    ensures var gain := Sum(Spread(target, idx, d, s)) - Sum(target);
            (d >= 0 ==> 0 <= gain <= d) && (d <= 0 ==> d <= gain <= 0)
  {
    var gains, siblings := Gains(target, idx, d, s), target[idx := 0];
    SumAdd(target, gains, Spread(target, idx, d, s));
    SumUpdate(target, idx, 0);
    forall i | 0 <= i < |target| ensures WithinShare(gains[i], siblings[i], d, s) {
      if i == idx {
        NoShare(d, s);
      } else {
        NewWeightBounds(target[i], d, s);
      }
    }
    SumWithinShare(gains, siblings, d, s);
    WholeShare(Sum(gains), d, s);
  }

  lemma NoShare(d: int, s: int)
    ensures WithinShare(0, 0, d, s)
  {
  }

  /** The share of the whole is all there is to share. */
  lemma WholeShare(gain: int, d: int, s: int)
    requires s > 0 && WithinShare(gain, s, d, s)
    ensures d >= 0 ==> 0 <= gain <= d
    ensures d <= 0 ==> d <= gain <= 0
  {
    if d >= 0 {
      MulCancel(gain, d, s);
    }
    if d <= 0 {
      MulCancel(d, gain, s);
    }
  }

  /** The leftover lies between zero and the amount to share. */
  lemma LeftoverBounds(ws: seq<int>, idx: nat, clamped: int)
    requires Balanced(ws) && idx < |ws| && 5 <= clamped <= 95
    ensures Sum(ws) - ws[idx] > 0
    ensures var d := ws[idx] - clamped;
            (d >= 0 ==> 0 <= Leftover(ws, idx, clamped) <= d) && (d <= 0 ==> d <= Leftover(ws, idx, clamped) <= 0)
  {
    SiblingsBelow(ws, idx);
    SumUpdate(ws, idx, clamped);
    var d, s, target := ws[idx] - clamped, Sum(ws) - ws[idx], ws[idx := clamped];
    assert Sum(target) - target[idx] == s;
    forall i | 0 <= i < |target| && i != idx ensures 5 <= target[i] <= s {
      assert target[i] == ws[i];
    }
    GainBounds(target, idx, d, s);
    assert Leftover(ws, idx, clamped) == d - (Sum(Spread(target, idx, d, s)) - Sum(target));
  }

  /** By how much a growth falls short: what the last sibling could not give up without dropping below 5. */
  function Shortfall(ws: seq<int>, idx: nat, clamped: int): nat
    requires |ws| >= 2 && idx < |ws| && Sum(ws) - ws[idx] > 0
  {
    var k := LastSibling(|ws|, idx);
    Max(0, 5 - (NewWeight(ws[k], ws[idx] - clamped, Sum(ws) - ws[idx]) + Leftover(ws, idx, clamped)))
  }

  /** For every well-formed split and every request: the weights still sum to exactly 100, each in [5, 95]; a
      shrink lands on the clamped request and a growth between the old weight and it, short by `Shortfall`;
      siblings only ever move the other way. */
  lemma RebalanceGuarantee(ws: seq<int>, idx: nat, request: int)
    requires Balanced(ws) && idx < |ws|
    ensures Sum(ws) - ws[idx] > 0
    ensures Balanced(Rebalanced(ws, idx, request))
    ensures forall i :: 0 <= i < |ws| ==> 5 <= Rebalanced(ws, idx, request)[i] <= 95
    ensures var r, clamped := Rebalanced(ws, idx, request), Clamp(request, 5, 95);
            && (clamped <= ws[idx] ==>
                  r[idx] == clamped && forall i :: 0 <= i < |r| && i != idx ==> r[i] >= ws[i])
            && (clamped > ws[idx] ==>
                  && ws[idx] <= r[idx] == clamped - Shortfall(ws, idx, clamped)
                  && forall i :: 0 <= i < |r| && i != idx ==> r[i] <= ws[i])
  {
    SiblingsBelow(ws, idx);
    var r, clamped := Rebalanced(ws, idx, request), Clamp(request, 5, 95);
    if clamped == ws[idx] {
      forall i | 0 <= i < |ws| ensures ws[i] <= 95 {
        SiblingsBelow(ws, i);
      }
    } else {
      SettledSum(ws, idx, clamped);
      forall i | 0 <= i < |ws| && i != idx
        ensures clamped < ws[idx] ==> ws[i] <= r[i] <= 95
        ensures clamped > ws[idx] ==> 5 <= r[i] <= ws[i]
      {
        SettledSibling(ws, idx, clamped, i);
      }
    }
  }

  /** Each sibling stays in range and moves against the target. */
  lemma SettledSibling(ws: seq<int>, idx: nat, clamped: int, i: nat)
    requires Balanced(ws) && idx < |ws| && 5 <= clamped <= 95 && i < |ws| && i != idx
    ensures clamped <= ws[idx] ==> ws[i] <= Settled(ws, idx, clamped)[i] <= 95
    ensures clamped >= ws[idx] ==> 5 <= Settled(ws, idx, clamped)[i] <= ws[i]
  {
    SiblingsBelow(ws, idx);
    LeftoverBounds(ws, idx, clamped);
    var d, s := ws[idx] - clamped, Sum(ws) - ws[idx];
    NewWeightBounds(ws[i], d, s);
    if d >= 0 {
      SpreadLast(ws, idx, clamped);
      assert NewWeight(ws[i], d, s) <= 95;
    }
  }

  /** The sum after the last sibling took the leftover, and hence the final weight of the target. */
  lemma SettledSum(ws: seq<int>, idx: nat, clamped: int)
    requires Balanced(ws) && idx < |ws| && 5 <= clamped <= 95 && clamped != ws[idx]
    ensures Sum(ws) - ws[idx] > 0
    ensures Sum(Rebalanced(ws, idx, clamped)) == 100
    ensures clamped < ws[idx] ==> Rebalanced(ws, idx, clamped)[idx] == clamped
    ensures clamped > ws[idx] ==>
              ws[idx] <= Rebalanced(ws, idx, clamped)[idx] == clamped - Shortfall(ws, idx, clamped)
  {
    SettledShort(ws, idx, clamped);
    var settled := Settled(ws, idx, clamped);
    var total := Sum(settled);
    var final := Clamp(clamped + 100 - total, 5, 95);
    SumUpdate(settled, idx, final);
    SiblingsBelow(ws, idx);
    assert Rebalanced(ws, idx, clamped) == if total == 100 then settled else settled[idx := final];
  }

  /** After the last sibling took the leftover, the sum exceeds 100 by the shortfall. */
  lemma SettledShort(ws: seq<int>, idx: nat, clamped: int)
    requires Balanced(ws) && idx < |ws| && 5 <= clamped <= 95
    ensures Sum(ws) - ws[idx] > 0
    ensures clamped <= ws[idx] ==> Sum(Settled(ws, idx, clamped)) == 100
    ensures clamped >= ws[idx] ==>
              && Sum(Settled(ws, idx, clamped)) == 100 + Shortfall(ws, idx, clamped)
              && Shortfall(ws, idx, clamped) <= clamped - ws[idx]
  {
    LeftoverBounds(ws, idx, clamped);
    SettledTotal(ws, idx, clamped);
    if clamped <= ws[idx] {
      SpreadLast(ws, idx, clamped);
    }
  }

  lemma SettledTotal(ws: seq<int>, idx: nat, clamped: int)
    requires Balanced(ws) && idx < |ws| && 5 <= clamped <= 95
    ensures Sum(ws) - ws[idx] > 0
    ensures var k, left := LastSibling(|ws|, idx), Leftover(ws, idx, clamped);
            var adjusted := NewWeight(ws[k], ws[idx] - clamped, Sum(ws) - ws[idx]);
            && Sum(Settled(ws, idx, clamped)) == 100 - left - adjusted + Settled(ws, idx, clamped)[k]
            && Settled(ws, idx, clamped)[k] == Clamp(adjusted + left, 5, 95)
            && 5 <= adjusted
            && (clamped >= ws[idx] ==> adjusted <= 95)
  {
    SiblingsBelow(ws, idx);
    var k, left := LastSibling(|ws|, idx), Leftover(ws, idx, clamped);
    var spread := Spread(ws[idx := clamped], idx, ws[idx] - clamped, Sum(ws) - ws[idx]);
    SumUpdate(ws, idx, clamped);
    SumUpdate(spread, k, Clamp(spread[k] + left, 5, 95));
  }

  /** A shrink never pushes the last sibling above 95. */
  lemma SpreadLast(ws: seq<int>, idx: nat, clamped: int)
    requires Balanced(ws) && idx < |ws| && 5 <= clamped <= 95 && clamped <= ws[idx]
    ensures Sum(ws) - ws[idx] > 0
    ensures var d, k := ws[idx] - clamped, LastSibling(|ws|, idx);
            NewWeight(ws[k], d, Sum(ws) - ws[idx]) + Leftover(ws, idx, clamped) <= 95
    ensures forall i :: 0 <= i < |ws| && i != idx ==> NewWeight(ws[i], ws[idx] - clamped, Sum(ws) - ws[idx]) <= 95
  {
    SiblingsBelow(ws, idx);
    var d, s, target := ws[idx] - clamped, Sum(ws) - ws[idx], ws[idx := clamped];
    var spread, k := Spread(target, idx, d, s), LastSibling(|ws|, idx);
    SumUpdate(ws, idx, clamped);
    assert Sum(spread) == 100 - Leftover(ws, idx, clamped);
    PairAtMostSum(spread, if k < idx then k else idx, if k < idx then idx else k);
  }

  // ---- When a growth lands on the request ----

  /** What a sibling of weight `w` keeps when siblings of total weight `s` give up `grow`. */
  function Kept(w: int, grow: int, s: int): int
    requires s > 0
  {
    Max(5, w - w * grow / s)
  }

  /** What the siblings other than the last keep. */
  function OthersKeep(ws: seq<int>, idx: nat, grow: int): seq<int>
    requires |ws| >= 2 && idx < |ws| && Sum(ws) - ws[idx] > 0
  {
    var s := Sum(ws) - ws[idx];
    seq(|ws|, i requires 0 <= i < |ws| =>
      if i == idx || i == LastSibling(|ws|, idx) then 0 else Kept(ws[i], grow, s))
  }

  lemma NewWeightKeeps(w: int, grow: int, s: int)
    requires 5 <= w <= 95 && grow > 0 && s > 0
    ensures NewWeight(w, -grow, s) == Kept(w, grow, s)
  {
    assert w * -grow == -(w * grow);
    MulMono(1, w, grow);
    DivBounds(w * grow, s);
  }

  /** Before the last sibling is held at 5, it is left with what the target and the others do not have. */
  lemma LastGetsTheRest(ws: seq<int>, idx: nat, clamped: int)
    requires Balanced(ws) && idx < |ws| && ws[idx] < clamped <= 95
    ensures Sum(ws) - ws[idx] > 0
    ensures var k, d := LastSibling(|ws|, idx), ws[idx] - clamped;
            NewWeight(ws[k], d, Sum(ws) - ws[idx]) + Leftover(ws, idx, clamped)
              == 100 - clamped - Sum(OthersKeep(ws, idx, clamped - ws[idx]))
  {
    SiblingsBelow(ws, idx);
    var d, s, k := ws[idx] - clamped, Sum(ws) - ws[idx], LastSibling(|ws|, idx);
    var target := ws[idx := clamped];
    var spread := Spread(target, idx, d, s);
    SumUpdate(ws, idx, clamped);
    SumUpdate(spread, idx, 0);
    SumUpdate(spread[idx := 0], k, 0);
    OthersAreKept(ws, idx, clamped);
  }

  lemma OthersAreKept(ws: seq<int>, idx: nat, clamped: int)
    requires Balanced(ws) && idx < |ws| && ws[idx] < clamped <= 95
    ensures Sum(ws) - ws[idx] > 0
    ensures Spread(ws[idx := clamped], idx, ws[idx] - clamped, Sum(ws) - ws[idx])[idx := 0][LastSibling(|ws|, idx) := 0]
         == OthersKeep(ws, idx, clamped - ws[idx])
  {
    SiblingsBelow(ws, idx);
    var spread := Spread(ws[idx := clamped], idx, ws[idx] - clamped, Sum(ws) - ws[idx]);
    var others, k := OthersKeep(ws, idx, clamped - ws[idx]), LastSibling(|ws|, idx);
    forall i | 0 <= i < |ws| ensures spread[idx := 0][k := 0][i] == others[i] {
      if i != idx && i != k {
        OtherIsKept(ws, idx, clamped, i);
      }
    }
  }

  lemma OtherIsKept(ws: seq<int>, idx: nat, clamped: int, i: nat)
    requires Balanced(ws) && idx < |ws| && i < |ws| && i != idx && i != LastSibling(|ws|, idx)
    requires ws[idx] < clamped <= 95 && Sum(ws) - ws[idx] > 0 && 5 <= ws[i] <= 95
    ensures Spread(ws[idx := clamped], idx, ws[idx] - clamped, Sum(ws) - ws[idx])[i]
         == OthersKeep(ws, idx, clamped - ws[idx])[i]
  {
    NewWeightKeeps(ws[i], clamped - ws[idx], Sum(ws) - ws[idx]);
  }

  lemma ShortfallIs(ws: seq<int>, idx: nat, clamped: int)
    requires Balanced(ws) && idx < |ws| && ws[idx] < clamped <= 95
    ensures Sum(ws) - ws[idx] > 0
    ensures Shortfall(ws, idx, clamped) == Max(0, clamped + Sum(OthersKeep(ws, idx, clamped - ws[idx])) - 95)
  {
    LastGetsTheRest(ws, idx, clamped);
  }

  lemma LandsShort(ws: seq<int>, idx: nat, request: int)
    requires Balanced(ws) && idx < |ws| && Clamp(request, 5, 95) > ws[idx]
    ensures Sum(ws) - ws[idx] > 0
    ensures var clamped := Clamp(request, 5, 95);
            Rebalanced(ws, idx, request)[idx] == clamped - Shortfall(ws, idx, clamped)
  {
    RebalanceGuarantee(ws, idx, request);
  }

  /** A growth lands on the clamped request if and only if the request and what the other siblings keep leave the last
      one its 5; otherwise the target gets what they leave. */
  lemma GrowthLandsAt(ws: seq<int>, idx: nat, request: int, clamped: int, others: int)
    requires Balanced(ws) && idx < |ws| && clamped == Clamp(request, 5, 95) > ws[idx]
    requires Sum(ws) - ws[idx] > 0 && others == Sum(OthersKeep(ws, idx, clamped - ws[idx]))
    ensures Rebalanced(ws, idx, request)[idx] == Min(clamped, 95 - others)
    ensures Rebalanced(ws, idx, request)[idx] == clamped <==> clamped + others <= 95
  {
    LandsShort(ws, idx, request);
    ShortfallIs(ws, idx, clamped);
  }

  // ---- Proportionality ----

  /** `m` is the exact share `w * d / s`, rounded toward zero. */
  ghost predicate IsShare(m: int, w: int, d: int, s: int) {
    if d >= 0 then m * s <= w * d < (m + 1) * s else (m - 1) * s < w * d <= m * s
  }

  /** A sibling takes its rounded share, unless that would push it below 5. */
  lemma NewWeightIsShare(w: int, d: int, s: int)
    requires 5 <= w <= s <= 95 && s + d <= 95
    ensures IsShare(NewWeight(w, d, s) - w, w, d, s) || (d < 0 && NewWeight(w, d, s) == 5)
  {
    var share := TruncDiv(w * d, s);
    TruncIsShare(w, d, s);
    if d >= 0 {
      SharesUp(w, d, s);
      NoShareAboveSum(w, d, s);
    }
    assert NewWeight(w, d, s) == if w + share < 5 then 5 else w + share;
  }

  lemma TruncIsShare(w: int, d: int, s: int)
    requires w >= 0 && s > 0
    ensures IsShare(TruncDiv(w * d, s), w, d, s)
    ensures d >= 0 ==> TruncDiv(w * d, s) >= 0
    ensures d <= 0 ==> TruncDiv(w * d, s) <= 0
  {
    ProductSign(w, d);
    TruncDivBounds(w * d, s);
  }

  lemma ProductSign(w: int, d: int)
    requires w >= 0
    ensures d >= 0 ==> w * d >= 0
    ensures d <= 0 ==> w * d <= 0
  {
  }

  lemma NoShareAboveSum(w: int, d: nat, s: int)
    requires 5 <= w <= s && s + d <= 95
    ensures w + TruncDiv(w * d, s) <= 95
  {
    MulMono(w, s, d);
    ShareOf(w * d, d, s);
  }

  /** A weight moves by its rounded share, and is held in [5, 95]. */
  lemma NewWeightShared(w: int, d: int, s: int)
    requires w >= 0 && s > 0
    ensures exists m :: IsShare(m, w, d, s)
              && NewWeight(w, d, s) == if w + m < 5 then 5 else if w + m > 95 then 95 else w + m
  {
    TruncIsShare(w, d, s);
    assert IsShare(TruncDiv(w * d, s), w, d, s);
  }

  /** On every split, whatever its weights: a request for the weight that is already there changes nothing. Otherwise,
      once the siblings have given way, the target moves from the clamped request as far toward a total of 100 as
      [5, 95] allows. */
  lemma TargetOfAnySplit(ws: seq<int>, idx: nat, request: int)
    requires idx < |ws|
    ensures var r, c := Rebalanced(ws, idx, request), if request < 5 then 5 else if request > 95 then 95 else request;
            if c == ws[idx] then r == ws else r[idx] == Clamp(c + 100 - Sum(r[idx := c]), 5, 95)
  {
    var c := Clamp(request, 5, 95);
    if c != ws[idx] {
      TargetMoves(Settled(ws, idx, c), idx, c, Rebalanced(ws, idx, request));
    }
  }

  /** Siblings that together weigh nothing are left alone. */
  lemma WeightlessSiblingsStay(ws: seq<int>, idx: nat, request: int, i: nat)
    requires idx < |ws| && i < |ws| && i != idx && Sum(ws) <= ws[idx]
    ensures Rebalanced(ws, idx, request)[i] == ws[i]
  {
  }

  /** The last step changes no weight but the target's, and takes it toward a total of 100. */
  lemma TargetMoves(settled: seq<int>, idx: nat, c: int, r: seq<int>)
    requires idx < |settled| && settled[idx] == c && 5 <= c <= 95
    requires r == if Sum(settled) == 100 then settled else settled[idx := Clamp(c + 100 - Sum(settled), 5, 95)]
    ensures r[idx := c] == settled && r[idx] == Clamp(c + 100 - Sum(r[idx := c]), 5, 95)
  {
    assert settled[idx := r[idx]][idx := c] == settled;
  }

  /** Every sibling but the last takes its rounded share of the change; the last one takes what that leaves, so that
      the total stays what it was unless it is held at 5 or 95 itself. */
  lemma SiblingsOfAnySplit(ws: seq<int>, idx: nat, request: int, i: nat)
    requires idx < |ws| && i < |ws| && i != idx && Sum(ws) > ws[idx] != Clamp(request, 5, 95)
    ensures var r, c := Rebalanced(ws, idx, request), if request < 5 then 5 else if request > 95 then 95 else request;
            var last := if idx == |ws| - 1 then |ws| - 2 else |ws| - 1;
            if i == last then r[i] == Clamp(r[i] + Sum(ws) - Sum(r[idx := c]), 5, 95)
            else r[i] == NewWeight(ws[i], ws[idx] - c, Sum(ws) - ws[idx])
  {
    var c := Clamp(request, 5, 95);
    TargetMoves(Settled(ws, idx, c), idx, c, Rebalanced(ws, idx, request));
    SettledAnySplit(ws, idx, c, i);
  }

  lemma SettledIs(ws: seq<int>, idx: nat, c: int)
    requires |ws| >= 2 && idx < |ws| && Sum(ws) - ws[idx] > 0
    ensures var spread, k := Spread(ws[idx := c], idx, ws[idx] - c, Sum(ws) - ws[idx]), LastSibling(|ws|, idx);
            Settled(ws, idx, c) == spread[k := Clamp(spread[k] + Sum(ws) - Sum(spread), 5, 95)]
  {
    SumUpdate(ws, idx, c);
  }

  lemma LastTakesTheRest(spread: seq<int>, k: nat, total: int)
    requires k < |spread|
    ensures var r := spread[k := Clamp(spread[k] + total - Sum(spread), 5, 95)];
            r[k] == Clamp(r[k] + total - Sum(r), 5, 95)
  {
    SumUpdate(spread, k, Clamp(spread[k] + total - Sum(spread), 5, 95));
  }

  lemma SettledAnySplit(ws: seq<int>, idx: nat, c: int, i: nat)
    requires |ws| >= 2 && idx < |ws| && i < |ws| && i != idx && Sum(ws) - ws[idx] > 0
    ensures var r, k := Settled(ws, idx, c), LastSibling(|ws|, idx);
            if i == k then r[i] == Clamp(r[i] + Sum(ws) - Sum(r), 5, 95)
            else r[i] == NewWeight(ws[i], ws[idx] - c, Sum(ws) - ws[idx])
  {
    var spread := Spread(ws[idx := c], idx, ws[idx] - c, Sum(ws) - ws[idx]);
    SettledIs(ws, idx, c);
    if i == LastSibling(|ws|, idx) {
      LastTakesTheRest(spread, i, Sum(ws));
    } else {
      assert Settled(ws, idx, c)[i] == spread[i];
    }
  }

  /** All siblings but the last take exactly their rounded share of what the target gives up or takes, or stop at 5.
      When the target shrinks, the last one gets at most one unit per sibling on top of its own share. */
  lemma SharesAreProportional(ws: seq<int>, idx: nat, request: int, i: nat)
    requires Balanced(ws) && idx < |ws| && i < |ws| && i != idx
    ensures var r, d, s := Rebalanced(ws, idx, request), ws[idx] - Clamp(request, 5, 95), 100 - ws[idx];
            && (i != LastSibling(|ws|, idx) ==> IsShare(r[i] - ws[i], ws[i], d, s) || (d < 0 && r[i] == 5))
            && (i == LastSibling(|ws|, idx) && d >= 0 ==>
                  exists m :: IsShare(m, ws[i], d, s) && m <= r[i] - ws[i] <= m + |ws| - 1)
  {
    var r, clamped := Rebalanced(ws, idx, request), Clamp(request, 5, 95);
    var d, s := ws[idx] - clamped, 100 - ws[idx];
    SiblingsBelow(ws, idx);
    NewWeightIsShare(ws[i], d, s);
    NewWeightBounds(ws[i], d, s);
    if d == 0 {
      assert r == ws && IsShare(0, ws[i], d, s);
    } else if i == LastSibling(|ws|, idx) && d >= 0 {
      LeftoverSmall(ws, idx, clamped);
      LeftoverBounds(ws, idx, clamped);
      SpreadLast(ws, idx, clamped);
      SettledTotal(ws, idx, clamped);
      assert IsShare(NewWeight(ws[i], d, s) - ws[i], ws[i], d, s);
    }
  }

  /** A change of `gain` is short of the exact share of weights that total `w` by less than one unit for each of
      `k` siblings. */
  ghost predicate ShortOfShare(gain: int, w: int, d: int, s: int, k: nat) {
    w * d <= gain * s + k * (s - 1)
  }

  lemma AddShort(g: int, g': int, w: int, w': int, d: int, s: int, k: nat)
    requires ShortOfShare(g, w, d, s, 1) && ShortOfShare(g', w', d, s, k)
    ensures ShortOfShare(g + g', w + w', d, s, k + 1)
  {
    MulDist(g, g', s);
    MulDist(w, w', d);
    MulDist(1, k, s - 1);
  }

  lemma {:induction false} SumShort(gains: seq<int>, ws: seq<int>, d: int, s: int)
    requires |gains| == |ws| && forall i :: 0 <= i < |ws| ==> ShortOfShare(gains[i], ws[i], d, s, 1)
    ensures ShortOfShare(Sum(gains), Sum(ws), d, s, |ws|)
  {
    if ws != [] {
      SumShort(gains[1..], ws[1..], d, s);
      AddShort(gains[0], Sum(gains[1..]), ws[0], Sum(ws[1..]), d, s, |ws| - 1);
    }
  }

  /** When the target shrinks, rounding leaves less than one unit per sibling. */
  lemma LeftoverSmall(ws: seq<int>, idx: nat, clamped: int)
    requires Balanced(ws) && idx < |ws| && 5 <= clamped <= ws[idx]
    ensures Sum(ws) - ws[idx] > 0 && Leftover(ws, idx, clamped) <= |ws| - 1
  {
    SiblingsBelow(ws, idx);
    SumUpdate(ws, idx, clamped);
    var d, s, target := ws[idx] - clamped, Sum(ws) - ws[idx], ws[idx := clamped];
    forall i | 0 <= i < |target| && i != idx ensures 5 <= target[i] <= s {
      assert target[i] == ws[i];
    }
    GainNearlyAll(target, idx, d, s);
    assert Leftover(ws, idx, clamped) == d - (Sum(Spread(target, idx, d, s)) - Sum(target));
  }

  lemma GainNearlyAll(target: seq<int>, idx: nat, d: nat, s: int)
    requires 0 < s && s + d <= 95 && idx < |target| && Sum(target) - target[idx] == s
    requires forall i :: 0 <= i < |target| && i != idx ==> 5 <= target[i] <= s
    ensures d - (Sum(Spread(target, idx, d, s)) - Sum(target)) <= |target| - 1
  {
    var gains, siblings := Gains(target, idx, d, s), target[idx := 0];
    SumAdd(target, gains, Spread(target, idx, d, s));
    SumUpdate(target, idx, 0);
    forall i | 0 <= i < |target| ensures ShortOfShare(gains[i], siblings[i], d, s, 1) {
      if i == idx {
        NothingShort(d, s);
      } else {
        NewWeightShort(target[i], d, s);
      }
    }
    SumShort(gains, siblings, d, s);
    WholeShort(Sum(gains), d, s, |target|);
  }

  lemma NothingShort(d: int, s: int)
    requires s > 0
    ensures ShortOfShare(0, 0, d, s, 1)
  {
  }

  lemma NewWeightShort(w: int, d: nat, s: int)
    requires 5 <= w <= s && s + d <= 95
    ensures ShortOfShare(NewWeight(w, d, s) - w, w, d, s, 1)
  {
    NewWeightIsShare(w, d, s);
    MulDist(NewWeight(w, d, s) - w, 1, s);
  }

  lemma WholeShort(gain: int, d: int, s: int, k: nat)
    requires s > 0 && k > 0 && ShortOfShare(gain, s, d, s, k)
    ensures d - gain <= k - 1
  {
    MulDist(gain, k, s);
    assert k * (s - 1) == k * s - k;
    if d >= gain + k {
      MulMono(gain + k, d, s);
      assert false;
    }
  }

  /** In a split of two, every request lands exactly. */
  lemma TwoWayIsExact(ws: seq<int>, idx: nat, request: int)
    requires Balanced(ws) && |ws| == 2 && idx < 2
    ensures Rebalanced(ws, idx, request)[idx] == Clamp(request, 5, 95)
    ensures Rebalanced(ws, idx, request)[1 - idx] == 100 - Clamp(request, 5, 95)
  {
    RebalanceGuarantee(ws, idx, request);
    var r, clamped := Rebalanced(ws, idx, request), Clamp(request, 5, 95);
    SumOfTwo(r);
    if clamped > ws[idx] {
      TwoWayLeftover(ws, idx, clamped);
    }
  }

  lemma SumOfTwo(ws: seq<int>)
    requires |ws| == 2
    ensures Sum(ws) == ws[0] + ws[1]
  {
    assert ws[1..][1..] == [] && Sum(ws[1..]) == ws[1] + Sum(ws[1..][1..]);
  }

  /** The only sibling gives up all that the target gains. */
  lemma TwoWayLeftover(ws: seq<int>, idx: nat, clamped: int)
    requires Balanced(ws) && |ws| == 2 && idx < 2 && 5 <= clamped <= 95
    ensures Sum(ws) - ws[idx] > 0 && Shortfall(ws, idx, clamped) == 0
  {
    var target := ws[idx := clamped];
    SumOfTwo(ws);
    SumOfTwo(target);
    SumOfTwo(Spread(target, idx, ws[idx] - clamped, Sum(ws) - ws[idx]));
  }

  /** In a split of three, a growth can fall short: asked for 95, the first pane gets 90. */
  lemma ThreeWayCanFallShort()
    ensures Balanced([10, 85, 5]) && Rebalanced([10, 85, 5], 0, 95) == [90, 5, 5]
  {
    SumOfThree(10, 85, 5);
    SumOfThree(95, 5, 5);
    SettledThree();
  }

  lemma SettledThree()
    ensures Settled([10, 85, 5], 0, 95) == [95, 5, 5]
  {
    SumOfThree(10, 85, 5);
    SumOfThree(95, 85, 5);
    SumOfThree(95, 5, 5);
    assert [10, 85, 5][0 := 95] == [95, 85, 5];
    assert Spread([95, 85, 5], 0, -85, 90) == [95, 5, 5];
  }

  /** It can fall short of a request that the siblings could meet: 50 is asked for, and although 20 + 25 + 5 for the
      others would allow it, the first pane gets 47. */
  lemma FeasibleRequestCanFallShort()
    ensures Balanced([10, 40, 45, 5]) && Rebalanced([10, 40, 45, 5], 0, 50)[0] == 47
  {
    SumOfFour(10, 40, 45, 5);
    assert OthersKeep([10, 40, 45, 5], 0, 40) == [0, 23, 25, 0];
    SumOfFour(0, 23, 25, 0);
    GrowthLandsAt([10, 40, 45, 5], 0, 50, 50, 48);
  }

  lemma SumOfFour(a: int, b: int, c: int, d: int)
    ensures Sum([a, b, c, d]) == a + b + c + d
  {
    assert [a, b, c, d][1..] == [b, c, d];
    SumOfThree(b, c, d);
  }

  lemma SumOfThree(a: int, b: int, c: int)
    ensures Sum([a, b, c]) == a + b + c
  {
    assert [a, b, c][1..] == [b, c] && [b, c][1..] == [c] && [c][1..] == [];
    assert Sum([b, c]) == b + Sum([c]);
  }

  // ---- set_weight on a tree ----

  function WithWeights(cs: seq<Child>, ws: seq<int>): (r: seq<Child>)
    requires |ws| == |cs| && Bounded(ws)
    ensures |r| == |cs| && Weights(r) == ws
    ensures forall i :: 0 <= i < |cs| ==> r[i].node == cs[i].node
  {
    seq(|cs|, i requires 0 <= i < |cs| => Child(cs[i].node, ws[i]))
  }

  /** The first child that has `p` below it, or `|cs|`. */
  function FirstContaining(cs: seq<Child>, p: PaneId): (k: nat)
    ensures k <= |cs|
    ensures k < |cs| ==> p in AllLeaves(cs[k].node)
    ensures k < |cs| <==> p in LeavesOf(cs)
    ensures forall i :: 0 <= i < k ==> p !in AllLeaves(cs[i].node)
  {
    if cs == [] then 0
    else if p in AllLeaves(cs[0].node) then 0
    else 1 + FirstContaining(cs[1..], p)
  }

  /** The tree after the request, and whether `p` was found below a split. */
  function SetWeightInner(n: LayoutNode, p: PaneId, request: u16): (LayoutNode, bool)
    decreases n, 1
  {
    match n
    case Leaf(_) => (n, false)
    case Split(o, cs) =>
      var k := FirstContaining(cs, p);
      if k < |cs| then (Split(o, WithWeights(cs, Rebalanced(Weights(cs), k, request))), true)
      else
        var (cs', hit) := SetWeightFirst(cs, p, request);
        (Split(o, cs'), hit)
  }

  /** The recursion into the children, which stops at the first success. */
  function SetWeightFirst(cs: seq<Child>, p: PaneId, request: u16): (seq<Child>, bool)
    decreases cs, 0
  {
    if cs == [] then ([], false) else
      assert cs[0].node < cs[0];
      var (m, hit) := SetWeightInner(cs[0].node, p, request);
      if hit then ([Child(m, cs[0].weight)] + cs[1..], true)
      else
        var (rest, hit') := SetWeightFirst(cs[1..], p, request);
        ([Child(m, cs[0].weight)] + rest, hit')
  }

  method SetWeight(n: LayoutNode, p: PaneId, request: u16) returns (n': LayoutNode, hit: bool)
    ensures (n', hit) == SetWeightInner(n, p, request)
    decreases n, 1
  {
    match n
    case Leaf(_) =>
      n', hit := n, false;
    case Split(o, cs) =>
      var k := FirstContaining(cs, p);
      if k < |cs| {
        var ws := new u16[|cs|](i requires 0 <= i < |cs| => cs[i].weight);
        assert ws[..] == Weights(cs);
        RebalanceInPlace(ws, k, request);
        n', hit := Split(o, WithWeights(cs, ws[..])), true;
      } else {
        var cs';
        cs', hit := SetWeightChildren(cs, p, request);
        n' := Split(o, cs');
      }
  }

  method SetWeightChildren(cs: seq<Child>, p: PaneId, request: u16) returns (cs': seq<Child>, hit: bool)
    ensures (cs', hit) == SetWeightFirst(cs, p, request)
    decreases cs, 0
  {
    var done: seq<Child>, todo := [], cs;
    hit := false;
    assert [] + SetWeightFirst(cs, p, request).0 == SetWeightFirst(cs, p, request).0;
    while todo != [] && !hit
      invariant |todo| <= |cs| && todo == cs[|cs| - |todo|..]
      invariant SetWeightFirst(cs, p, request)
             == if hit then (done + todo, true)
                else (done + SetWeightFirst(todo, p, request).0, SetWeightFirst(todo, p, request).1)
      decreases |todo|
    {
      var m;
      assert todo[0] == cs[|cs| - |todo|] && todo[0].node < todo[0];
      m, hit := SetWeight(todo[0].node, p, request);
      ghost var slot := [Child(m, todo[0].weight)];
      ghost var rest := SetWeightFirst(todo[1..], p, request).0;
      Assoc(done, slot, rest);
      Assoc(done, slot, todo[1..]);
      done, todo := done + [Child(m, todo[0].weight)], todo[1..];
    }
    cs' := done + todo;
  }

  /** The recursion never finds anything: only the outermost split is ever rebalanced, in the child that holds
      the pane at whatever depth. */
  lemma {:induction false} OutermostOnly(n: LayoutNode, p: PaneId, request: u16)
    ensures n.Leaf? || p !in AllLeaves(n) ==> SetWeightInner(n, p, request) == (n, false)
    ensures n.Split? && p in AllLeaves(n) ==>
              var (n', hit), k := SetWeightInner(n, p, request), FirstContaining(n.children, p);
              && hit && n'.Split? && n'.orient == n.orient && |n'.children| == |n.children|
              && (forall i :: 0 <= i < |n.children| ==> n'.children[i].node == n.children[i].node)
              && Weights(n'.children) == Rebalanced(Weights(n.children), k, request)
    decreases n, 1
  {
    if n.Split? && p !in AllLeaves(n) {
      NothingToSet(n.children, p, request);
    }
  }

  lemma {:induction false} NothingToSet(cs: seq<Child>, p: PaneId, request: u16)
    requires p !in LeavesOf(cs)
    ensures SetWeightFirst(cs, p, request) == (cs, false)
    decreases cs, 0
  {
    if cs != [] {
      assert cs[0].node < cs[0];
      OutermostOnly(cs[0].node, p, request);
      NothingToSet(cs[1..], p, request);
      assert cs == [Child(cs[0].node, cs[0].weight)] + cs[1..];
    }
  }

  // ---- Dragging a boundary ----

  /** The last child that is the leaf `p`. */
  function LastLeaf(cs: seq<Child>, p: PaneId): (r: Option<nat>)
    ensures r.Some? ==> r.value < |cs| && cs[r.value].node == Leaf(p)
    ensures r.Some? ==> forall i :: r.value < i < |cs| ==> cs[i].node != Leaf(p)
    ensures r == None ==> forall i :: 0 <= i < |cs| ==> cs[i].node != Leaf(p)
  {
    if cs == [] then None
    else if cs[|cs| - 1].node == Leaf(p) then Some(|cs| - 1)
    else LastLeaf(cs[..|cs| - 1], p)
  }

  function SetPair(cs: seq<Child>, i: nat, j: nat, wi: u16, wj: u16): seq<Child>
    requires i < |cs| && j < |cs|
  {
    var first := cs[i := Child(cs[i].node, wi)];
    first[j := Child(first[j].node, wj)]
  }

  function ApplyPair(n: LayoutNode, l: PaneId, r: PaneId, wl: u16, wr: u16): (LayoutNode, bool)
    decreases n, 1
  {
    match n
    case Leaf(_) => (n, false)
    case Split(o, cs) =>
      match (LastLeaf(cs, l), LastLeaf(cs, r))
      case (Some(i), Some(j)) => (Split(o, SetPair(cs, i, j, wl, wr)), true)
      case _ =>
        var (cs', hit) := ApplyPairFirst(cs, l, r, wl, wr);
        (Split(o, cs'), hit)
  }

  function ApplyPairFirst(cs: seq<Child>, l: PaneId, r: PaneId, wl: u16, wr: u16): (seq<Child>, bool)
    decreases cs, 0
  {
    if cs == [] then ([], false) else
      assert cs[0].node < cs[0];
      var (m, hit) := ApplyPair(cs[0].node, l, r, wl, wr);
      if hit then ([Child(m, cs[0].weight)] + cs[1..], true)
      else
        var (rest, hit') := ApplyPairFirst(cs[1..], l, r, wl, wr);
        ([Child(m, cs[0].weight)] + rest, hit')
  }

  method ApplyWeightsForPair(n: LayoutNode, l: PaneId, r: PaneId, wl: u16, wr: u16)
    returns (n': LayoutNode, hit: bool)
    ensures (n', hit) == ApplyPair(n, l, r, wl, wr)
    decreases n, 1
  {
    match n
    case Leaf(_) =>
      n', hit := n, false;
    case Split(o, cs) =>
      var foundL: Option<nat>, foundR: Option<nat> := None, None;
      for i := 0 to |cs|
        invariant foundL == LastLeaf(cs[..i], l) && foundR == LastLeaf(cs[..i], r)
      {
        assert cs[..i + 1][..i] == cs[..i];
        if cs[i].node.Leaf? {
          if cs[i].node.id == l {
            foundL := Some(i);
          }
          if cs[i].node.id == r {
            foundR := Some(i);
          }
        }
      }
      assert cs[..|cs|] == cs;
      if foundL.Some? && foundR.Some? {
        var first := cs[foundL.value := Child(cs[foundL.value].node, wl)];
        first := first[foundR.value := Child(first[foundR.value].node, wr)];
        n', hit := Split(o, first), true;
      } else {
        var cs';
        cs', hit := ApplyPairChildren(cs, l, r, wl, wr);
        n' := Split(o, cs');
      }
  }

  method ApplyPairChildren(cs: seq<Child>, l: PaneId, r: PaneId, wl: u16, wr: u16)
    returns (cs': seq<Child>, hit: bool)
    ensures (cs', hit) == ApplyPairFirst(cs, l, r, wl, wr)
    decreases cs, 0
  {
    var done: seq<Child>, todo := [], cs;
    hit := false;
    assert [] + ApplyPairFirst(cs, l, r, wl, wr).0 == ApplyPairFirst(cs, l, r, wl, wr).0;
    while todo != [] && !hit
      invariant |todo| <= |cs| && todo == cs[|cs| - |todo|..]
      invariant ApplyPairFirst(cs, l, r, wl, wr)
             == if hit then (done + todo, true)
                else (done + ApplyPairFirst(todo, l, r, wl, wr).0, ApplyPairFirst(todo, l, r, wl, wr).1)
      decreases |todo|
    {
      var m;
      assert todo[0] == cs[|cs| - |todo|] && todo[0].node < todo[0];
      m, hit := ApplyWeightsForPair(todo[0].node, l, r, wl, wr);
      ghost var slot := [Child(m, todo[0].weight)];
      ghost var rest := ApplyPairFirst(todo[1..], l, r, wl, wr).0;
      Assoc(done, slot, rest);
      Assoc(done, slot, todo[1..]);
      done, todo := done + [Child(m, todo[0].weight)], todo[1..];
    }
    cs' := done + todo;
  }

  /** A drag that started at weight `start` and has moved by `percent` of the viewport. */
  function Drag(n: LayoutNode, l: PaneId, r: PaneId, start: u16, percent: int): LayoutNode {
    var left := Clamp(start + percent, 5, 95);
    ApplyPair(n, l, r, left, 100 - left).0
  }

  /** The same tree up to weights. */
  ghost predicate SameShape(a: LayoutNode, b: LayoutNode)
    decreases a
  {
    match a
    case Leaf(_) => a == b
    case Split(o, cs) =>
      && b.Split? && b.orient == o && |b.children| == |cs|
      && forall i :: 0 <= i < |cs| ==> (assert cs[i].node < cs[i]; SameShape(cs[i].node, b.children[i].node))
  }

  lemma {:induction false} SameShapeRefl(n: LayoutNode)
    ensures SameShape(n, n)
    decreases n
  {
    if n.Split? {
      forall i | 0 <= i < |n.children| ensures SameShape(n.children[i].node, n.children[i].node) {
        assert n.children[i].node < n.children[i];
        SameShapeRefl(n.children[i].node);
      }
    }
  }

  lemma {:induction false} SameShapeSameLeaves(a: LayoutNode, b: LayoutNode)
    requires SameShape(a, b)
    ensures AllLeaves(a) == AllLeaves(b)
    decreases a, 1
  {
    if a.Split? {
      SameShapesSameLeaves(a.children, b.children);
    }
  }

  lemma {:induction false} SameShapesSameLeaves(cs: seq<Child>, ds: seq<Child>)
    requires |cs| == |ds| && forall i :: 0 <= i < |cs| ==> SameShape(cs[i].node, ds[i].node)
    ensures LeavesOf(cs) == LeavesOf(ds)
    decreases cs, 0
  {
    if cs != [] {
      assert cs[0].node < cs[0];
      SameShapeSameLeaves(cs[0].node, ds[0].node);
      SameShapesSameLeaves(cs[1..], ds[1..]);
    }
  }

  /** On a window layout `set_weight` changes no more than the two weights of the root, to exactly the clamped
      request and its complement. */
  lemma SetWeightOnWindow(n: LayoutNode, p: PaneId, request: u16)
    requires Binary(n)
    ensures var n' := SetWeightInner(n, p, request).0;
            && Binary(n') && SameShape(n, n')
            && (n.Split? && p in AllLeaves(n) ==>
                  var k, c := FirstContaining(n.children, p), Clamp(request, 5, 95);
                  n' == Split(n.orient, [Child(n.children[0].node, if k == 0 then c else 100 - c),
                                         Child(n.children[1].node, if k == 0 then 100 - c else c)]))
  {
    SameShapeRefl(n);
    OutermostOnly(n, p, request);
    if n.Split? && p in AllLeaves(n) {
      var cs, cs' := n.children, SetWeightInner(n, p, request).0.children;
      var k := FirstContaining(cs, p);
      TwoWeights(cs, k, request);
      assert Weights(cs')[0] == cs'[0].weight && Weights(cs')[1] == cs'[1].weight;
      SameShapeRefl(cs[0].node);
      SameShapeRefl(cs[1].node);
      assert cs' == [cs'[0], cs'[1]];
    }
  }

  lemma TwoWeights(cs: seq<Child>, k: nat, request: int)
    requires |cs| == 2 && k < 2 && 5 <= cs[0].weight <= 95 && cs[0].weight + cs[1].weight == 100
    ensures var c := Clamp(request, 5, 95);
            Rebalanced(Weights(cs), k, request) == if k == 0 then [c, 100 - c] else [100 - c, c]
  {
    var ws := Weights(cs);
    assert ws[1..][1..] == [] && Sum(ws[1..]) == ws[1] && Sum(ws) == ws[0] + ws[1];
    TwoWayIsExact(ws, k, request);
  }

  /** On a window layout a drag between two panes keeps the shape and the invariant of the weights. */
  lemma {:induction false} DragOnWindow(n: LayoutNode, l: PaneId, r: PaneId, wl: u16, wr: u16)
    requires Binary(n) && l != r && 5 <= wl <= 95 && wl + wr == 100
    ensures Binary(ApplyPair(n, l, r, wl, wr).0) && SameShape(n, ApplyPair(n, l, r, wl, wr).0)
    decreases n
  {
    if n.Split? {
      var cs := n.children;
      assert cs[0].node < cs[0] && cs[1].node < cs[1];
      DragOnWindow(cs[0].node, l, r, wl, wr);
      DragOnWindow(cs[1].node, l, r, wl, wr);
      SameShapeRefl(cs[0].node);
      SameShapeRefl(cs[1].node);
      assert cs[1..][0] == cs[1] && cs[1..][1..] == [];
      var rest := ApplyPairFirst(cs[1..], l, r, wl, wr).0;
      assert ApplyPairFirst(cs[1..][1..], l, r, wl, wr).0 == [];
      assert rest == [Child(ApplyPair(cs[1].node, l, r, wl, wr).0, cs[1].weight)];
    }
  }
}
