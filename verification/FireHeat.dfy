/** The heat buffer of the start-up animation: the in-place propagation sweep and the frames built from it. Wind,
    random choices and cooling are arbitrary; a row of cells is `cols` consecutive bytes. */
module FireHeat {
  import opened Arith

  const MAX_HEAT: byte := 48
  const PHASE_A_END: nat := 14
  const FRAMES_TOTAL: nat := 65

  /** The choices made in one sweep, by column and row. */
  datatype Pass = Pass(wind: (nat, nat) -> int, deep: (nat, nat) -> bool, cooling: (nat, nat) -> nat)

  function Cooled(h: byte, cooling: nat): byte { Max(h - cooling, 0) }

  // ---- Cell numbers ----

  /** The number of the first cell of row `y`, which the source computes as `y * cols`. */
  function RowStart(y: nat, cols: nat): nat {
    if y == 0 then 0 else RowStart(y - 1, cols) + cols
  }

  /** The row of cell `k`. */
  function RowAt(k: nat, cols: nat): nat
    requires cols > 0
  {
    if k < cols then 0 else 1 + RowAt(k - cols, cols)
  }

  lemma RowStartIsProduct(y: nat, cols: nat)
    ensures RowStart(y, cols) == y * cols
  {
    if y > 0 {
      RowStartIsProduct(y - 1, cols);
      MulDist(y - 1, 1, cols);
    }
  }

  lemma {:induction false} RowStartMono(a: nat, b: nat, cols: nat)
    requires a <= b
    ensures RowStart(a, cols) <= RowStart(b, cols)
    ensures a < b ==> RowStart(a, cols) + cols <= RowStart(b, cols)
  {
    if a < b {
      RowStartMono(a, b - 1, cols);
    }
  }

  lemma {:induction false} RowStartAdd(a: nat, b: nat, cols: nat)
    ensures RowStart(a + b, cols) == RowStart(a, cols) + RowStart(b, cols)
  {
    if b > 0 {
      RowStartAdd(a, b - 1, cols);
    }
  }

  /** Cell `k` lies in row `y` or below exactly when it is at or after the start of that row. */
  lemma {:induction false} RowIff(k: nat, y: nat, cols: nat)
    requires cols > 0
    ensures RowAt(k, cols) >= y <==> k >= RowStart(y, cols)
  {
    if y > 0 {
      RowStartAdd(1, y - 1, cols);
      if k >= cols {
        RowIff(k - cols, y - 1, cols);
      }
    }
  }

  lemma RowOf(x: nat, y: nat, cols: nat)
    requires x < cols
    ensures RowAt(RowStart(y, cols) + x, cols) == y
  {
    RowIff(RowStart(y, cols) + x, y, cols);
    RowIff(RowStart(y, cols) + x, y + 1, cols);
  }

  function ColumnAt(k: nat, cols: nat): (x: nat)
    requires cols > 0
    ensures x < cols && k == RowStart(RowAt(k, cols), cols) + x
  {
    RowIff(k, RowAt(k, cols), cols);
    RowIff(k, RowAt(k, cols) + 1, cols);
    k - RowStart(RowAt(k, cols), cols)
  }

  // ---- The sweep ----

  /** The cell that cell (x, y) takes its heat from: one row below, or two. */
  function Source(x: nat, y: nat, cols: nat, rows: nat, p: Pass): (src: nat)
    requires x < cols && y + 1 < rows
    ensures RowStart(y + 1, cols) <= src < RowStart(rows, cols)
  {
    var srcX := Clamp(x + p.wind(x, y), 0, cols - 1);
    var srcY := if y + 2 < rows && p.deep(x, y) then y + 2 else y + 1;
    RowStartMono(srcY, rows, cols);
    RowStartMono(y + 1, srcY, cols);
    RowStart(srcY, cols) + srcX
  }

  /** All cells updated at once from the buffer `s`; the last row stays. */
  function Swept(s: seq<byte>, cols: nat, rows: nat, p: Pass): (r: seq<byte>)
    requires |s| == RowStart(rows, cols) && cols > 0
    ensures |r| == |s|
  {
    seq(|s|, k requires 0 <= k < |s| => SweptCell(s, cols, rows, p, k))
  }

  function SweptCell(s: seq<byte>, cols: nat, rows: nat, p: Pass, k: nat): byte
    requires |s| == RowStart(rows, cols) && cols > 0 && k < |s|
  {
    var x, y := ColumnAt(k, cols), RowAt(k, cols);
    if y + 1 < rows then Cooled(s[Source(x, y, cols, rows, p)], p.cooling(x, y)) else s[k]
  }

  /** The nested loops of the source, top row first, which overwrite the buffer as they read it. */
  method Propagate(heat: array<byte>, cols: nat, rows: nat, p: Pass)
    requires heat.Length == RowStart(rows, cols) && cols > 0
    modifies heat
    ensures heat[..] == Swept(old(heat[..]), cols, rows, p)
  {
    ghost var was := heat[..];
    var sweptRows := Max(rows - 1, 0);
    for y := 0 to sweptRows
      invariant RowStart(y, cols) <= heat.Length
      invariant forall k :: 0 <= k < RowStart(y, cols) ==> heat[k] == SweptCell(was, cols, rows, p, k)
      invariant forall k :: RowStart(y, cols) <= k < heat.Length ==> heat[k] == was[k]
    {
      PropagateRow(heat, cols, rows, p, y, was);
    }
    forall k | 0 <= k < heat.Length ensures heat[k] == SweptCell(was, cols, rows, p, k) {
      RowIff(k, sweptRows, cols);
    }
  }

  /** The inner loop: one row, cell by cell. */
  method PropagateRow(heat: array<byte>, cols: nat, rows: nat, p: Pass, y: nat, ghost was: seq<byte>)
    requires |was| == heat.Length == RowStart(rows, cols) && cols > 0 && y + 1 < rows
    requires RowStart(y, cols) <= heat.Length
    requires forall k :: 0 <= k < RowStart(y, cols) ==> heat[k] == SweptCell(was, cols, rows, p, k)
    requires forall k :: RowStart(y, cols) <= k < heat.Length ==> heat[k] == was[k]
    modifies heat
    ensures RowStart(y + 1, cols) <= heat.Length
    ensures forall k :: 0 <= k < RowStart(y + 1, cols) ==> heat[k] == SweptCell(was, cols, rows, p, k)
    ensures forall k :: RowStart(y + 1, cols) <= k < heat.Length ==> heat[k] == was[k]
  {
    RowStartMono(y + 1, rows, cols);
    for x := 0 to cols
      invariant forall k :: 0 <= k < RowStart(y, cols) + x ==> heat[k] == SweptCell(was, cols, rows, p, k)
      invariant forall k :: RowStart(y, cols) + x <= k < heat.Length ==> heat[k] == was[k]
    {
      RowOf(x, y, cols);
      var srcX := Clamp(x + p.wind(x, y), 0, cols - 1);
      var srcY := if y + 2 < rows && p.deep(x, y) then y + 2 else y + 1;
      RowStartIsProduct(srcY, cols);
      RowStartIsProduct(y, cols);
      assert srcY * cols + srcX == Source(x, y, cols, rows, p);
      var srcHeat := heat[srcY * cols + srcX];
      assert Cooled(srcHeat, p.cooling(x, y)) == SweptCell(was, cols, rows, p, RowStart(y, cols) + x);
      heat[y * cols + x] := Max(srcHeat - p.cooling(x, y), 0);
    }
  }

  /** Cell by cell: column `x` of row `y` takes the heat of the cell one row below, or two where there is room and the
      choice is made, in the column that the wind points to, held at the edges; it loses the cooling and stops at 0.
      The bottom row stays. */
  lemma SweptLaw(s: seq<byte>, cols: nat, rows: nat, p: Pass, x: nat, y: nat)
    requires |s| == RowStart(rows, cols) && x < cols && y < rows
    ensures |s| == rows * cols && 0 <= y * cols + x < |s|
    ensures var blown := x + p.wind(x, y);
            var srcX := if blown < 0 then 0 else if blown >= cols then cols - 1 else blown;
            var srcY := if p.deep(x, y) && y + 2 < rows then y + 2 else y + 1;
            if y == rows - 1 then Swept(s, cols, rows, p)[y * cols + x] == s[y * cols + x]
            else
              && 0 <= srcY * cols + srcX < |s|
              && var heat := s[srcY * cols + srcX] - p.cooling(x, y);
                 Swept(s, cols, rows, p)[y * cols + x] == if heat > 0 then heat else 0
  {
    var k := RowStart(y, cols) + x;
    RowOf(x, y, cols);
    RowStartMono(y + 1, rows, cols);
    RowStartIsProduct(y, cols);
    RowStartIsProduct(rows, cols);
    assert Swept(s, cols, rows, p)[k] == SweptCell(s, cols, rows, p, k);
    if y + 1 < rows {
      SourceIs(x, y, cols, rows, p);
    }
  }

  lemma SourceIs(x: nat, y: nat, cols: nat, rows: nat, p: Pass)
    requires x < cols && y + 1 < rows
    ensures var blown := x + p.wind(x, y);
            var srcX := if blown < 0 then 0 else if blown >= cols then cols - 1 else blown;
            var srcY := if p.deep(x, y) && y + 2 < rows then y + 2 else y + 1;
            srcY * cols + srcX == Source(x, y, cols, rows, p)
  {
    RowStartIsProduct(if p.deep(x, y) && y + 2 < rows then y + 2 else y + 1, cols);
  }

  // ---- Frames ----

  ghost predicate Bounded(s: seq<byte>) {
    forall k :: 0 <= k < |s| ==> s[k] <= MAX_HEAT
  }

  /** Every cell from row `from` on is cold. */
  ghost predicate ColdFrom(s: seq<byte>, cols: nat, from: nat) {
    forall k :: RowStart(from, cols) <= k < |s| ==> s[k] == 0
  }

  function Zeros(n: nat): seq<byte> { seq(n, i => 0) }

  /** The buffer moved up by one row, with a cold bottom row. */
  function Lifted(s: seq<byte>, cols: nat): seq<byte>
    requires cols <= |s|
  {
    s[cols..] + Zeros(cols)
  }

  /** One frame of the launch phase. */
  function Launched(s: seq<byte>, cols: nat, rows: nat, p: Pass): (r: seq<byte>)
    requires |s| == RowStart(rows, cols) && cols > 0 && rows > 0
    ensures |r| == |s|
  {
    RowStartMono(1, rows, cols);
    Swept(Lifted(s, cols), cols, rows, p)
  }

  function LaunchAll(s: seq<byte>, cols: nat, rows: nat, ps: seq<Pass>): (r: seq<byte>)
    requires |s| == RowStart(rows, cols) && cols > 0 && rows > 0
    ensures |r| == |s|
  {
    if ps == [] then s else Launched(LaunchAll(s, cols, rows, ps[..|ps| - 1]), cols, rows, ps[|ps| - 1])
  }

  lemma SweepKeepsBounded(s: seq<byte>, cols: nat, rows: nat, p: Pass)
    requires |s| == RowStart(rows, cols) && cols > 0 && Bounded(s)
    ensures Bounded(Swept(s, cols, rows, p))
  {
    forall k | 0 <= k < |s| ensures SweptCell(s, cols, rows, p, k) <= MAX_HEAT {
      var x, y := ColumnAt(k, cols), RowAt(k, cols);
      if y + 1 < rows {
        assert s[Source(x, y, cols, rows, p)] <= MAX_HEAT;
      }
    }
  }

  /** A frame of the launch makes two more rows cold. */
  lemma LaunchCools(s: seq<byte>, cols: nat, rows: nat, p: Pass, from: nat)
    requires |s| == RowStart(rows, cols) && cols > 0 && rows > 0 && from <= rows && ColdFrom(s, cols, from)
    ensures ColdFrom(Launched(s, cols, rows, p), cols, ColdRow(from, 2))
  {
    RowStartMono(1, rows, cols);
    var lifted, to := Lifted(s, cols), ColdRow(from, 2);
    LiftedCold(s, cols, rows, from);
    forall k | RowStart(to, cols) <= k < |s| ensures SweptCell(lifted, cols, rows, p, k) == 0 {
      var x, y := ColumnAt(k, cols), RowAt(k, cols);
      RowIff(k, to, cols);
      RowIff(k, rows, cols);
      RowStartMono(ColdRow(from, 1), y + 1, cols);
      RowStartMono(y, rows - 1, cols);
    }
  }

  /** The buffer that was moved up is cold from one row earlier, and its last row is cold. */
  lemma LiftedCold(s: seq<byte>, cols: nat, rows: nat, from: nat)
    requires |s| == RowStart(rows, cols) && cols > 0 && rows > 0 && cols <= |s|
    requires from <= rows && ColdFrom(s, cols, from)
    ensures ColdFrom(Lifted(s, cols), cols, ColdRow(from, 1)) && ColdFrom(Lifted(s, cols), cols, rows - 1)
  {
    RowStartMono(ColdRow(from, 1), rows, cols);
  }

  /** The first of the bottom `cold` rows. */
  function ColdRow(rows: nat, cold: nat): nat { if cold >= rows then 0 else rows - cold }

  /** After n launch frames the bottom min(rows, 2n) rows are cold, whatever the wind and the random choices. */
  lemma {:induction false} LaunchClears(s: seq<byte>, cols: nat, rows: nat, ps: seq<Pass>)
    requires |s| == RowStart(rows, cols) && cols > 0 && rows > 0
    ensures ColdFrom(LaunchAll(s, cols, rows, ps), cols, ColdRow(rows, 2 * |ps|))
  {
    if ps == [] {
      assert ColdRow(rows, 0) == rows;
    } else {
      var front := ps[..|ps| - 1];
      LaunchClears(s, cols, rows, front);
      LaunchCools(LaunchAll(s, cols, rows, front), cols, rows, ps[|ps| - 1], ColdRow(rows, 2 * |front|));
    }
  }

  /** No wind, no deep sources, no cooling. */
  const CALM := Pass((x, y) => 0, (x, y) => false, (x, y) => 0)

  function Calms(n: nat): (ps: seq<Pass>)
    ensures |ps| == n
  {
    if n == 0 then [] else Calms(n - 1) + [CALM]
  }

  /** In calm air a frame moves every cell up by two rows. */
  lemma CalmFrame(s: seq<byte>, cols: nat, rows: nat, k: nat)
    requires |s| == RowStart(rows, cols) && cols > 0 && rows > 0 && k < |s|
    ensures Launched(s, cols, rows, CALM)[k] == if k + 2 * cols < |s| then s[k + 2 * cols] else 0
  {
    RowStartMono(1, rows, cols);
    CalmCell(Lifted(s, cols), cols, rows, k);
    assert Launched(s, cols, rows, CALM)[k] == SweptCell(Lifted(s, cols), cols, rows, CALM, k);
  }

  lemma CalmCell(s: seq<byte>, cols: nat, rows: nat, k: nat)
    requires |s| == RowStart(rows, cols) && cols > 0 && rows > 0 && k < |s|
    ensures SweptCell(s, cols, rows, CALM, k) == if k + cols < |s| then s[k + cols] else s[k]
  {
    RowIff(k, rows - 1, cols);
    RowIff(k, rows, cols);
    assert RowAt(k, cols) + 1 < rows ==> Source(ColumnAt(k, cols), RowAt(k, cols), cols, rows, CALM) == k + cols;
  }

  lemma OneMoreCalm(s: seq<byte>, cols: nat, rows: nat, n: nat)
    requires |s| == RowStart(rows, cols) && cols > 0 && rows > 0 && n > 0
    ensures LaunchAll(s, cols, rows, Calms(n)) == Launched(LaunchAll(s, cols, rows, Calms(n - 1)), cols, rows, CALM)
  {
    assert Calms(n)[..n - 1] == Calms(n - 1);
  }

  /** The cells of 2n rows. */
  function Lost(n: nat, cols: nat): nat {
    if n == 0 then 0 else 2 * cols + Lost(n - 1, cols)
  }

  /** The bound is tight: in calm air a uniformly hot buffer loses exactly two rows per frame, from the bottom. */
  lemma {:induction false} CalmLosesTwoRows(cols: nat, rows: nat, n: nat, s: seq<byte>, k: nat)
    requires cols > 0 && rows > 0 && |s| == RowStart(rows, cols) && k < |s|
    requires forall j :: 0 <= j < |s| ==> s[j] == MAX_HEAT
    ensures LaunchAll(s, cols, rows, Calms(n))[k] == if k + Lost(n, cols) < |s| then MAX_HEAT else 0
  {
    if n > 0 {
      OneMoreCalm(s, cols, rows, n);
      CalmFrame(LaunchAll(s, cols, rows, Calms(n - 1)), cols, rows, k);
      if k + 2 * cols < |s| {
        CalmLosesTwoRows(cols, rows, n - 1, s, k + 2 * cols);
      }
    }
  }

  // ---- The animation ----

  /** The choices of one frame: the seeded heat of the two bottom rows, and one pass or several. */
  datatype Frame = Frame(bottom: nat -> byte, above: nat -> byte, passes: seq<Pass>)

  /** The frame loop: eruption, then launch. When the terminal has no more rows than there are launch frames, the
      buffer is cold at the end. */
  method RunFire(cols: nat, termRows: nat, frames: seq<Frame>) returns (heat: array<byte>)
    requires cols > 0 && termRows > 0 && |frames| == FRAMES_TOTAL
    requires forall i :: 0 <= i < |frames| ==> frames[i].passes != []
    ensures heat.Length == 2 * termRows * cols && forall k :: 0 <= k < heat.Length ==> heat[k] <= 48
    ensures ColdFrom(heat[..], cols, ColdRow(2 * termRows, 102))
    ensures termRows <= 51 ==> forall k :: 0 <= k < heat.Length ==> heat[k] == 0
  {
    var rows := termRows * 2;
    RowStartIsProduct(rows, cols);
    heat := new byte[rows * cols](_ => 0);
    for frame := 0 to PHASE_A_END
      invariant Bounded(heat[..])
    {
      Erupt(heat, cols, rows, frames[frame]);
    }
    ghost var cold: nat := rows;
    for frame := PHASE_A_END to FRAMES_TOTAL
      invariant Bounded(heat[..]) && ColdFrom(heat[..], cols, cold)
      invariant cold == ColdRow(rows, 2 * (frame - PHASE_A_END))
    {
      LaunchCools(heat[..], cols, rows, frames[frame].passes[0], cold);
      Launch(heat, cols, rows, frames[frame].passes[0]);
      cold := ColdRow(cold, 2);
    }
  }

  /** The heat given to column `x` of the bottom row. */
  function Ember(f: Frame, x: nat): byte { Min(f.bottom(x), MAX_HEAT) }

  /** A cell after the two bottom rows were seeded; the upper one is never hotter than the lower one. */
  function SeededCell(s: seq<byte>, cols: nat, rows: nat, f: Frame, k: nat): byte
    requires |s| == RowStart(rows, cols) && rows >= 2 && k < |s|
  {
    var upper, lower := RowStart(rows - 2, cols), RowStart(rows - 1, cols);
    if k >= lower then Ember(f, k - lower)
    else if k >= upper then Min(f.above(k - upper), Ember(f, k - upper))
    else s[k]
  }

  function Seeded(s: seq<byte>, cols: nat, rows: nat, f: Frame): (r: seq<byte>)
    requires |s| == RowStart(rows, cols) && rows >= 2
    ensures |r| == |s|
  {
    seq(|s|, k requires 0 <= k < |s| => SeededCell(s, cols, rows, f, k))
  }

  /** Column by column: the bottom row gets its heat, at most 48, and the row above it no more than that. */
  lemma SeededLaw(s: seq<byte>, cols: nat, rows: nat, f: Frame, x: nat)
    requires |s| == RowStart(rows, cols) && rows >= 2 && x < cols
    ensures |s| == rows * cols && 0 <= (rows - 2) * cols + x < (rows - 1) * cols + x < |s|
    ensures var ember := if f.bottom(x) > 48 then 48 else f.bottom(x);
            && Seeded(s, cols, rows, f)[(rows - 1) * cols + x] == ember
            && Seeded(s, cols, rows, f)[(rows - 2) * cols + x] == if f.above(x) > ember then ember else f.above(x)
    ensures forall k :: 0 <= k < (rows - 2) * cols ==> Seeded(s, cols, rows, f)[k] == s[k]
  {
    var lower, upper := RowStart(rows - 1, cols) + x, RowStart(rows - 2, cols) + x;
    RowStartIsProduct(rows - 2, cols);
    RowStartIsProduct(rows - 1, cols);
    RowStartIsProduct(rows, cols);
    assert Seeded(s, cols, rows, f)[lower] == SeededCell(s, cols, rows, f, lower);
    assert Seeded(s, cols, rows, f)[upper] == SeededCell(s, cols, rows, f, upper);
  }

  lemma SeedingKeepsBounded(s: seq<byte>, cols: nat, rows: nat, f: Frame)
    requires |s| == RowStart(rows, cols) && rows >= 2 && Bounded(s)
    ensures Bounded(Seeded(s, cols, rows, f))
  {
    assert forall k :: 0 <= k < |s| ==> SeededCell(s, cols, rows, f, k) <= MAX_HEAT;
  }

  function SweptAll(s: seq<byte>, cols: nat, rows: nat, ps: seq<Pass>): (r: seq<byte>)
    requires |s| == RowStart(rows, cols) && cols > 0
    ensures |r| == |s|
  {
    if ps == [] then s else Swept(SweptAll(s, cols, rows, ps[..|ps| - 1]), cols, rows, ps[|ps| - 1])
  }

  /** The loop over the columns of the two bottom rows. */
  method Seed(heat: array<byte>, cols: nat, rows: nat, f: Frame)
    requires heat.Length == RowStart(rows, cols) && rows >= 2
    modifies heat
    ensures heat[..] == Seeded(old(heat[..]), cols, rows, f)
  {
    ghost var was := heat[..];
    ghost var upper, lower := RowStart(rows - 2, cols), RowStart(rows - 1, cols);
    RowStartIsProduct(rows - 1, cols);
    RowStartIsProduct(rows - 2, cols);
    for x := 0 to cols
      invariant forall k :: 0 <= k < upper ==> heat[k] == was[k]
      invariant forall k :: upper <= k < upper + x ==> heat[k] == Min(f.above(k - upper), Ember(f, k - upper))
      invariant forall k :: lower <= k < lower + x ==> heat[k] == Ember(f, k - lower)
    {
      var v: byte := Min(f.bottom(x), MAX_HEAT);
      heat[(rows - 1) * cols + x] := v;
      heat[(rows - 2) * cols + x] := Min(f.above(x), v);
    }
  }

  /** Seed the two bottom rows, then propagate, once or several times. */
  method Erupt(heat: array<byte>, cols: nat, rows: nat, f: Frame)
    requires heat.Length == RowStart(rows, cols) && cols > 0 && rows >= 2 && Bounded(heat[..])
    modifies heat
    ensures heat[..] == SweptAll(Seeded(old(heat[..]), cols, rows, f), cols, rows, f.passes)
    ensures Bounded(heat[..])
  {
    SeedingKeepsBounded(heat[..], cols, rows, f);
    Seed(heat, cols, rows, f);
    ghost var seeded := heat[..];
    assert f.passes[..0] == [];
    for i := 0 to |f.passes|
      invariant Bounded(heat[..]) && heat[..] == SweptAll(seeded, cols, rows, f.passes[..i])
    {
      assert f.passes[..i + 1][..i] == f.passes[..i];
      SweepKeepsBounded(heat[..], cols, rows, f.passes[i]);
      Propagate(heat, cols, rows, f.passes[i]);
    }
    assert f.passes[..|f.passes|] == f.passes;
  }

  /** Move the buffer up, clear the bottom row, propagate. */
  method Launch(heat: array<byte>, cols: nat, rows: nat, p: Pass)
    requires heat.Length == RowStart(rows, cols) && cols > 0 && rows > 0
    modifies heat
    ensures heat[..] == Launched(old(heat[..]), cols, rows, p)
    ensures Bounded(old(heat[..])) ==> Bounded(heat[..])
  {
    ghost var was := heat[..];
    RowStartMono(1, rows, cols);
    ShiftUp(heat, cols, rows);
    if Bounded(was) {
      SweepKeepsBounded(heat[..], cols, rows, p);
    }
    Propagate(heat, cols, rows, p);
  }

  /** Move the buffer up by one row and clear the bottom one. */
  method ShiftUp(heat: array<byte>, cols: nat, rows: nat)
    requires heat.Length == RowStart(rows, cols) && rows > 0 && cols <= heat.Length
    modifies heat
    ensures heat[..] == Lifted(old(heat[..]), cols)
  {
    ghost var was := heat[..];
    RowStartIsProduct(rows - 1, cols);
    var bottom := (rows - 1) * cols;
    assert bottom == heat.Length - cols;
    for k := 0 to heat.Length - cols
      invariant forall j :: 0 <= j < k ==> heat[j] == was[j + cols]
      invariant forall j :: k <= j < heat.Length ==> heat[j] == was[j]
    {
      heat[k] := heat[k + cols];
    }
    for k := bottom to heat.Length
      invariant forall j :: 0 <= j < bottom ==> heat[j] == was[j + cols]
      invariant forall j :: bottom <= j < k ==> heat[j] == 0
    {
      heat[k] := 0;
    }
  }
}
