/** Resolving a request to a region and an output size, and the boxes it averages. */
module ShotPlan {
  import opened Congruence
  import opened LittleEndian
  import opened Wrappers

  const COMPACT := 1
  const GRAY := 2

  datatype Options = Options(flags: u32, x: u32, y: u32, width: u32, height: u32, scalePercent: u32)

  datatype Region = Region(x: int, y: int, w: int, h: int)

  /** A region clipped to the screen and the size it is scaled to. */
  datatype Plan = Plan(x: int, y: int, w: int, h: int, outW: int, outH: int)

  function Min(a: int, b: int): int {
    if a < b then a else b
  }

  function Max(a: int, b: int): int {
    if a > b then a else b
  }

  /** The host's resolution of a region and scale; None where it raises. */
  function PlanShot(screenW: int, screenH: int, region: Option<Region>, scale: int): Option<Plan> {
    if !(1 <= scale <= 100) then None
    else
      match region
      case None =>
        Some(Plan(0, 0, screenW, screenH, Scaled(screenW, scale), Scaled(screenH, scale)))
      case Some(r) =>
        if r.w <= 0 || r.h <= 0 || r.x < 0 || r.y < 0 then None
        else if screenW != 0 && (r.x >= screenW || r.y >= screenH) then None
        else
          var w := if screenW != 0 then Min(r.w, screenW - r.x) else r.w;
          var h := if screenW != 0 then Min(r.h, screenH - r.y) else r.h;
          Some(Plan(r.x, r.y, w, h, Scaled(w, scale), Scaled(h, scale)))
  }

  function Scaled(size: int, scale: int): int {
    Max(1, (size * scale + 99) / 100)
  }

  /** What a request asks for in the host's terms. */
  function RegionOf(o: Options): Option<Region> {
    if o.width == 0 || o.height == 0 then None else Some(Region(o.x, o.y, o.width, o.height))
  }

  function ScaleOf(o: Options): int {
    if o.scalePercent == 0 then 100 else o.scalePercent
  }

  /** The requests the agent rejects before looking at the region. */
  predicate KnownRequest(o: Options, screenW: int, screenH: int) {
    o.flags <= COMPACT + GRAY && o.scalePercent <= 100 && 1 <= screenW <= 4096 && 1 <= screenH <= 4096
  }

  /** The request names a rectangle. */
  predicate HasRegion(o: Options) {
    o.width != 0 && o.height != 0
  }

  /** The screen positions a request asks for: those in its rectangle, or all without one. */
  predicate Asked(o: Options, screenW: int, screenH: int, vx: int, vy: int) {
    && 0 <= vx < screenW && 0 <= vy < screenH
    && (HasRegion(o) ==> o.x <= vx < o.x + o.width && o.y <= vy < o.y + o.height)
  }

  predicate InRegion(p: Plan, vx: int, vy: int) {
    p.x <= vx < p.x + p.w && p.y <= vy < p.y + p.h
  }

  /** The least side of at least one that is no smaller than the given part of a side. */
  predicate LeastSide(n: int, side: int, percent: int) {
    n >= 1 && 100 * n >= side * percent && (n > 1 ==> 100 * (n - 1) < side * percent)
  }

  /** A plan serves a request: it covers the positions asked for and no others, at the size asked for. */
  ghost predicate Serves(p: Plan, o: Options, screenW: int, screenH: int) {
    && (forall vx, vy :: InRegion(p, vx, vy) <==> Asked(o, screenW, screenH, vx, vy))
    && LeastSide(p.outW, p.w, ScaleOf(o)) && LeastSide(p.outH, p.h, ScaleOf(o))
  }

  /** The request is known and asks for some position of the screen. */
  ghost predicate Servable(o: Options, screenW: int, screenH: int) {
    KnownRequest(o, screenW, screenH) && exists vx, vy :: Asked(o, screenW, screenH, vx, vy)
  }

  lemma ScaledLeast(size: int, scale: int)
    requires 1 <= size && 1 <= scale
    ensures LeastSide(Scaled(size, scale), size, scale)
  {
    assert size * scale >= 1;
    var v := size * scale;
    DivMod(v + 99, 100);
  }

  /** The host's plan is the one the request asks for, and it refuses exactly what asks for nothing. */
  lemma PlanServes(o: Options, screenW: u32, screenH: u32)
    requires KnownRequest(o, screenW, screenH)
    ensures var p := PlanShot(screenW, screenH, RegionOf(o), ScaleOf(o));
            && (p.Some? <==> Servable(o, screenW, screenH))
            && (p.Some? ==> Serves(p.value, o, screenW, screenH))
  {
    hide Scaled, LeastSide;
    var p := PlanShot(screenW, screenH, RegionOf(o), ScaleOf(o));
    if p.Some? {
      ScaledLeast(p.value.w, ScaleOf(o));
      ScaledLeast(p.value.h, ScaleOf(o));
      assert Asked(o, screenW, screenH, p.value.x, p.value.y);
    }
  }

  lemma NotServable(o: Options, screenW: int, screenH: int)
    requires !KnownRequest(o, screenW, screenH)
    ensures !Servable(o, screenW, screenH)
  {
  }

  /** There is only one such plan. */
  lemma ServesUnique(p: Plan, q: Plan, o: Options, screenW: int, screenH: int)
    requires Serves(p, o, screenW, screenH) && Serves(q, o, screenW, screenH)
    requires p.w >= 1 && p.h >= 1 && q.w >= 1 && q.h >= 1
    ensures p == q
  {
    SameCorners(p, q, o, screenW, screenH);
    SameCorners(q, p, o, screenW, screenH);
    assert p.x == q.x && p.y == q.y && p.w == q.w && p.h == q.h;
  }

  lemma SameCorners(p: Plan, q: Plan, o: Options, screenW: int, screenH: int)
    requires Serves(p, o, screenW, screenH) && Serves(q, o, screenW, screenH) && p.w >= 1 && p.h >= 1
    ensures q.x <= p.x && p.x + p.w <= q.x + q.w && q.y <= p.y && p.y + p.h <= q.y + q.h
  {
    assert InRegion(p, p.x, p.y) && InRegion(p, p.x + p.w - 1, p.y + p.h - 1);
    assert Asked(o, screenW, screenH, p.x, p.y) && Asked(o, screenW, screenH, p.x + p.w - 1, p.y + p.h - 1);
    assert InRegion(q, p.x, p.y) && InRegion(q, p.x + p.w - 1, p.y + p.h - 1);
  }

  /** The agent's resolution: every 32-bit intermediate fits, and the result is the host's. */
  method ResolvePlan(o: Options, screenW: u32, screenH: u32) returns (ok: bool, plan: Plan)
    ensures ok <==> KnownRequest(o, screenW, screenH) && PlanShot(screenW, screenH, RegionOf(o), ScaleOf(o)).Some?
    ensures ok ==> Some(plan) == PlanShot(screenW, screenH, RegionOf(o), ScaleOf(o))
    ensures ok <==> Servable(o, screenW, screenH)
    ensures ok ==> Serves(plan, o, screenW, screenH)
  {
    hide Serves, Servable;
    if KnownRequest(o, screenW, screenH) {
      PlanServes(o, screenW, screenH);
    } else {
      NotServable(o, screenW, screenH);
    }
    var scale: u32 := if o.scalePercent == 0 then 100 else o.scalePercent;
    if o.flags / 4 != 0 || scale > 100 || screenW == 0 || screenH == 0 || screenW > 4096 || screenH > 4096 {
      return false, Plan(0, 0, 0, 0, 0, 0);
    }
    var x: u32, y: u32, w: u32, h: u32 := 0, 0, screenW, screenH;
    if o.width != 0 && o.height != 0 {
      if o.x >= screenW || o.y >= screenH {
        return false, Plan(0, 0, 0, 0, 0, 0);
      }
      x, y := o.x, o.y;
      w, h := screenW - o.x, screenH - o.y;
      if o.width < w {
        w := o.width;
      }
      if o.height < h {
        h := o.height;
      }
    }
    ScaleRoom(w, scale);
    ScaleRoom(h, scale);
    var outW: u32 := (w * scale + 99) / 100;
    var outH: u32 := (h * scale + 99) / 100;
    if outW == 0 {
      outW := 1;
    }
    if outH == 0 {
      outH := 1;
    }
    return true, Plan(x, y, w, h, outW, outH);
  }

  lemma ScaleRoom(size: int, scale: int)
    requires 0 <= size <= 4096 && 0 <= scale <= 100
    ensures 0 <= size * scale + 99 < 0x1_0000_0000
  {
    MulBound(size, scale, 4096, 100);
  }

  /** Scaling down never grows a side and never loses it. */
  lemma ScaleRange(size: int, scale: int)
    requires 1 <= size <= 4096 && 1 <= scale <= 100
    ensures 1 <= (size * scale + 99) / 100 <= size
    ensures Scaled(size, scale) == (size * scale + 99) / 100
  {
    assert size <= size * scale <= size * 100;
  }

  lemma ScaleFull(size: int)
    requires 1 <= size
    ensures Scaled(size, 100) == size
  {
  }

  /** A plan whose region lies on the screen and whose output is no larger than the region. */
  predicate PlanFits(p: Plan, screenW: int, screenH: int) {
    && 0 <= p.x && 0 <= p.y && 1 <= p.outW <= p.w && 1 <= p.outH <= p.h
    && p.x + p.w <= screenW <= 4096 && p.y + p.h <= screenH <= 4096
  }

  lemma PlannedFits(o: Options, screenW: u32, screenH: u32)
    requires KnownRequest(o, screenW, screenH) && PlanShot(screenW, screenH, RegionOf(o), ScaleOf(o)).Some?
    ensures PlanFits(PlanShot(screenW, screenH, RegionOf(o), ScaleOf(o)).value, screenW, screenH)
  {
    var p := PlanShot(screenW, screenH, RegionOf(o), ScaleOf(o)).value;
    ScaleRange(p.w, ScaleOf(o));
    ScaleRange(p.h, ScaleOf(o));
  }

  /** The first source position of output position k. */
  function BoxStart(k: int, size: int, out: int): int
    requires out > 0
  {
    k * size / out
  }

  /** Boxes are never empty and stay inside the region: the widening of an empty box never fires. */
  lemma BoxNonEmpty(k: int, size: int, out: int)
    requires 1 <= out <= size && 0 <= k < out
    ensures 0 <= BoxStart(k, size, out) < BoxStart(k + 1, size, out) <= size
  {
    assert (k + 1) * size == k * size + size;
    assert 0 <= k * size;
    QuotientMonotone(0, k * size, out);
    QuotientStep(k * size, out);
    QuotientMonotone(k * size + out, (k + 1) * size, out);
    assert (k + 1) * size <= out * size;
    QuotientMonotone((k + 1) * size, out * size, out);
    BoxEnd(size, out);
  }

  lemma {:induction false} BoxMonotone(i: int, j: int, size: int, out: int)
    requires 1 <= out <= size && 0 <= i <= j <= out
    ensures BoxStart(i, size, out) <= BoxStart(j, size, out)
    decreases j - i
  {
    if i < j {
      BoxNonEmpty(j - 1, size, out);
      BoxMonotone(i, j - 1, size, out);
    }
  }

  predicate InBox(v: int, k: int, size: int, out: int)
    requires out > 0
  {
    BoxStart(k, size, out) <= v < BoxStart(k + 1, size, out)
  }

  /** The boxes are even: their sides differ by one at most. */
  lemma BoxesEven(k: int, size: int, out: int)
    requires 1 <= out <= size && 0 <= k < out
    ensures var side := BoxStart(k + 1, size, out) - BoxStart(k, size, out); side == size / out || side == size / out + 1
  {
    var a, b, q := k * size, (k + 1) * size, size / out;
    assert b == a + size;
    DivMod(a, out);
    DivMod(b, out);
    DivMod(size, out);
    var d := b / out - a / out - q;
    assert d * out == a % out + size % out - b % out by { EvenStep(a / out, b / out, q, out); }
    MulAtLeast(d, out);
    MulAtLeast(d - 1, out);
    assert (d - 1) * out == d * out - out;
    MulAtLeast(d - 2, out);
    assert (d - 2) * out == d * out - 2 * out;
  }

  lemma EvenStep(a: int, b: int, q: int, out: int)
    ensures (b - a - q) * out == b * out - a * out - q * out
  {
  }

  /** The boxes tile the region: each source position is in exactly one of them. */
  lemma BoxesTile(v: int, size: int, out: int) returns (k: int)
    requires 1 <= out <= size && 0 <= v < size
    ensures 0 <= k < out && InBox(v, k, size, out)
    ensures forall j :: 0 <= j < out && InBox(v, j, size, out) ==> j == k
  {
    k := 0;
    assert BoxStart(0, size, out) == 0;
    BoxEnd(size, out);
    while BoxStart(k + 1, size, out) <= v
      invariant 0 <= k < out && BoxStart(k, size, out) <= v
      decreases out - k
    {
      if k + 1 == out {
        assert false;
      }
      k := k + 1;
    }
    forall j | 0 <= j < out && InBox(v, j, size, out)
      ensures j == k
    {
      if j < k {
        BoxMonotone(j + 1, k, size, out);
      } else if k < j {
        BoxMonotone(k + 1, j, size, out);
      }
    }
  }

  lemma BoxEnd(size: int, out: int)
    requires 1 <= out
    ensures BoxStart(out, size, out) == size
  {
    assert out * size == size * out;
    QuotientUnique(out * size, out, size, 0);
  }

  /** Without scaling every box is one position. */
  lemma BoxUnit(k: int, size: int)
    requires 1 <= size
    ensures BoxStart(k, size, size) == k
  {
    BoxEnd(k, size);
    assert k * size == size * k;
  }
}
