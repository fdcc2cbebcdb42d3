/** The continuous/discrete bridge of main.rs: a view position is a
    digit-sequence block address, a fractional position inside the leaf
    block and a fractional zoom level. `Offset` and `Zoom` turn continuous pan
    and zoom deltas into changes of the address while the fractional parts
    stay in [0, 1). The source's `f32` values are exact reals here, so its
    range assertions become proof obligations.

    The camera point is the leaf's cell plus the position, in leaf-block
    units: (Value(block) + position) at depth |block|. Zooming changes the
    depth at which that point is written down but never moves it. */
module View {
  import opened Vectors
  import opened DigitAddress

  /** SUBBLOCK_COUNT as a floating-point value (exact here). */
  const SUBBLOCK_COUNT_F: real := 10.0

  datatype ViewState = ViewState(block: seq<IVec2>, position: Vec2, zoomLevel: real)

  predicate InUnit(r: real) {
    0.0 <= r < 1.0
  }

  /** The invariant that the range assertions of `offset` and `zoom` check:
      canonical digits, the position inside the leaf block, and the zoom
      level a fraction. */
  predicate ValidState(s: ViewState) {
    Canonical(s.block) && InUnit(s.position.x) && InUnit(s.position.y) && InUnit(s.zoomLevel)
  }

  /** `f32::max`. */
  function Max(a: real, b: real): (r: real)
    ensures r >= a && r >= b && (r == a || r == b)
  {
    if a >= b then a else b
  }

  /** One zoom-out step of `zoom`: the last digit is popped and the
      position inside the leaf is folded into the parent's frame. */
  function ZoomedOut(s: ViewState): (t: ViewState)
    requires |s.block| > 0
    ensures |t.block| == |s.block| - 1
    ensures t.zoomLevel == s.zoomLevel
  {
    var last := GetLastBlockPos(s.block);
    ViewState(ZoomOut(s.block),
              Vec2((last.x as real + s.position.x) / SUBBLOCK_COUNT_F,
                   (last.y as real + s.position.y) / SUBBLOCK_COUNT_F),
              s.zoomLevel)
  }

  /** `fine` names the camera point of `coarse` at a depth at least as
      large: zooming out of `fine` one level at a time reaches `coarse`'s
      block and position. */
  predicate Refines(fine: ViewState, coarse: ViewState)
    decreases |fine.block|
  {
    if |fine.block| <= |coarse.block| then
      fine.block == coarse.block && fine.position == coarse.position
    else
      Refines(ZoomedOut(fine), coarse)
  }

  /** The total zoom after adding `diff`, clamped at 0. */
  function TotalZoom(s: ViewState, diff: real): real {
    Max(|s.block| as real + s.zoomLevel + diff, 0.0)
  }

  /** What `zoom(diff)` achieves: the depth is the integer part of the new
      total zoom, the zoom level its fractional part, and the camera point is
      unchanged. */
  predicate ZoomSpec(s: ViewState, diff: real, t: ViewState) {
    var total := TotalZoom(s, diff);
    |t.block| == total.Floor && t.zoomLevel == total - total.Floor as real &&
    if |t.block| <= |s.block| then Refines(s, t) else Refines(t, s)
  }

  /** The state after `offset(dx, dy)`: the new position is the fractional
      part of the moved position and its integer part is forwarded to the
      address. */
  function Offsetted(s: ViewState, dx: real, dy: real): (t: ViewState)
    ensures InUnit(t.position.x) && InUnit(t.position.y)
    ensures t.zoomLevel == s.zoomLevel && |t.block| == |s.block|
    ensures ValidState(s) ==> ValidState(t)
  {
    var x, y := s.position.x + dx, s.position.y + dy;
    ViewState(DigitAddress.Offset(s.block, x.Floor, y.Floor),
              Vec2(x - x.Floor as real, y - y.Floor as real), s.zoomLevel)
  }

  class ViewPosition {
    var block: seq<IVec2>
    var position: Vec2
    var zoomLevel: real

    constructor (block: seq<IVec2>, position: Vec2, zoomLevel: real)
      ensures this.block == block && this.position == position && this.zoomLevel == zoomLevel
    {
      this.block := block;
      this.position := position;
      this.zoomLevel := zoomLevel;
    }

    function State(): ViewState
      reads this
    {
      ViewState(block, position, zoomLevel)
    }

    predicate Valid()
      reads this
    {
      ValidState(State())
    }

    /** Pans by (x, y) leaf blocks. */
    method Offset(x: real, y: real)
      modifies this
      ensures State() == Offsetted(old(State()), x, y)
      ensures InUnit(position.x) && InUnit(position.y)
      ensures position.x + (old(position.x) + x).Floor as real == old(position.x) + x
      ensures position.y + (old(position.y) + y).Floor as real == old(position.y) + y
      ensures old(Valid()) ==> Valid()
    {
      var nx := position.x + x;
      var ny := position.y + y;

      var ix := nx.Floor;
      var iy := ny.Floor;
      position := Vec2(nx - ix as real, ny - iy as real);

      assert 0.0 <= position.x <= 1.0;
      assert 0.0 <= position.y <= 1.0;

      block := DigitAddress.Offset(block, ix, iy);
      OffsettedWith(old(State()), x, y, ix, iy);
      assert position.x + ix as real == nx && position.y + iy as real == ny;
      assert old(position.x) + x == nx && old(position.y) + y == ny;
      assert (old(position.x) + x).Floor == ix && (old(position.y) + y).Floor == iy;
    }

    /** Zooms by `diff` levels: pops digits, folding the position into the
        parent's frame, or pushes digits, unfolding it into the child's. */
    method Zoom(diff: real)
      requires Valid()
      modifies this
      ensures Valid()
      ensures ZoomSpec(old(State()), diff, State())
      ensures |old(block)| as real + old(zoomLevel) + diff <= 0.0 ==> block == [] && zoomLevel == 0.0
    {
      ghost var start := State();
      var zoom := Max(GetZoom(block) as real + zoomLevel + diff, 0.0);

      var izoom := zoom.Floor;
      zoomLevel := zoom - izoom as real;
      assert 0 <= izoom && InUnit(zoomLevel);

      while GetZoom(block) > izoom
        invariant Canonical(block) && InUnit(position.x) && InUnit(position.y)
        invariant zoomLevel == zoom - izoom as real
        invariant |block| <= |start.block|
        invariant |block| < |start.block| ==> izoom <= |block|
        invariant |block| == |start.block| ==> block == start.block && position == start.position
        invariant Refines(start, State())
        decreases |block|
      {
        ghost var before := State();
        var last := GetLastBlockPos(block);
        block := ZoomOut(block);
        ZoomOutUnit(last.x, position.x);
        ZoomOutUnit(last.y, position.y);
        position := Vec2((last.x as real + position.x) / SUBBLOCK_COUNT_F,
                         (last.y as real + position.y) / SUBBLOCK_COUNT_F);

        assert 0.0 <= position.x <= 1.0;
        assert 0.0 <= position.y <= 1.0;
        ZoomOutStep(start, before);
        assert State() == ZoomedOut(before);
      }

      ghost var outer := State();
      while GetZoom(block) < izoom
        invariant Canonical(block) && InUnit(position.x) && InUnit(position.y)
        invariant zoomLevel == outer.zoomLevel
        invariant |outer.block| <= |block| <= izoom || |block| == |outer.block|
        invariant |block| == |outer.block| ==> block == outer.block && position == outer.position
        invariant Refines(State(), outer)
        decreases izoom - |block|
      {
        ghost var before := State();
        var blockX := (position.x * SUBBLOCK_COUNT_F).Floor;
        var blockY := (position.y * SUBBLOCK_COUNT_F).Floor;
        ZoomInUnit(position.x);
        ZoomInUnit(position.y);
        CanonicalPush(block, IVec2(blockX, blockY));

        block := ZoomIn(block, blockX, blockY);

        position := Vec2((position.x - blockX as real / SUBBLOCK_COUNT_F) * SUBBLOCK_COUNT_F,
                         (position.y - blockY as real / SUBBLOCK_COUNT_F) * SUBBLOCK_COUNT_F);

        assert 0.0 <= position.x <= 1.0;
        assert 0.0 <= position.y <= 1.0;
        ZoomInStep(before, outer, State(), IVec2(blockX, blockY));
      }
      if izoom <= |start.block| {
        assert State() == outer;
        assert Refines(start, State());
      } else {
        RefinesSameCoarse(State(), outer, start);
      }
    }
  }

  /** Folding a digit and a position inside the leaf into the parent's frame
      gives a position inside the parent. */
  lemma ZoomOutUnit(d: int, p: real)
    requires 0 <= d < SUBBLOCK_COUNT && InUnit(p)
    ensures InUnit((d as real + p) / SUBBLOCK_COUNT_F)
  {
  }

  /** The sub-block under a position inside the leaf is a digit, and the
      position inside that sub-block is again inside it. */
  lemma ZoomInUnit(p: real)
    requires InUnit(p)
    ensures 0 <= (p * SUBBLOCK_COUNT_F).Floor < SUBBLOCK_COUNT
    ensures InUnit((p - (p * SUBBLOCK_COUNT_F).Floor as real / SUBBLOCK_COUNT_F) * SUBBLOCK_COUNT_F)
  {
    var q := p * SUBBLOCK_COUNT_F;
    assert (p - q.Floor as real / SUBBLOCK_COUNT_F) * SUBBLOCK_COUNT_F == q - q.Floor as real;
  }

  lemma CanonicalPush(a: seq<IVec2>, d: IVec2)
    requires Canonical(a) && IsDigit(d)
    ensures Canonical(a + [d])
  {
    assert forall i :: 0 <= i < |a| ==> (a + [d])[i] == a[i];
  }

  /** Refines looks at the coarse state's block and position only. */
  lemma {:induction false} RefinesSameCoarse(fine: ViewState, coarse: ViewState, other: ViewState)
    requires Refines(fine, coarse)
    requires other.block == coarse.block && other.position == coarse.position
    ensures Refines(fine, other)
    decreases |fine.block|
  {
    if |fine.block| > |coarse.block| {
      RefinesSameCoarse(ZoomedOut(fine), coarse, other);
    }
  }

  /** ... and at the fine state's block and position only. */
  lemma {:induction false} RefinesSameFine(fine: ViewState, other: ViewState, coarse: ViewState)
    requires Refines(fine, coarse)
    requires other.block == fine.block && other.position == fine.position
    ensures Refines(other, coarse)
    decreases |fine.block|
  {
    if |fine.block| > |coarse.block| {
      assert ZoomedOut(other).block == ZoomedOut(fine).block;
      assert ZoomedOut(other).position == ZoomedOut(fine).position;
      RefinesSameFine(ZoomedOut(fine), ZoomedOut(other), coarse);
    }
  }

  /** A zoom-out step on a coarse state that `fine` refines keeps it refined. */
  lemma {:induction false} ZoomOutStep(fine: ViewState, coarse: ViewState)
    requires Refines(fine, coarse) && |coarse.block| > 0
    ensures Refines(fine, ZoomedOut(coarse))
    decreases |fine.block|
  {
    if |fine.block| <= |coarse.block| {
      assert ZoomedOut(fine) == ZoomedOut(coarse).(zoomLevel := fine.zoomLevel);
    } else {
      ZoomOutStep(ZoomedOut(fine), coarse);
    }
  }

  /** A zoom-in step: pushing the digit d and setting the position to
      (position - d / SUBBLOCK_COUNT) * SUBBLOCK_COUNT is undone by a
      zoom-out step, so the new state still refines `coarse`. */
  lemma ZoomInStep(cur: ViewState, coarse: ViewState, next: ViewState, d: IVec2)
    requires Refines(cur, coarse)
    requires next.block == cur.block + [d]
    requires next.position == Vec2((cur.position.x - d.x as real / SUBBLOCK_COUNT_F) * SUBBLOCK_COUNT_F,
                                   (cur.position.y - d.y as real / SUBBLOCK_COUNT_F) * SUBBLOCK_COUNT_F)
    ensures Refines(next, coarse)
  {
    var up := ZoomedOut(next);
    assert up.block == cur.block;
    assert up.position == cur.position;
    RefinesSameFine(cur, up, coarse);
  }

  /** p in units of blocks k levels further down: p * SUBBLOCK_COUNT^k. */
  function Scaled(p: real, k: nat): real {
    if k == 0 then p else Scaled(p, k - 1) * SUBBLOCK_COUNT_F
  }

  /** Scaling by k levels multiplies by the number of depth-k blocks. */
  lemma {:induction false} ScaledIsSpan(p: real, k: nat)
    ensures Scaled(p, k) == p * Span(k) as real
  {
    if k > 0 {
      ScaledIsSpan(p, k - 1);
      var s := Span(k - 1) as real;
      assert Span(k) as real == SUBBLOCK_COUNT_F * s;
      assert p * (SUBBLOCK_COUNT_F * s) == (p * s) * SUBBLOCK_COUNT_F;
    }
  }

  /** `fine`'s address extends `coarse`'s, and `fine`'s leaf cell plus
      position is `coarse`'s scaled down to `fine`'s depth: both name the
      same camera point. */
  predicate SamePoint(fine: ViewState, coarse: ViewState) {
    |coarse.block| <= |fine.block| && fine.block[..|coarse.block|] == coarse.block &&
    var k := |fine.block| - |coarse.block|;
    Value(fine.block).x as real + fine.position.x == Scaled(Value(coarse.block).x as real + coarse.position.x, k) &&
    Value(fine.block).y as real + fine.position.y == Scaled(Value(coarse.block).y as real + coarse.position.y, k)
  }

  /** The camera point does not move: a state that refines another names
      the same camera point. */
  lemma {:induction false} RefinesPoint(fine: ViewState, coarse: ViewState)
    requires Refines(fine, coarse)
    ensures SamePoint(fine, coarse)
    decreases |fine.block|
  {
    if |fine.block| > |coarse.block| {
      RefinesPoint(ZoomedOut(fine), coarse);
      SamePointStep(fine, coarse);
    }
  }

  /** SamePoint survives one zoom-in step of the fine state. */
  lemma SamePointStep(fine: ViewState, coarse: ViewState)
    requires |fine.block| > |coarse.block| && SamePoint(ZoomedOut(fine), coarse)
    ensures SamePoint(fine, coarse)
  {
    var last := fine.block[|fine.block| - 1];
    var k := |ZoomedOut(fine).block| - |coarse.block|;
    assert fine.block == ZoomedOut(fine).block + [last];
    assert Value(fine.block) == IVec2(Value(ZoomedOut(fine).block).x * SUBBLOCK_COUNT + last.x,
                                      Value(ZoomedOut(fine).block).y * SUBBLOCK_COUNT + last.y) by {
      ValuePush(ZoomedOut(fine).block, last);
    }
    assert fine.block[..|coarse.block|] == ZoomedOut(fine).block[..|coarse.block|];
    assert |fine.block| - |coarse.block| == k + 1;
    var px := Value(coarse.block).x as real + coarse.position.x;
    var py := Value(coarse.block).y as real + coarse.position.y;
    PointStep(Value(ZoomedOut(fine).block).x, last.x, fine.position.x, ZoomedOut(fine).position.x,
              Scaled(px, k), Scaled(px, k + 1));
    PointStep(Value(ZoomedOut(fine).block).y, last.y, fine.position.y, ZoomedOut(fine).position.y,
              Scaled(py, k), Scaled(py, k + 1));
  }

  /** One axis of RefinesPoint, one level down: cell vu with sub-block d at
      position pf in that sub-block, which is position pu in the cell. The
      camera point is `here` in units of the cell and `below` in units of
      its sub-blocks. */
  lemma PointStep(vu: int, d: int, pf: real, pu: real, here: real, below: real)
    requires pu == (d as real + pf) / SUBBLOCK_COUNT_F
    requires vu as real + pu == here && below == here * SUBBLOCK_COUNT_F
    ensures (vu * SUBBLOCK_COUNT + d) as real + pf == below
  {
  }

  /** Zooming out of one state reaches, at any depth, only one block and
      position. */
  lemma {:induction false} RefinesUniqueAbove(fine: ViewState, c1: ViewState, c2: ViewState)
    requires Refines(fine, c1) && Refines(fine, c2) && |c1.block| == |c2.block|
    ensures c1.block == c2.block && c1.position == c2.position
    decreases |fine.block|
  {
    if |fine.block| > |c1.block| {
      RefinesUniqueAbove(ZoomedOut(fine), c1, c2);
    }
  }

  /** Two valid states of one depth that refine the same state are equal
      in block and position: a digit and a position in [0, 1) are
      determined by their sum. */
  lemma {:induction false} RefinesUniqueBelow(f1: ViewState, f2: ViewState, coarse: ViewState)
    requires Refines(f1, coarse) && Refines(f2, coarse) && |f1.block| == |f2.block|
    requires Canonical(f1.block) && InUnit(f1.position.x) && InUnit(f1.position.y)
    requires Canonical(f2.block) && InUnit(f2.position.x) && InUnit(f2.position.y)
    ensures f1.block == f2.block && f1.position == f2.position
    decreases |f1.block|
  {
    if |f1.block| > |coarse.block| {
      var n := |f1.block| - 1;
      var u1, u2 := ZoomedOut(f1), ZoomedOut(f2);
      var d1, d2 := f1.block[n], f2.block[n];
      assert IsDigit(d1) && IsDigit(d2);
      ZoomOutUnit(d1.x, f1.position.x);
      ZoomOutUnit(d1.y, f1.position.y);
      ZoomOutUnit(d2.x, f2.position.x);
      ZoomOutUnit(d2.y, f2.position.y);
      assert Canonical(u1.block) && Canonical(u2.block);
      RefinesUniqueBelow(u1, u2, coarse);
      DigitFracUnique(d1.x, f1.position.x, d2.x, f2.position.x);
      DigitFracUnique(d1.y, f1.position.y, d2.y, f2.position.y);
      assert f1.block == u1.block + [d1];
      assert f2.block == u2.block + [d2];
    }
  }

  /** An integer and a fraction in [0, 1) are determined by their sum. */
  lemma DigitFracUnique(d1: int, p1: real, d2: int, p2: real)
    requires InUnit(p1) && InUnit(p2)
    requires (d1 as real + p1) / SUBBLOCK_COUNT_F == (d2 as real + p2) / SUBBLOCK_COUNT_F
    ensures d1 == d2 && p1 == p2
  {
    assert (d1 - d2) as real == p2 - p1;
  }

  /** Without validity ZoomSpec has more than one result: from the root at
      (0.5, 0.5), zooming by 1 may land in sub-block (5, 5) at (0, 0), or in
      sub-block (4, 4) at (1, 1), which is not a valid position. */
  lemma ZoomSpecNeedsValid()
    ensures ZoomSpec(ViewState([], Vec2(0.5, 0.5), 0.0), 1.0, ViewState([IVec2(5, 5)], Vec2(0.0, 0.0), 0.0))
    ensures ZoomSpec(ViewState([], Vec2(0.5, 0.5), 0.0), 1.0, ViewState([IVec2(4, 4)], Vec2(1.0, 1.0), 0.0))
    ensures !ValidState(ViewState([IVec2(4, 4)], Vec2(1.0, 1.0), 0.0))
  {
    assert ZoomedOut(ViewState([IVec2(5, 5)], Vec2(0.0, 0.0), 0.0)).block == [];
    assert ZoomedOut(ViewState([IVec2(4, 4)], Vec2(1.0, 1.0), 0.0)).block == [];
  }

  /** `zoom` has one outcome: two valid states that both meet ZoomSpec for
      the same start and delta are equal. */
  lemma ZoomDeterministic(s: ViewState, diff: real, t1: ViewState, t2: ViewState)
    requires ZoomSpec(s, diff, t1) && ZoomSpec(s, diff, t2)
    requires ValidState(t1) && ValidState(t2)
    ensures t1 == t2
  {
    if |t1.block| <= |s.block| {
      RefinesUniqueAbove(s, t1, t2);
    } else {
      RefinesUniqueBelow(t1, t2, s);
    }
  }

  /** Zooming by `diff` and then by `-diff` restores the start, unless the
      first zoom was clamped at depth 0. */
  lemma ZoomRoundTrip(s: ViewState, diff: real, t: ViewState, u: ViewState)
    requires ValidState(s) && ValidState(u)
    requires |s.block| as real + s.zoomLevel + diff >= 0.0
    requires ZoomSpec(s, diff, t) && ZoomSpec(t, -diff, u)
    ensures u == s
  {
    var back := |t.block| as real + t.zoomLevel - diff;
    assert back == |s.block| as real + s.zoomLevel;
    assert TotalZoom(t, -diff) == back;
    assert back.Floor == |s.block|;
    if |s.block| == |t.block| {
      assert t.block == s.block && t.position == s.position;
    }
    assert ZoomSpec(t, -diff, s);
    ZoomDeterministic(t, -diff, s, u);
  }

  /** Offsetting by a delta and then by its negation restores a state whose
      digits are canonical and whose position is inside the leaf. */
  lemma OffsettedRoundTrip(s: ViewState, dx: real, dy: real)
    requires Canonical(s.block) && InUnit(s.position.x) && InUnit(s.position.y)
    ensures Offsetted(Offsetted(s, dx, dy), -dx, -dy) == s
  {
    var fx, fy := (s.position.x + dx).Floor, (s.position.y + dy).Floor;
    OffsettedBack(s, Offsetted(s, dx, dy), dx, dy, fx, fy);
  }

  /** OffsettedRoundTrip from the state t after the first offset, whose
      integer parts fx and fy went to the address. */
  lemma OffsettedBack(s: ViewState, t: ViewState, dx: real, dy: real, fx: int, fy: int)
    requires Canonical(s.block) && InUnit(s.position.x) && InUnit(s.position.y)
    requires fx == (s.position.x + dx).Floor && fy == (s.position.y + dy).Floor
    requires t.block == DigitAddress.Offset(s.block, fx, fy) && t.zoomLevel == s.zoomLevel
    requires t.position == Vec2(s.position.x + dx - fx as real, s.position.y + dy - fy as real)
    ensures Offsetted(t, -dx, -dy) == s
  {
    assert (t.position.x + -dx).Floor == -fx && (t.position.y + -dy).Floor == -fy by {
      FracRoundTrip(s.position.x, dx);
      FracRoundTrip(s.position.y, dy);
    }
    assert DigitAddress.Offset(t.block, -fx, -fy) == s.block by {
      DigitAddress.OffsetRoundTrip(s.block, t.block, fx, fy);
    }
    OffsettedTo(t, -dx, -dy, -fx, -fy, s);
  }

  /** Offsetted reaches r when r has, field by field, the state that the
      integer parts fx and fy of the moved position give. */
  lemma OffsettedTo(s: ViewState, dx: real, dy: real, fx: int, fy: int, r: ViewState)
    requires fx == (s.position.x + dx).Floor && fy == (s.position.y + dy).Floor
    requires r.block == DigitAddress.Offset(s.block, fx, fy)
    requires r.position == Vec2(s.position.x + dx - fx as real, s.position.y + dy - fy as real)
    requires r.zoomLevel == s.zoomLevel
    ensures Offsetted(s, dx, dy) == r
  {
    OffsettedWith(s, dx, dy, fx, fy);
  }

  /** Offsetted, given the integer parts fx and fy of the moved position. */
  lemma OffsettedWith(s: ViewState, dx: real, dy: real, fx: int, fy: int)
    requires fx == (s.position.x + dx).Floor && fy == (s.position.y + dy).Floor
    ensures Offsetted(s, dx, dy)
         == ViewState(DigitAddress.Offset(s.block, fx, fy),
                      Vec2(s.position.x + dx - fx as real, s.position.y + dy - fy as real), s.zoomLevel)
  {
  }

  /** One axis of OffsettedRoundTrip: a position p in [0, 1) moved by d
      keeps the fraction q; moving q back by d forwards the negated integer
      part and leaves p. */
  lemma FracRoundTrip(p: real, d: real)
    requires InUnit(p)
    ensures var q := p + d - (p + d).Floor as real;
      (q + -d).Floor == -(p + d).Floor && q + -d - (q + -d).Floor as real == p
  {
    var f := (p + d).Floor;
    var q := p + d - f as real;
    assert q + -d == p - f as real;
    assert (p - f as real).Floor == -f;
  }

  /** `offset` moves the camera point by the delta, modulo the number of
      cells at the leaf's depth: wrapX and wrapY count how often the address
      wrapped round. */
  lemma OffsetCamera(s: ViewState, dx: real, dy: real) returns (wrapX: int, wrapY: int)
    ensures var t := Offsetted(s, dx, dy);
      Value(t.block).x as real + t.position.x
        == Value(s.block).x as real + s.position.x + dx - (wrapX * Span(|s.block|)) as real &&
      Value(t.block).y as real + t.position.y
        == Value(s.block).y as real + s.position.y + dy - (wrapY * Span(|s.block|)) as real
  {
    var fx, fy := (s.position.x + dx).Floor, (s.position.y + dy).Floor;
    wrapX, wrapY := OffsetValue(s.block, fx, fy);
    var moved := Value(DigitAddress.Offset(s.block, fx, fy));
    CameraAxis(moved.x, Value(s.block).x, fx, wrapX * Span(|s.block|), s.position.x, dx);
    CameraAxis(moved.y, Value(s.block).y, fy, wrapY * Span(|s.block|), s.position.y, dy);
  }

  /** One axis of OffsetCamera: the address takes the integer part f of the
      moved position, less m wrapped cells, and the position keeps the rest. */
  lemma CameraAxis(vt: int, vs: int, f: int, m: int, p: real, delta: real)
    requires vt == vs + f - m
    ensures vt as real + (p + delta - f as real) == vs as real + p + delta - m as real
  {
  }
}
