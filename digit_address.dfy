/** The digit-sequence block address that `ViewPosition` in main.rs drives:
    a sequence of (x, y) digits in [0, SUBBLOCK_COUNT), coarsest first, whose
    length is the zoom depth. Its implementation is not part of this model;
    it is specified here only as far as main.rs and its tests use it.
    `Offset` is an assumption about that implementation: each level reduces
    its digit modulo SUBBLOCK_COUNT and carries the quotient into its
    parent, and the carry out of the coarsest digit is dropped. This agrees
    with the offset test of main.rs, which only moves one-digit addresses
    and never carries, but that test does not determine it. */
module DigitAddress {
  import opened Vectors

  /** The radix: each block has SUBBLOCK_COUNT x SUBBLOCK_COUNT sub-blocks. */
  const SUBBLOCK_COUNT: int := 10

  predicate IsDigit(d: IVec2) {
    0 <= d.x < SUBBLOCK_COUNT && 0 <= d.y < SUBBLOCK_COUNT
  }

  /** Every stored digit lies in [0, SUBBLOCK_COUNT). */
  predicate Canonical(a: seq<IVec2>) {
    forall i :: 0 <= i < |a| ==> IsDigit(a[i])
  }

  /** The zoom depth: the number of digits; depth 0 is the root block. */
  function GetZoom(a: seq<IVec2>): (r: nat)
    ensures r == 0 <==> a == []
  {
    |a|
  }

  /** One level down, into sub-block (x, y) of the leaf. */
  function ZoomIn(a: seq<IVec2>, x: int, y: int): (r: seq<IVec2>)
    ensures |r| == |a| + 1 && r[|a|] == IVec2(x, y)
  {
    a + [IVec2(x, y)]
  }

  /** One level up, to the leaf's parent. */
  function ZoomOut(a: seq<IVec2>): (r: seq<IVec2>)
    requires |a| > 0
    ensures |r| == |a| - 1
  {
    a[..|a| - 1]
  }

  /** The leaf's position inside its parent: the finest digit. */
  function GetLastBlockPos(a: seq<IVec2>): (r: IVec2)
    requires |a| > 0
    ensures Canonical(a) ==> IsDigit(r)
  {
    a[|a| - 1]
  }

  /** Zooming out undoes zooming in, and the digit zoomed into is the
      leaf's position in its parent. */
  lemma ZoomInOut(a: seq<IVec2>, x: int, y: int)
    ensures ZoomOut(ZoomIn(a, x, y)) == a
    ensures GetLastBlockPos(ZoomIn(a, x, y)) == IVec2(x, y)
  {
  }

  /** Zooming in to the leaf's position in its parent undoes zooming out:
      the parent's digits and the last digit make up the address. */
  lemma ZoomOutIn(a: seq<IVec2>)
    requires |a| > 0
    ensures ZoomIn(ZoomOut(a), GetLastBlockPos(a).x, GetLastBlockPos(a).y) == a
    ensures Canonical(a) ==> Canonical(ZoomOut(a))
  {
  }

  /** The leaf block's cell among all blocks of its depth: the digits read
      as a radix-SUBBLOCK_COUNT number. */
  function Value(a: seq<IVec2>): IVec2 {
    if a == [] then ZERO
    else
      var up := Value(a[..|a| - 1]);
      var last := a[|a| - 1];
      IVec2(up.x * SUBBLOCK_COUNT + last.x, up.y * SUBBLOCK_COUNT + last.y)
  }

  /** The number of blocks of depth n along each axis. */
  function Span(n: nat): (s: nat)
    ensures s >= 1
  {
    if n == 0 then 1 else SUBBLOCK_COUNT * Span(n - 1)
  }

  /** Moves the leaf block by (dx, dy) blocks of its own depth: the finest
      digit takes the delta, is reduced into [0, SUBBLOCK_COUNT) and hands
      the quotient to the next coarser digit; propagation stops as soon as
      both deltas are zero, and a carry left over at the coarsest digit is
      dropped. */
  function Offset(a: seq<IVec2>, dx: int, dy: int): (r: seq<IVec2>)
    ensures |r| == |a|
    ensures Canonical(a) ==> Canonical(r)
  {
    if a == [] || (dx == 0 && dy == 0) then a
    else
      var last := a[|a| - 1];
      var sx, sy := last.x + dx, last.y + dy;
      Offset(a[..|a| - 1], sx / SUBBLOCK_COUNT, sy / SUBBLOCK_COUNT)
        + [IVec2(sx % SUBBLOCK_COUNT, sy % SUBBLOCK_COUNT)]
  }

  /** Canonical digits of length n name one of the Span(n) cells of depth n. */
  lemma {:induction false} ValueBound(a: seq<IVec2>)
    requires Canonical(a)
    ensures 0 <= Value(a).x < Span(|a|)
    ensures 0 <= Value(a).y < Span(|a|)
  {
    if a != [] {
      ValueBound(a[..|a| - 1]);
    }
  }

  /** Appending a digit moves one level down. */
  lemma ValuePush(a: seq<IVec2>, d: IVec2)
    ensures Value(a + [d]) == IVec2(Value(a).x * SUBBLOCK_COUNT + d.x, Value(a).y * SUBBLOCK_COUNT + d.y)
  {
    assert (a + [d])[..|a|] == a;
  }

  /** The last digit and the rest of a number are determined by it. */
  lemma DigitSplitUnique(u1: int, d1: int, u2: int, d2: int)
    requires 0 <= d1 < SUBBLOCK_COUNT && 0 <= d2 < SUBBLOCK_COUNT
    requires u1 * SUBBLOCK_COUNT + d1 == u2 * SUBBLOCK_COUNT + d2
    ensures u1 == u2 && d1 == d2
  {
    assert (u1 - u2) * SUBBLOCK_COUNT == d2 - d1;
  }

  /** Canonical addresses of one depth are equal when their values are. */
  lemma {:induction false} DigitsUnique(a: seq<IVec2>, b: seq<IVec2>)
    requires Canonical(a) && Canonical(b) && |a| == |b|
    requires Value(a) == Value(b)
    ensures a == b
  {
    if a != [] {
      var n := |a| - 1;
      var ua, ub := Value(a[..n]), Value(b[..n]);
      DigitSplitUnique(ua.x, a[n].x, ub.x, b[n].x);
      DigitSplitUnique(ua.y, a[n].y, ub.y, b[n].y);
      DigitsUnique(a[..n], b[..n]);
      assert a == a[..n] + [a[n]];
      assert b == b[..n] + [b[n]];
    }
  }

  /** Offset adds the delta to the leaf's cell modulo the number of cells at
      its depth: wrapX and wrapY count how many times the carry ran past the
      coarsest digit. */
  lemma {:induction false} OffsetValue(a: seq<IVec2>, dx: int, dy: int) returns (wrapX: int, wrapY: int)
    ensures Value(Offset(a, dx, dy)).x == Value(a).x + dx - wrapX * Span(|a|)
    ensures Value(Offset(a, dx, dy)).y == Value(a).y + dy - wrapY * Span(|a|)
  {
    if a == [] {
      wrapX, wrapY := dx, dy;
    } else if dx == 0 && dy == 0 {
      wrapX, wrapY := 0, 0;
    } else {
      var init, last := a[..|a| - 1], a[|a| - 1];
      assert a == init + [last];
      wrapX, wrapY := OffsetValue(init, (last.x + dx) / SUBBLOCK_COUNT, (last.y + dy) / SUBBLOCK_COUNT);
      OffsetValueStep(init, last, dx, dy, wrapX, wrapY);
    }
  }

  /** OffsetValue for an address with finest digit `last`, given
      OffsetValue for its coarser digits `init` and the carry out of `last`. */
  lemma OffsetValueStep(init: seq<IVec2>, last: IVec2, dx: int, dy: int, wrapX: int, wrapY: int)
    requires !(dx == 0 && dy == 0)
    requires Value(Offset(init, (last.x + dx) / SUBBLOCK_COUNT, (last.y + dy) / SUBBLOCK_COUNT)).x
          == Value(init).x + (last.x + dx) / SUBBLOCK_COUNT - wrapX * Span(|init|)
    requires Value(Offset(init, (last.x + dx) / SUBBLOCK_COUNT, (last.y + dy) / SUBBLOCK_COUNT)).y
          == Value(init).y + (last.y + dy) / SUBBLOCK_COUNT - wrapY * Span(|init|)
    ensures Value(Offset(init + [last], dx, dy)).x == Value(init + [last]).x + dx - wrapX * Span(|init| + 1)
    ensures Value(Offset(init + [last], dx, dy)).y == Value(init + [last]).y + dy - wrapY * Span(|init| + 1)
  {
    var sx, sy := last.x + dx, last.y + dy;
    var moved := Offset(init, sx / SUBBLOCK_COUNT, sy / SUBBLOCK_COUNT);
    var digit := IVec2(sx % SUBBLOCK_COUNT, sy % SUBBLOCK_COUNT);
    var r := Offset(init + [last], dx, dy);
    assert r == moved + [digit] by { OffsetPush(init, last, dx, dy); }
    var vr, vm, va, vi := Value(r), Value(moved), Value(init + [last]), Value(init);
    assert vr == IVec2(vm.x * SUBBLOCK_COUNT + digit.x, vm.y * SUBBLOCK_COUNT + digit.y) by { ValuePush(moved, digit); }
    assert va == IVec2(vi.x * SUBBLOCK_COUNT + last.x, vi.y * SUBBLOCK_COUNT + last.y) by { ValuePush(init, last); }
    var span := Span(|init|);
    CarryStep(vi.x, last.x, dx, wrapX * span, vm.x, vr.x, va.x);
    CarryStep(vi.y, last.y, dy, wrapY * span, vm.y, vr.y, va.y);
    SpanScale(wrapX, |init|);
    SpanScale(wrapY, |init|);
  }

  /** The definition of Offset, one level: the finest digit takes the
      delta and the coarser digits take the quotient. */
  lemma OffsetPush(init: seq<IVec2>, last: IVec2, dx: int, dy: int)
    requires !(dx == 0 && dy == 0)
    ensures Offset(init + [last], dx, dy)
         == Offset(init, (last.x + dx) / SUBBLOCK_COUNT, (last.y + dy) / SUBBLOCK_COUNT)
            + [IVec2((last.x + dx) % SUBBLOCK_COUNT, (last.y + dy) % SUBBLOCK_COUNT)]
  {
    assert (init + [last])[..|init|] == init;
  }

  /** One level of the carry, on one axis: the finest digit d of a value
      va = u * SUBBLOCK_COUNT + d takes the delta; the coarser part u takes
      the quotient and becomes vm, less `wrapped` cells lost past the
      coarsest digit; the result vr is vm followed by the remainder. Then vr
      is va moved by the delta, less SUBBLOCK_COUNT times `wrapped`. */
  lemma CarryStep(u: int, d: int, delta: int, wrapped: int, vm: int, vr: int, va: int)
    requires vm == u + (d + delta) / SUBBLOCK_COUNT - wrapped
    requires vr == vm * SUBBLOCK_COUNT + (d + delta) % SUBBLOCK_COUNT
    requires va == u * SUBBLOCK_COUNT + d
    ensures vr == va + delta - wrapped * SUBBLOCK_COUNT
  {
  }

  /** w blocks of depth n are w * SUBBLOCK_COUNT blocks of depth n + 1. */
  lemma SpanScale(w: int, n: nat)
    ensures w * Span(n + 1) == (w * Span(n)) * SUBBLOCK_COUNT
  {
    var s := Span(n);
    assert Span(n + 1) == SUBBLOCK_COUNT * s;
    assert w * (SUBBLOCK_COUNT * s) == (w * s) * SUBBLOCK_COUNT;
  }

  /** Offsetting by a delta and then by its negation restores a canonical
      address. */
  lemma OffsetRoundTrip(a: seq<IVec2>, b: seq<IVec2>, dx: int, dy: int)
    requires Canonical(a) && b == Offset(a, dx, dy)
    ensures Offset(b, -dx, -dy) == a
  {
    var span := Span(|a|);
    var w1x, w1y := OffsetValue(a, dx, dy);
    var w2x, w2y := OffsetValue(b, -dx, -dy);
    var va, vb, vc := Value(a), Value(b), Value(Offset(b, -dx, -dy));
    assert vc.x == va.x && vc.y == va.y by {
      ValueBound(a);
      ValueBound(Offset(b, -dx, -dy));
      WrapsCancel(va.x, vb.x, vc.x, dx, w1x, w2x, span);
      WrapsCancel(va.y, vb.y, vc.y, dy, w1y, w2y, span);
    }
    DigitsUnique(Offset(b, -dx, -dy), a);
  }

  /** Moving a cell of [0, span) by d and back by d, each time less whole
      wraps round span, lands in [0, span) only at the starting cell. */
  lemma WrapsCancel(va: int, vb: int, vc: int, d: int, w1: int, w2: int, span: int)
    requires span > 0 && 0 <= va < span && 0 <= vc < span
    requires vb == va + d - w1 * span
    requires vc == vb - d - w2 * span
    ensures vc == va
  {
    assert va - vc == (w1 + w2) * span;
    MulBound(w1 + w2, span);
  }

  /** A non-zero multiple of a positive number is at least that far from 0. */
  lemma MulBound(w: int, span: int)
    requires span > 0
    ensures w >= 1 ==> w * span >= span
    ensures w <= -1 ==> w * span <= -span
  {
  }
}
