/** The unit tests of main.rs as proof obligations: each expected state
    follows from the contracts of `Zoom` and `Offset` and the lemmas about
    them. */
module ViewPositionTests {
  import opened Vectors
  import opened DigitAddress
  import opened View

  /** After `zoom(diff)` from `s`, a valid state `expected` that meets
      ZoomSpec is the state reached. */
  method ZoomCase(v: ViewPosition, diff: real, expected: ViewState)
    requires v.Valid() && ValidState(expected)
    requires ZoomSpec(v.State(), diff, expected)
    modifies v
    ensures v.State() == expected
  {
    ghost var s := v.State();
    v.Zoom(diff);
    ZoomDeterministic(s, diff, v.State(), expected);
  }

  method ZoomScenario() {
    var v := new ViewPosition([IVec2(1, 1)], Vec2(0.5, 0.5), 0.1);
    var deep := ViewState([IVec2(1, 1), IVec2(5, 5)], Vec2(0.0, 0.0), 0.2);
    var start := ViewState([IVec2(1, 1)], Vec2(0.5, 0.5), 0.1);
    var top := ViewState([], Vec2(0.15, 0.15), 0.0);

    assert ZoomedOut(deep) == start.(zoomLevel := 0.2);
    ZoomCase(v, 1.1, deep);
    assert v.State() == deep;

    ZoomCase(v, -1.1, start);
    assert v.State() == start;

    assert ZoomedOut(start).block == top.block;
    ZoomCase(v, -100.0, top);
    assert v.block == [] && v.position == Vec2(0.15, 0.15) && v.zoomLevel == 0.0;
  }

  /** After `offset(x, y)` from a one-digit address, whose moved position
      has integer parts fx and fy, the digit has taken those parts modulo
      SUBBLOCK_COUNT and the position keeps the fractions. */
  method OffsetCase(v: ViewPosition, x: real, y: real, fx: int, fy: int)
    requires |v.block| == 1 && IsDigit(v.block[0])
    requires fx == (v.position.x + x).Floor && fy == (v.position.y + y).Floor
    modifies v
    ensures v.block == [IVec2((old(v.block[0]).x + fx) % SUBBLOCK_COUNT, (old(v.block[0]).y + fy) % SUBBLOCK_COUNT)]
    ensures v.position == Vec2(old(v.position.x) + x - fx as real, old(v.position.y) + y - fy as real)
    ensures v.zoomLevel == old(v.zoomLevel)
  {
    ghost var d := v.block[0];
    v.Offset(x, y);
    OffsettedWith(old(v.State()), x, y, fx, fy);
    OneDigitOffset(d, fx, fy);
  }

  /** Offset of a one-digit address: the carry out of the only digit is
      dropped. */
  lemma OneDigitOffset(d: IVec2, dx: int, dy: int)
    requires IsDigit(d)
    ensures DigitAddress.Offset([d], dx, dy) == [IVec2((d.x + dx) % SUBBLOCK_COUNT, (d.y + dy) % SUBBLOCK_COUNT)]
  {
    if !(dx == 0 && dy == 0) {
      assert [d][..0] == [];
    }
  }

  method OffsetScenario() {
    var v := new ViewPosition([IVec2(1, 1)], Vec2(0.5, 0.5), 0.0);
    OffsetCase(v, 1.1, 0.0, 1, 0);
    assert v.block == [IVec2(2, 1)] && v.position == Vec2(0.6, 0.5) && v.zoomLevel == 0.0;
    OffsetCase(v, 0.0, 1.1, 0, 1);
    assert v.block == [IVec2(2, 2)] && v.position == Vec2(0.6, 0.6) && v.zoomLevel == 0.0;
    OffsetCase(v, -2.1, -2.1, -2, -2);
    assert v.block == [IVec2(0, 0)] && v.position == Vec2(0.5, 0.5) && v.zoomLevel == 0.0;
  }
}
