/** The unit-test tables of block_address.rs as proof obligations: each
    expected value follows from the operations' contracts alone. */
module BlockAddressTests {
  import opened Vectors
  import opened Blocks

  method PutInRangeTable() {
    var v, c := PutInRange(0);
    assert v == 0 && c == 0;
    v, c := PutInRange(HALF_SIZE);
    assert v == HALF_SIZE && c == 0;
    v, c := PutInRange(HALF_SIZE + 1);
    assert v == -HALF_SIZE && c == 1;
    v, c := PutInRange(SIZE);
    assert v == 0 && c == 1;
    v, c := PutInRange(SIZE * SIZE + 1);
    assert v == 1 && c == SIZE;
    v, c := PutInRange(-HALF_SIZE);
    assert v == -HALF_SIZE && c == 0;
    v, c := PutInRange(-HALF_SIZE - 1);
    assert v == HALF_SIZE && c == -1;
    v, c := PutInRange(-SIZE);
    assert v == 0 && c == -1;
    v, c := PutInRange(-SIZE * SIZE - 1);
    assert v == -1 && c == -SIZE;
  }

  method ToParentTable() {
    var b := new BlockAddress.Root();
    var coord := b.ToParent();
    assert b.parent == 1 && b.child == [] && coord == ZERO;
    coord := b.ToParent();
    assert b.parent == 2 && b.child == [] && coord == ZERO;

    b := new BlockAddress(0, [IVec2(0, 0)]);
    coord := b.ToParent();
    assert b.parent == 0 && b.child == [] && coord == ZERO;

    b := new BlockAddress(0, [IVec2(HALF_SIZE, HALF_SIZE)]);
    coord := b.ToParent();
    assert b.parent == 0 && b.child == [] && coord == IVec2(HALF_SIZE, HALF_SIZE);

    b := new BlockAddress(2, [IVec2(HALF_SIZE, HALF_SIZE)]);
    coord := b.ToParent();
    assert b.parent == 2 && b.child == [] && coord == IVec2(HALF_SIZE, HALF_SIZE);
  }

  /** ROOT.to_child(coord) reaches the canonical address (parent, child). */
  method ChildCase(coord: IVec2, parent: nat, child: seq<IVec2>)
    requires IsCanonical(parent, child)
    requires |child| - parent == 1 && Cell(child) == coord
  {
    var b := new BlockAddress.Root();
    b.ToChild(coord);
    Unique(b.parent, b.child, parent, child);
    assert b.parent == parent && b.child == child;
  }

  method ToChildTable() {
    ChildCase(IVec2(0, 0), 0, [IVec2(0, 0)]);
    ChildCase(IVec2(HALF_SIZE, 0), 0, [IVec2(HALF_SIZE, 0)]);
    ChildCase(IVec2(0, HALF_SIZE), 0, [IVec2(0, HALF_SIZE)]);
    ChildCase(IVec2(HALF_SIZE + 1, 0), 1, [IVec2(1, 0), IVec2(-HALF_SIZE, 0)]);
    ChildCase(IVec2(0, HALF_SIZE + 1), 1, [IVec2(0, 1), IVec2(0, -HALF_SIZE)]);
    ChildCase(IVec2(SIZE, 0), 1, [IVec2(1, 0), IVec2(0, 0)]);
    ChildCase(IVec2(0, SIZE), 1, [IVec2(0, 1), IVec2(0, 0)]);
    ChildCase(IVec2(SIZE * SIZE, 0), 2, [IVec2(1, 0), IVec2(0, 0), IVec2(0, 0)]);
    ChildCase(IVec2(0, SIZE * SIZE), 2, [IVec2(0, 1), IVec2(0, 0), IVec2(0, 0)]);
  }

  /** The path of digits `v` scaled onto the axis direction (kx, ky). */
  function Along(kx: int, ky: int, v: seq<int>): seq<IVec2> {
    seq(|v|, i requires 0 <= i < |v| => IVec2(kx * v[i], ky * v[i]))
  }

  /** `start.to_sibling(offset)` gives `expected`, and
      `expected.to_sibling(-offset)` gives `start` back. */
  method SiblingCase(start: (nat, seq<IVec2>), offset: IVec2, expected: (nat, seq<IVec2>))
    requires IsCanonical(start.0, start.1) && IsCanonical(expected.0, expected.1)
    requires |start.1| - start.0 == |expected.1| - expected.0
    requires Cell(expected.1) == Cell(start.1).Plus(offset)
  {
    SiblingStep(start.0, start.1, offset, expected.0, expected.1);
    SiblingStep(expected.0, expected.1, offset.Neg(), start.0, start.1);
  }

  /** `(parent, child).to_sibling(offset)` gives `(p, c)`. */
  method SiblingStep(parent: nat, child: seq<IVec2>, offset: IVec2, p: nat, c: seq<IVec2>)
    requires IsCanonical(parent, child) && IsCanonical(p, c)
    requires |child| - parent == |c| - p
    requires Cell(c) == Cell(child).Plus(offset)
  {
    var b := new BlockAddress(parent, child);
    b.ToSibling(offset);
    Unique(b.parent, b.child, p, c);
    assert b.parent == p && b.child == c;
  }

  /** The rows of test_to_sibling for one axis direction (kx, ky). */
  method SiblingTable(kx: int, ky: int)
    requires -1 <= kx <= 1 && -1 <= ky <= 1 && kx != ky
  {
    SiblingZero();
    SiblingOneDigit(kx, ky, 1);
    SiblingOneDigit(kx, ky, HALF_SIZE);
    SiblingTwoDigits(kx, ky, HALF_SIZE + 1, -HALF_SIZE);
    SiblingTwoDigits(kx, ky, SIZE, 0);
  }

  /** From the root, a zero offset. */
  method SiblingZero() {
    var root: seq<IVec2> := [];
    assert Cell(root) == ZERO;
    SiblingCase((0, root), ZERO, (0, root));
  }

  /** From the root, an offset of one digit `d` along (kx, ky). */
  method SiblingOneDigit(kx: int, ky: int, d: int)
    requires -1 <= kx <= 1 && -1 <= ky <= 1 && kx != ky && 0 < d <= HALF_SIZE
  {
    var child := Along(kx, ky, [d]);
    var root: seq<IVec2> := [];
    assert child == [IVec2(kx * d, ky * d)];
    assert child[..0] == [];
    SiblingCase((0, root), IVec2(kx * d, ky * d), (1, child));
  }

  /** From the root, an offset `n` along (kx, ky) whose digits are [1, low]. */
  method SiblingTwoDigits(kx: int, ky: int, n: int, low: int)
    requires -1 <= kx <= 1 && -1 <= ky <= 1 && kx != ky
    requires InRange(low) && n == SIZE + low
  {
    var child := Along(kx, ky, [1, low]);
    var root: seq<IVec2> := [];
    assert child == [IVec2(kx, ky), IVec2(kx * low, ky * low)];
    assert child[..1] == [IVec2(kx, ky)];
    assert child[..1][..0] == [];
    assert kx * n == kx * SIZE + kx * low;
    assert ky * n == ky * SIZE + ky * low;
    SiblingCase((0, root), IVec2(kx * n, ky * n), (2, child));
  }

  method ToSiblingTable() {
    SiblingTable(-1, 0);
    SiblingTable(-1, 1);
    SiblingTable(0, -1);
    SiblingTable(0, 1);
    SiblingTable(1, -1);
    SiblingTable(1, 0);
  }

  /** test_name, first half: a step by (1, 0) leaves the root's address
      and the step back returns to it (equal addresses have equal names). */
  method NameStepBack() {
    var b0 := new BlockAddress.Root();
    var b1 := new BlockAddress.Root();
    StepAwayAndBack(b0, b1, IVec2(1, 0));
    assert b0.parent == b1.parent && b0.child == b1.child;
  }

  /** A non-zero sibling step moves `a` off the address it shares with `b`
      (asserted in the body), and the opposite step brings it back. Apart
      from comparing with the copy `b`, this is SiblingRoundTrip; it is
      stated over abstract addresses so that NameStepBack does not reason
      about the steps on the concrete root addresses, whose vacuity checks
      are far more costly for the verifier. */
  method StepAwayAndBack(a: BlockAddress, b: BlockAddress, offset: IVec2)
    requires a != b && a.Canonical() && a.parent == b.parent && a.child == b.child
    requires offset != ZERO
    modifies a
    ensures a.parent == b.parent && a.child == b.child
  {
    a.ToSibling(offset);
    assert a.CellOf() != b.CellOf();
    a.ToSibling(offset.Neg());
    Unique(a.parent, a.child, b.parent, b.child);
  }

  /** test_name, second half: two steps by (-1, 0) reach the same address as
      one step by (-2, 0). */
  method NameStepsCompose() {
    var b0 := new BlockAddress.Root();
    var b1 := new BlockAddress.Root();
    SiblingStepsCompose(b0, b1, IVec2(-1, 0), IVec2(-1, 0));
    assert b0.parent == b1.parent && b0.child == b1.child;
  }
}
