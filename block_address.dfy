/** The parent/child block address: a path into an unbounded grid in which
    every block has SIZE x SIZE sub-blocks with coordinates in
    [-HALF_SIZE, HALF_SIZE]. An address first climbs `parent` levels above the
    root block, whose coordinates in its own parent are (0, 0), and then
    descends through the coordinates in `child`.

    An address names a block by its level relative to the root
    (|child| - parent) and by its integer cell at that level: the value of
    `child` read as a balanced radix-SIZE number (the ancestors above the root
    all sit at cell 0). Every operation is specified by what it does to that
    pair, and canonical addresses are shown to be determined by it. */
module Blocks {
  import opened Vectors
  import opened RustInt

  const HALF_SIZE: int := 5
  /** HALF_SIZE * 2 + 1, the number of sub-blocks along each axis. */
  const SIZE: int := 11

  predicate InRange(v: int) {
    -HALF_SIZE <= v <= HALF_SIZE
  }

  predicate IsSubBlock(c: IVec2) {
    InRange(c.x) && InRange(c.y)
  }

  predicate AllSubBlocks(child: seq<IVec2>) {
    forall i :: 0 <= i < |child| ==> IsSubBlock(child[i])
  }

  /** Canonical form: every child coordinate is a sub-block coordinate, and an
      address never climbs above the root only to come straight back down
      through cell (0, 0). */
  predicate IsCanonical(parent: nat, child: seq<IVec2>) {
    AllSubBlocks(child) && !(parent > 0 && |child| > 0 && child[0] == ZERO)
  }

  /** The cell that the path `child` reaches, counted in blocks of its own
      level, the first coordinate being the most significant. */
  function Cell(child: seq<IVec2>): IVec2 {
    if child == [] then ZERO
    else
      var up := Cell(child[..|child| - 1]);
      var last := child[|child| - 1];
      IVec2(up.x * SIZE + last.x, up.y * SIZE + last.y)
  }

  /** The width, in blocks, of a block n levels up. */
  function BlockWidth(n: nat): nat {
    if n == 0 then 1 else SIZE * BlockWidth(n - 1)
  }

  /** Puts `val` into [-HALF_SIZE, HALF_SIZE] and returns the offset that has
      to be carried into the parent's coordinates. The body is the source's
      double remainder, with Rust's truncating `%` and `/`. */
  method PutInRange(val: int) returns (newVal: int, carry: int)
    ensures InRange(newVal)
    ensures val == newVal + carry * SIZE
    ensures SIZE * Abs(carry) <= Abs(val) + HALF_SIZE
    ensures InRange(val) ==> newVal == val && carry == 0
  {
    var inner := Rem(val + HALF_SIZE, SIZE);
    var outer := Rem(inner + SIZE, SIZE);
    newVal := outer - HALF_SIZE;
    assert val + HALF_SIZE == Quot(val + HALF_SIZE, SIZE) * SIZE + inner;
    assert inner + SIZE == Quot(inner + SIZE, SIZE) * SIZE + outer;
    var d := val - newVal;
    assert d == (Quot(val + HALF_SIZE, SIZE) + Quot(inner + SIZE, SIZE) - 1) * SIZE;
    carry := Quot(d, SIZE);
    assert d == carry * SIZE + Rem(d, SIZE);
  }

  /** (parent, child) is (p0, c0) with the sub-block coordinate c attached:
      c is appended, except that stepping from above the root back down
      through (0, 0) climbs one level less instead. */
  predicate Attached(p0: nat, c0: seq<IVec2>, c: IVec2, parent: nat, child: seq<IVec2>) {
    if p0 > 0 && c0 == [] && c == ZERO then parent == p0 - 1 && child == []
    else parent == p0 && child == c0 + [c]
  }

  class BlockAddress {
    var parent: nat
    var child: seq<IVec2>

    /** The root block. */
    constructor Root()
      ensures parent == 0 && child == []
    {
      parent := 0;
      child := [];
    }

    /** An address given field by field. */
    constructor (parent: nat, child: seq<IVec2>)
      ensures this.parent == parent && this.child == child
    {
      this.parent := parent;
      this.child := child;
    }

    /** The level of the named block, the root's level being 0. */
    function Level(): int
      reads this
    {
      |child| - parent
    }

    /** The cell of the named block among the blocks of its level. */
    function CellOf(): IVec2
      reads this
    {
      Cell(child)
    }

    predicate Canonical()
      reads this
    {
      IsCanonical(parent, child)
    }

    /** Changes the address to its parent block and returns the coordinates
        of the previous block inside that parent. */
    method ToParent() returns (coord: IVec2)
      modifies this
      ensures old(child) == [] ==> parent == old(parent) + 1 && child == [] && coord == ZERO
      ensures old(child) != [] ==>
        parent == old(parent) && child == old(child)[..|old(child)| - 1] &&
        coord == old(child)[|old(child)| - 1]
      ensures Level() == old(Level()) - 1
      ensures old(CellOf()) == IVec2(CellOf().x * SIZE + coord.x, CellOf().y * SIZE + coord.y)
      ensures old(Canonical()) ==> Canonical()
    {
      if child == [] {
        parent := parent + 1;
        coord := ZERO;
      } else {
        coord := child[|child| - 1];
        child := child[..|child| - 1];
      }
    }

    /** Changes the address to the child with coordinates `coord`; a
        coordinate outside [-HALF_SIZE, HALF_SIZE] reaches a child of the
        corresponding sibling. */
    method ToChild(coord: IVec2)
      modifies this
      decreases |child|, Abs(coord.x) + Abs(coord.y) + 1
      ensures Level() == old(Level()) + 1
      ensures CellOf() == IVec2(old(CellOf()).x * SIZE + coord.x, old(CellOf()).y * SIZE + coord.y)
      ensures old(Canonical()) ==> Canonical()
      ensures IsSubBlock(coord) ==> Attached(old(parent), old(child), coord, parent, child)
    {
      var x, carryX := PutInRange(coord.x);
      var y, carryY := PutInRange(coord.y);
      ghost var start := CellOf();
      ToSibling(IVec2(carryX, carryY));
      CarryInto(start.x, carryX, x, coord.x);
      CarryInto(start.y, carryY, y, coord.y);
      Attach(IVec2(x, y));
    }

    /** The last step of `to_child`: attaches the sub-block coordinate `c`. */
    method Attach(c: IVec2)
      modifies this
      ensures Attached(old(parent), old(child), c, parent, child)
      ensures Level() == old(Level()) + 1
      ensures CellOf() == IVec2(old(CellOf()).x * SIZE + c.x, old(CellOf()).y * SIZE + c.y)
      ensures old(Canonical()) && IsSubBlock(c) ==> Canonical()
    {
      if parent > 0 && |child| == 0 && c == ZERO {
        parent := parent - 1;
      } else {
        CellPush(child, c);
        child := child + [c];
      }
    }

    /** Changes the address to the block `offset` cells away on the same
        level. */
    method ToSibling(offset: IVec2)
      modifies this
      decreases |child|, 3 * (Abs(offset.x) + Abs(offset.y))
      ensures Level() == old(Level())
      ensures CellOf() == old(CellOf()).Plus(offset)
      ensures old(Canonical()) ==> Canonical()
      ensures offset == ZERO ==> parent == old(parent) && child == old(child)
    {
      if offset != ZERO {
        var coord := ToParent();
        coord := coord.Plus(offset);
        ToChild(coord);
      }
    }
  }

  /** On a canonical address, going to the parent and back to the child one
      came from restores the address. */
  method ParentChildRoundTrip(a: BlockAddress)
    requires a.Canonical()
    modifies a
    ensures a.parent == old(a.parent) && a.child == old(a.child)
  {
    var coord := a.ToParent();
    a.ToChild(coord);
    Unique(a.parent, a.child, old(a.parent), old(a.child));
  }

  /** On a canonical address, a sibling step followed by the opposite step
      restores the address. */
  method SiblingRoundTrip(a: BlockAddress, offset: IVec2)
    requires a.Canonical()
    modifies a
    ensures a.parent == old(a.parent) && a.child == old(a.child)
  {
    a.ToSibling(offset);
    a.ToSibling(offset.Neg());
    Unique(a.parent, a.child, old(a.parent), old(a.child));
  }

  /** Two sibling steps from a canonical address reach the same address as
      one step by their sum. */
  method SiblingStepsCompose(a: BlockAddress, b: BlockAddress, first: IVec2, second: IVec2)
    requires a != b && a.Canonical() && a.parent == b.parent && a.child == b.child
    modifies a, b
    ensures a.parent == b.parent && a.child == b.child
  {
    a.ToSibling(first);
    a.ToSibling(second);
    b.ToSibling(first.Plus(second));
    Unique(a.parent, a.child, b.parent, b.child);
  }

  /** Appending a coordinate to a path moves one level down. */
  lemma CellPush(child: seq<IVec2>, c: IVec2)
    ensures Cell(child + [c]) == IVec2(Cell(child).x * SIZE + c.x, Cell(child).y * SIZE + c.y)
  {
    assert (child + [c])[..|child|] == child;
  }

  /** Moving `carry` cells on the parent's level and then taking child `v`
      reaches the same cell as taking child `v + carry * SIZE` directly. */
  lemma CarryInto(u: int, carry: int, v: int, w: int)
    requires w == v + carry * SIZE
    ensures (u + carry) * SIZE + v == u * SIZE + w
  {
  }

  lemma {:induction false} BlockWidthPositive(n: nat)
    ensures BlockWidth(n) >= 1
  {
    if n > 0 {
      BlockWidthPositive(n - 1);
    }
  }

  lemma {:induction false} BlockWidthMonotone(m: nat, n: nat)
    requires m <= n
    ensures BlockWidth(m) <= BlockWidth(n)
  {
    if m < n {
      BlockWidthMonotone(m, n - 1);
      BlockWidthPositive(n - 1);
    }
  }

  /** A path of k sub-block coordinates stays within the k-level block
      centred on cell 0: at most (BlockWidth(k) - 1) / 2 cells away on each axis. */
  lemma {:induction false} CellBound(child: seq<IVec2>)
    requires AllSubBlocks(child)
    ensures 2 * Abs(Cell(child).x) + 1 <= BlockWidth(|child|)
    ensures 2 * Abs(Cell(child).y) + 1 <= BlockWidth(|child|)
  {
    if child != [] {
      CellBound(child[..|child| - 1]);
    }
  }

  /** A path whose first coordinate is non-zero on an axis ends more than
      (BlockWidth(k - 1) - 1) / 2 cells away from cell 0 on that axis. */
  lemma {:induction false} LeadingCellBound(child: seq<IVec2>)
    requires AllSubBlocks(child) && |child| > 0
    ensures child[0].x != 0 ==> 2 * Abs(Cell(child).x) >= BlockWidth(|child| - 1) + 1
    ensures child[0].y != 0 ==> 2 * Abs(Cell(child).y) >= BlockWidth(|child| - 1) + 1
  {
    if |child| > 1 {
      var init := child[..|child| - 1];
      assert init[0] == child[0];
      LeadingCellBound(init);
    }
  }

  /** Balanced radix-SIZE digits are unique for a given length. */
  lemma {:induction false} SameLengthPathsUnique(c1: seq<IVec2>, c2: seq<IVec2>)
    requires AllSubBlocks(c1) && AllSubBlocks(c2) && |c1| == |c2|
    requires Cell(c1) == Cell(c2)
    ensures c1 == c2
  {
    if c1 != [] {
      var n := |c1| - 1;
      var u1, u2 := Cell(c1[..n]), Cell(c2[..n]);
      BalancedSplitUnique(u1.x, c1[n].x, u2.x, c2[n].x);
      BalancedSplitUnique(u1.y, c1[n].y, u2.y, c2[n].y);
      SameLengthPathsUnique(c1[..n], c2[..n]);
      assert c1 == c1[..n] + [c1[n]];
      assert c2 == c2[..n] + [c2[n]];
    }
  }

  /** The last balanced digit and the rest of a number are determined by it. */
  lemma BalancedSplitUnique(u1: int, d1: int, u2: int, d2: int)
    requires InRange(d1) && InRange(d2)
    requires u1 * SIZE + d1 == u2 * SIZE + d2
    ensures u1 == u2 && d1 == d2
  {
    assert (u1 - u2) * SIZE == d2 - d1;
  }

  /** Addresses are unique: two canonical addresses that name the same level
      and the same cell are the same address. */
  lemma Unique(p1: nat, c1: seq<IVec2>, p2: nat, c2: seq<IVec2>)
    requires IsCanonical(p1, c1) && IsCanonical(p2, c2)
    requires |c1| - p1 == |c2| - p2 && Cell(c1) == Cell(c2)
    ensures p1 == p2 && c1 == c2
  {
    if |c1| < |c2| {
      LongerIsFarther(p1, c1, p2, c2);
    } else if |c2| < |c1| {
      LongerIsFarther(p2, c2, p1, c1);
    } else {
      SameLengthPathsUnique(c1, c2);
    }
  }

  /** Of two canonical addresses on one level, the one with the longer path
      names a cell that the shorter path cannot reach. */
  lemma LongerIsFarther(p1: nat, c1: seq<IVec2>, p2: nat, c2: seq<IVec2>)
    requires IsCanonical(p1, c1) && IsCanonical(p2, c2)
    requires |c1| - p1 == |c2| - p2 && |c1| < |c2|
    ensures Cell(c1) != Cell(c2)
  {
    CellBound(c1);
    LeadingCellBound(c2);
    BlockWidthMonotone(|c1|, |c2| - 1);
  }
}
