# proc-galaxy block addresses and view position

proc-galaxy lets a camera move through an unbounded 2-D space that can be subdivided without limit. The camera's location is a hierarchical block address, not one large floating-point coordinate. This project models that addressing core in Dafny and proves properties of the model.

It has two parts.

- **The parent/child block address** of `src/block_address.rs` (module `Blocks`).
  - Every block has `SIZE = 11` sub-blocks per axis, with coordinates in `[-HALF_SIZE, HALF_SIZE]` and `HALF_SIZE = 5`.
  - An address climbs `parent` levels above the root block, then descends through the coordinates in `child`.
  - `BlockAddress` is a class whose methods change `parent` and `child` in place, as `to_parent`, `to_child` and `to_sibling` do. `to_child` and `to_sibling` are mutually recursive.
  - `put_in_range` keeps Rust's truncating `%` and `/` (module `RustInt`).
  - Each operation is specified by what it does to two numbers: the named block's level (`|child| - parent`) and its cell. The cell is `child` read as a balanced radix-11 number.
  - The canonical form from the doc comment of `src/block_address.rs` is proved preserved.
  - Canonical addresses are proved unique: the same level and cell means the same address.
- **The bridge between continuous camera input and the discrete address** in `src/main.rs` (module `View`).
  - `ViewPosition` holds a digit-sequence block address, a fractional position inside the leaf block and a fractional zoom level.
  - `offset` pans: it keeps the fractional part of the new position and forwards the integer part to the address.
  - `zoom` runs two loops that pop or push address digits, folding the position into the parent block or unfolding it into the child.
  - The `f32` values are exact reals, so the range assertions in `offset` and `zoom` become proof obligations.
  - `Zoom` is proved against `ZoomSpec`. The new depth is the integer part of the clamped total zoom, the zoom level is its fractional part, and the camera point does not move. Among valid states, `ZoomSpec` is proved to determine the result uniquely (`ZoomDeterministic`), and `Zoom` ensures `Valid()`. Without validity the result is not unique: from `([], (0.5, 0.5), 0.0)` with diff 1.0, both `[(5,5)]` at position (0, 0) and `[(4,4)]` at position (1, 1) meet `ZoomSpec`, and only the first is valid (`ZoomSpecNeedsValid`).
  - The digit-sequence address that main.rs calls (`get_zoom`, `zoom_in`, `zoom_out`, `get_last_block_pos`, `offset`) comes from a different revision of block_address.rs. That revision is not part of this model. Module `DigitAddress` models it as a `seq` of digits in `[0, 10)`, only as far as main.rs and its tests use it. The radix 10 is fixed by the zoom test.
  - Its `offset` is an assumption about the unseen implementation. Each level reduces its digit modulo 10 and carries the quotient into its parent, and a carry out of the coarsest digit is dropped. This agrees with the offset test (src/main.rs:282-317), but the test does not determine it: it only moves one-digit addresses, and none of its steps carries.

The unit tests of both files are restated as methods whose expected values follow from the contracts (modules `BlockAddressTests` and `ViewPositionTests`).

The model follows the code on these points:

- The zoom test (src/main.rs:247-251) starts from the address `[(1,1)]` with position (0.5, 0.5) and zoom level 0.1, not from the root.
- Positions stay strictly below 1. The source's range assertions check `<= 1.0`; over exact reals the model proves `< 1.0`.
- A zoom-in digit is floor(position · 10) with position < 1, so it is always below 10. The digit 10 that `f32` rounding of a position just below 1 could produce is not modelled.

## Model

| member | source | states |
|---|---|---|
| Blocks.PutInRange | src/block_address.rs:76-85 | The new value lies in [-HALF_SIZE, HALF_SIZE]. The old value equals the new value plus carry times SIZE. The carry is at most (abs(value) + HALF_SIZE) / SIZE in magnitude. An in-range value is unchanged, with carry 0. |
| Blocks.BlockAddress.Root | src/block_address.rs:30-33 | ROOT is parent 0 with an empty child path. |
| Blocks.BlockAddress.constructor | src/block_address.rs:97-102 | make_ba of the tests: the address holds exactly the given parent and child path. |
| Blocks.BlockAddress.ToParent | src/block_address.rs:42-50 | A non-empty path pops its last coordinate and returns it, with parent unchanged. An empty path increments parent and returns (0,0). The level drops by one. The old cell is the new cell times SIZE plus the returned coordinate. Canonical form is kept. |
| Blocks.BlockAddress.ToChild | src/block_address.rs:52-65 | The level rises by one and the cell becomes old cell times SIZE plus coord, for any coord (out-of-range ones reach a child of a sibling). Canonical form is kept. An in-range coord is appended, except that from above the root with an empty path, (0,0) decrements parent instead. |
| Blocks.BlockAddress.Attach | src/block_address.rs:60-64 | The final branch of to_child: either decrement parent, or push the coordinate. It states the exact new fields, the level, the cell, and that canonical form is kept for an in-range coordinate. |
| Blocks.BlockAddress.ToSibling | src/block_address.rs:67-74 | The level is unchanged and the cell moves by offset. Canonical form is kept. A zero offset changes nothing. |
| Blocks.CellBound | src/block_address.rs:10-19 | A path of k in-range coordinates reaches a cell at most (SIZE^k - 1)/2 from cell 0 on each axis. |
| Blocks.LeadingCellBound | src/block_address.rs:10-19 | A path whose first coordinate is non-zero on an axis reaches a cell more than (SIZE^(k-1) - 1)/2 from cell 0 on that axis. |
| Blocks.SameLengthPathsUnique | src/block_address.rs:10-19 | Two paths of in-range coordinates with the same length and the same cell are equal. |
| Blocks.LongerIsFarther | src/block_address.rs:10-19 | Two canonical addresses on one level whose paths differ in length name different cells. |
| Blocks.Unique | src/block_address.rs:10-19 | Addresses are unique: two canonical addresses with the same level and cell are equal. |
| Blocks.ParentChildRoundTrip | src/block_address.rs:42-65 | On a canonical address, to_parent followed by to_child with the returned coordinate restores the address. |
| Blocks.SiblingRoundTrip | src/block_address.rs:190-229 | On a canonical address, to_sibling(o) followed by to_sibling(-o) restores the address. |
| Blocks.SiblingStepsCompose | src/block_address.rs:231-247 | From one canonical address, two sibling steps reach the same address as one step by their sum. |
| RustInt.Quot | src/block_address.rs:81-82 | Rust's truncating `/` by a positive divisor: the dividend is quotient times divisor plus Rust's remainder. |
| RustInt.Rem | src/block_address.rs:81-82 | Rust's truncating `%` by a positive divisor: the remainder has the dividend's sign and is smaller than the divisor in magnitude. |
| DigitAddress.GetZoom | src/main.rs:61 | The zoom depth is the number of digits; it is 0 exactly for the root address. |
| DigitAddress.ZoomIn | src/main.rs:83 | Zooming in adds one level, and the new finest digit is the given (x, y). |
| DigitAddress.ZoomOut | src/main.rs:69 | Zooming out removes one level from a non-empty address. |
| DigitAddress.GetLastBlockPos | src/main.rs:68 | The leaf's position in its parent is a digit in [0, 10) when the address is canonical. |
| DigitAddress.ZoomInOut | src/main.rs:68-83 | Zooming out undoes zooming in, and the leaf's position after zoom_in(x, y) is (x, y). |
| DigitAddress.ZoomOutIn | src/main.rs:68-83 | On a non-empty address, zooming out and then in to the old leaf's position restores the address; zooming out keeps canonical digits canonical. |
| DigitAddress.Offset | src/main.rs:57 | The address keeps its depth, and canonical digits stay canonical. |
| DigitAddress.ValueBound | src/main.rs:57 | Canonical digits of depth n name one of the 10^n cells of that depth. |
| DigitAddress.DigitsUnique | src/main.rs:57 | Canonical addresses of one depth with the same cell are equal. |
| DigitAddress.OffsetValue | src/main.rs:57 | The leaf's cell moves by the delta, less a whole number of wraps round the 10^depth cells of its depth (the carry dropped above the coarsest digit). |
| DigitAddress.OffsetRoundTrip | src/main.rs:57 | On canonical digits, offset by a delta and then by its negation restores the address. |
| View.Max | src/main.rs:61 | f32::max on exact reals: the result is one of the two arguments and is at least both. |
| View.ZoomedOut | src/main.rs:68-71 | One zoom-out step removes one level and leaves the zoom level alone. |
| View.Offsetted | src/main.rs:43-58 | The state after offset: both position components lie in [0, 1), the depth and zoom level are unchanged, and a valid state stays valid. |
| View.ViewPosition.constructor | src/main.rs:143-147 | The struct literals of `main` and of the tests (src/main.rs:247-251, 283-287): the object holds exactly the given address, position and zoom level. |
| View.ViewPosition.Offset | src/main.rs:43-58 | The new state is Offsetted(old state, x, y). The new position plus the integer part forwarded to the address equals the old position plus the delta, on each axis. Both components lie in [0, 1). |
| View.OffsettedRoundTrip | src/main.rs:43-58 | From canonical digits and a position in [0, 1), offset by (dx, dy) and then by (-dx, -dy) restores the state exactly. |
| View.OffsetCamera | src/main.rs:43-58 | Offset moves the camera point (leaf cell plus position) by the delta, less whole wraps round the cells of the leaf's depth. |
| View.ViewPosition.Zoom | src/main.rs:60-94 | The new state meets ZoomSpec: the depth is the integer part of max(0, depth + zoom level + diff), the zoom level is its fractional part, and refining from the coarser state to the finer one fixes the camera point. The state stays valid. A clamped total gives depth 0 and zoom level 0. |
| View.ZoomOutUnit | src/main.rs:67-77 | A zoom-out step with a digit in [0, 10) and a position in [0, 1) gives a position in [0, 1). |
| View.ZoomInUnit | src/main.rs:79-92 | A zoom-in step from a position in [0, 1) pushes a digit in [0, 10) and gives a position in [0, 1). |
| View.ZoomOutStep | src/main.rs:67-77 | One loop iteration of zoom-out: if a state refines the current one, it refines the state after the step. |
| View.ZoomInStep | src/main.rs:79-92 | One loop iteration of zoom-in: the step is undone by a zoom-out step, so the new state still refines the outer state. |
| View.ScaledIsSpan | src/main.rs:70-86 | Multiplying a position by 10 once per level, k times, scales it by 10^k: each zoom-in step multiplies by 10 and each zoom-out step divides by 10. |
| View.RefinesPoint | src/main.rs:60-94 | The camera point does not move: a refining state extends the coarse address, and its cell plus position equals the coarse one scaled by 10^(depth difference). |
| View.RefinesUniqueAbove | src/main.rs:67-77 | Zooming out of one state reaches exactly one address and position at each depth. |
| View.RefinesUniqueBelow | src/main.rs:79-92 | Two valid states of one depth that refine the same state are equal in address and position. |
| View.ZoomDeterministic | src/main.rs:60-94 | Two valid results of ZoomSpec for the same start and diff are equal, so zoom has one outcome. |
| View.ZoomSpecNeedsValid | src/main.rs:60-94 | ZoomSpec alone does not fix zoom's result: from the root at (0.5, 0.5) with diff 1, two different states meet it, and only one of them is valid. |
| View.ZoomRoundTrip | src/main.rs:246-269 | From a valid state, zoom(diff) followed by zoom(-diff) restores the state, when the first total zoom was not clamped below 0. |
| ViewPositionTests.ZoomCase | src/main.rs:246-279 | After zoom(diff), the object holds the one valid state that ZoomSpec allows, as each step of the zoom test expects. |
| ViewPositionTests.OffsetCase | src/main.rs:282-317 | After offset(x, y) from a one-digit address, the digit has moved by the integer parts modulo 10 and the position keeps the fractional parts, as each step of the offset test expects. |
| ViewPositionTests.OneDigitOffset | src/main.rs:57 | Offsetting a one-digit address reduces the digit modulo 10 and drops the carry. |
| BlockAddressTests.PutInRangeTable | src/block_address.rs:104-126 | Every row of test_put_in_range: the returned value and carry, derived from PutInRange's range and carry contract. |
| BlockAddressTests.ToParentTable | src/block_address.rs:128-155 | Every row of test_to_parent: the new parent, child path and returned coordinate, derived from ToParent's contract. |
| BlockAddressTests.ChildCase | src/block_address.rs:159-176 | The test helper of test_to_child: ROOT.to_child(coord) reaches the expected canonical address, derived from ToChild's level and cell contract and Unique. |
| BlockAddressTests.ToChildTable | src/block_address.rs:157-188 | Every row of test_to_child, in-range and carrying coordinates on both axes, reaches the expected canonical address. |
| BlockAddressTests.SiblingStep | src/block_address.rs:192-200 | One to_sibling call from a canonical address reaches the expected canonical address, derived from ToSibling's level and cell contract and Unique. |
| BlockAddressTests.SiblingCase | src/block_address.rs:201-221 | The test2 helper of test_to_sibling: start.to_sibling(offset) gives the expected address, and the opposite offset gives start back. |
| BlockAddressTests.SiblingTable | src/block_address.rs:201-228 | The rows of test_to_sibling for one axis direction: offsets 0, 1, HALF_SIZE, HALF_SIZE + 1 and SIZE from ROOT reach the expected addresses and come back. |
| BlockAddressTests.ToSiblingTable | src/block_address.rs:190-229 | test_to_sibling in all six axis and sign directions. |
| BlockAddressTests.StepAwayAndBack | src/block_address.rs:237-241 | Its body asserts that a non-zero sibling step moves a canonical address to a different cell. Its contract states that the opposite step returns the address to the copy it started from. |
| BlockAddressTests.NameStepBack | src/block_address.rs:232-241 | test_name, first half: from two copies of ROOT, a step by (1, 0) and back leaves equal addresses, so their names are equal. |
| BlockAddressTests.NameStepsCompose | src/block_address.rs:243-246 | test_name, second half: two steps by (-1, 0) and one step by (-2, 0) from ROOT reach equal addresses. |
| ViewPositionTests.ZoomScenario | src/main.rs:245-279 | The three steps of the zoom test: zoom(1.1), zoom(-1.1) and zoom(-100.0) reach exactly the expected address, position and zoom level. |
| ViewPositionTests.OffsetScenario | src/main.rs:281-317 | The three steps of the offset test: offset(1.1, 0), offset(0, 1.1) and offset(-2.1, -2.1) reach exactly the expected address, position and zoom level. |

## Left out

- get_name (src/block_address.rs:35-39) is left out. It hashes the address with the standard library's `DefaultHasher` and encodes the digest in base64; both are foreign code. The name test checks that names are equal when addresses are equal, and different after the first step (src/block_address.rs:238). The model states both halves on addresses instead. Equal addresses are reached in `BlockAddressTests.NameStepBack` and `Blocks.SiblingStepsCompose`. The in-body assertion of `BlockAddressTests.StepAwayAndBack` shows that the first step reaches a different cell, hence a different address.
- Rendering is left out: `draw_block`, `lerp_colors` and the `main` loop (src/main.rs:96-237). It is graphics, keyboard input and frame timing.
- `f32` rounding is left out, and so is the approximate `PartialEq` on `ViewPosition` (src/main.rs:32-40). Values are exact reals and equality is exact. The test values (0.15, 0.6 and so on) are therefore met exactly.
- i32 and u32 overflow of coordinates, `parent` and the `as i32` casts in main.rs is left out. Integers are unbounded.
- The digit-sequence address of main.rs is not part of this model. `DigitAddress` gives only the behaviour main.rs and its tests use. `zoom_out` and `get_last_block_pos` require a non-empty address, because `zoom` calls them only at depth greater than zero.
- View.ViewPosition.Zoom: requires `Valid()`: canonical digits, positions in [0, 1) and a zoom level in [0, 1). The source has no precondition, but `Valid()` holds at every call it makes. The start state of `main` is valid (src/main.rs:143-147), `offset` restores the position range (src/main.rs:47-55), and `zoom` restores both ranges (src/main.rs:63-64 and the two loops). Zoom from a state outside `Valid()` is not modelled.
- View.ZoomRoundTrip: holds only when the first zoom is not clamped at total zoom 0, because clamping loses the depth below the root.
- View.OffsettedRoundTrip: needs canonical digits and a position in [0, 1). Otherwise offset normalises the digits it visits, or moves the whole part of the position into the address, and cannot be undone. For example, from position 1.5 `offset(0, 0)` moves 1 into the address, and `offset(-0, -0)` does not take it back.
- Blocks.SiblingStepsCompose: requires two distinct address objects, the original and its copy (the test clones `ROOT`). Two names for one object are not modelled.
- The constants `HALF_SIZE` and `SIZE` (src/block_address.rs:28-29) are written as the literals 5 and 11. The documented relation 11 = HALF_SIZE * 2 + 1 holds, but it is not computed.
