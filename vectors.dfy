/** The two small vector types the navigation code works with: an integer
    pair for block coordinates and a real pair for a position inside a block
    (the source's `f32` components are modelled as exact reals). */
module Vectors {

  /** An integer 2-D vector, a sub-block coordinate or an offset between blocks. */
  datatype IVec2 = IVec2(x: int, y: int) {

    function Plus(o: IVec2): IVec2 {
      IVec2(x + o.x, y + o.y)
    }

    function Neg(): IVec2 {
      IVec2(-x, -y)
    }
  }

  const ZERO: IVec2 := IVec2(0, 0)

  /** A continuous 2-D vector. */
  datatype Vec2 = Vec2(x: real, y: real)
}
