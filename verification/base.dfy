/** Shared vocabulary of the engine model: optional values, raw pointers and
    the small value records (UV rectangles, colours) that several components
    copy between each other. */
module Base {

  /** A value that may be absent, used where the engine passes a nullable pointer. */
  datatype Option<+T> = None | Some(value: T)

  /** A raw pointer or GPU handle. The engine compares pointers only for
      equality, so a natural number with 0 standing for null is enough. */
  type Ptr = nat

  const NULL: Ptr := 0

  /** The width of the engine's `uint`: counters and ids wrap modulo this. */
  const UINT_MODULUS: nat := 0x1_0000_0000

  /** A normalised texture rectangle {left, top, right, bottom}. */
  datatype Uv = Uv(left: real, top: real, right: real, bottom: real)

  /** The full texture, the default rectangle of a fresh sprite. */
  const FULL_UV: Uv := Uv(0.0, 0.0, 1.0, 1.0)

  /** An RGBA colour; the older sprite layout uses only r, g, b. */
  datatype Color = Color(r: real, g: real, b: real, a: real)

  /** Exchanges the horizontal bounds of a rectangle. */
  function SwapLeftRight(u: Uv): (r: Uv)
    ensures r.left == u.right && r.right == u.left
    ensures r.top == u.top && r.bottom == u.bottom
  {
    u.(left := u.right, right := u.left)
  }

  /** Exchanges the vertical bounds of a rectangle. */
  function SwapTopBottom(u: Uv): (r: Uv)
    ensures r.top == u.bottom && r.bottom == u.top
    ensures r.left == u.left && r.right == u.right
  {
    u.(top := u.bottom, bottom := u.top)
  }
}
