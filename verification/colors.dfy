/** `Color`: an RGB triple of reals with scaling and addition, and no clamping. */
module Colors {

  datatype Color = Color(r: real, g: real, b: real)

  /** `Color()`: the default constructor builds black. */
  function Black(): Color {
    Color(0.0, 0.0, 0.0)
  }

  /** `c.multiply(scalar)`: every channel scaled by `scalar`. */
  function Scale(c: Color, scalar: real): Color {
    Color(c.r * scalar, c.g * scalar, c.b * scalar)
  }

  /** `c.add(d)`: channel-wise sum. */
  function Add(c: Color, d: Color): Color {
    Color(c.r + d.r, c.g + d.g, c.b + d.b)
  }

  /** Black is the identity of addition, and addition does not depend on operand order. */
  lemma AddLaws(c: Color, d: Color, e: Color)
    ensures Add(c, Black()) == c
    ensures Add(c, d) == Add(d, c)
    ensures Add(Add(c, d), e) == Add(c, Add(d, e))
  {
  }

  /**
   Scaling by one changes nothing, scaling by zero gives black, scalings compose,
   and scaling distributes over addition.
   */
  lemma ScaleLaws(c: Color, d: Color, k: real, m: real)
    ensures Scale(c, 1.0) == c
    ensures Scale(c, 0.0) == Black()
    ensures Scale(Scale(c, k), m) == Scale(c, k * m)
    ensures Scale(Add(c, d), k) == Add(Scale(c, k), Scale(d, k))
  {
  }
}
