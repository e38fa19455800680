/** `src/core/color.rs`: RGB colours and their channel-wise arithmetic. */
module CoreColor {
  import opened CoreUtil

  /** `Color { red, green, blue }`. */
  datatype Color = Color(red: real, green: real, blue: real)

  /** The colour every pixel of a new canvas starts with. */
  function Black(): Color {
    Color(0.0, 0.0, 0.0)
  }

  /** `Add`. */
  function Add(a: Color, b: Color): Color {
    Color(a.red + b.red, a.green + b.green, a.blue + b.blue)
  }

  /** `Sub`. */
  function Sub(a: Color, b: Color): Color {
    Color(a.red - b.red, a.green - b.green, a.blue - b.blue)
  }

  /** `Mul<f64>`. */
  function Scale(c: Color, s: real): Color {
    Color(c.red * s, c.green * s, c.blue * s)
  }

  /** `Mul<Color>`: the channel-wise (Hadamard) product. */
  function Mul(a: Color, b: Color): Color {
    Color(a.red * b.red, a.green * b.green, a.blue * b.blue)
  }

  /** `PartialEq`: every channel approximately equal. */
  predicate Eq(a: Color, b: Color) {
    FloatCmp(a.red, b.red) && FloatCmp(a.green, b.green) && FloatCmp(a.blue, b.blue)
  }

  /** Subtraction undoes addition, and adding black changes nothing. */
  lemma AddSubCancel(a: Color, b: Color)
    ensures Sub(Add(a, b), b) == a
    ensures Add(a, Black()) == a
  {
  }

  lemma AddCommutative(a: Color, b: Color)
    ensures Add(a, b) == Add(b, a)
  {
  }

  lemma MulCommutative(a: Color, b: Color)
    ensures Mul(a, b) == Mul(b, a)
  {
  }

  /** Scaling by `s` is multiplying by the grey `(s, s, s)`, and scaling by zero gives black. */
  lemma ScaleIsMulByGrey(c: Color, s: real)
    ensures Scale(c, s) == Mul(c, Color(s, s, s))
    ensures Scale(c, 0.0) == Black()
  {
  }

  /** Colour equality is reflexive and symmetric, and two colours a whole unit apart are unequal. */
  lemma EqProperties(a: Color, b: Color)
    ensures Eq(a, a)
    ensures Eq(a, b) == Eq(b, a)
    ensures a.red - b.red >= 1.0 ==> !Eq(a, b)
  {
    EpsilonBounds();
  }
}
