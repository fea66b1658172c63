/** Two-dimensional points, vectors and axis-aligned rectangles, with coordinates as reals. */
module Vectors {

  /** A point or a direction; y grows downwards, as on the screen. */
  datatype Vec = Vec(x: real, y: real)

  /** A rectangle given by its top-left corner and its extent. */
  datatype Rect = Rect(left: real, top: real, width: real, height: real)

  function Add(a: Vec, b: Vec): Vec
  {
    Vec(a.x + b.x, a.y + b.y)
  }

  function Sub(a: Vec, b: Vec): Vec
  {
    Vec(a.x - b.x, a.y - b.y)
  }

  function Sq(a: real): real
  {
    a * a
  }

  /** The squared Euclidean length. */
  function SqrLen(v: Vec): real
  {
    Sq(v.x) + Sq(v.y)
  }

  function Abs(r: real): real
  {
    if r < 0.0 then -r else r
  }

  function Min(a: real, b: real): real
  {
    if a <= b then a else b
  }

  function Max(a: real, b: real): real
  {
    if a >= b then a else b
  }
}
