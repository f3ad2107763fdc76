/** The two kinds of buffer the cylinder generator fills: a growable vector
    (the C++ std::vector it passes by reference and returns by value) and the
    16-bit unsigned index type GLushort that the element buffer holds. */
module GlBuffers {

  /** GLushort: an unsigned 16-bit integer. */
  type UShort = x: int | 0 <= x < 0x1_0000

  /** The largest value of the 32-bit C++ `int` the generator's loop variables use. */
  const IntMax: int := 0x7fff_ffff

  /** The implicit conversion of an `int` argument to a GLushort parameter:
      reduction modulo 2^16, written so that the common in-range case needs no
      modulo. It is the identity exactly on the GLushort range. */
  function ToUShort(x: int): (u: UShort)
    ensures 0 <= x < 0x1_0000 <==> u == x
  {
    if 0 <= x < 0x1_0000 then x else x % 0x1_0000
  }

  /** A std::vector: its elements, in order, and `push_back`. */
  class Vector<T> {
    var items: seq<T>

    constructor ()
      ensures items == []
    {
      items := [];
    }

    method PushBack(x: T)
      modifies this
      ensures items == old(items) + [x]
    {
      items := items + [x];
    }
  }
}
