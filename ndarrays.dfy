/** numpy / torch arrays: a shape and the elements in row-major order. Floating-point
    values are modelled as reals. */
module NdArrays {

  /** Number of elements of an array of the given shape (1 for a scalar). */
  function Product(shape: seq<nat>): nat {
    if shape == [] then 1 else shape[0] * Product(shape[1..])
  }

  datatype RawArray = RawArray(shape: seq<nat>, data: seq<real>)

  /** A well-formed array: as many elements as its shape says. */
  type NdArray = a: RawArray | |a.data| == Product(a.shape) witness RawArray([], [0.0])

  /** `a.squeeze(0)` on an array of shape (1, n): the same elements, shape (n,). */
  function SqueezeLeading(a: NdArray): (r: NdArray)
    requires |a.shape| == 2 && a.shape[0] == 1
    ensures r.shape == [a.shape[1]] && r.data == a.data
  {
    assert a.shape[1..] == [a.shape[1]];
    assert Product([a.shape[1]]) == a.shape[1] * Product([]);
    RawArray([a.shape[1]], a.data)
  }
}
