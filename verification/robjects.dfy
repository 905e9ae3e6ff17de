/**
  The slice of R's object model (`SEXP`) that the column-scaling kernel
  touches: a type tag, a flat buffer of values and a bag of named
  attributes, one of which (`dim`) turns a vector into a matrix.
 */
module RObjects {

  /** Largest value of a C `int`; R's `dim` entries and the kernel's loop
      counters are C `int`s. */
  const IntMax: int := 0x7fff_ffff

  /** A 32-bit signed C `int`. Arithmetic on it must be proved to stay in range. */
  newtype Int32 = x: int | -0x8000_0000 <= x < 0x8000_0000

  /** The `TYPEOF` tag of an R object. Only `RealSxp` (double) is accepted by
      the kernel; the others stand for every other storage mode. */
  datatype SexpType = RealSxp | IntSxp | LglSxp | OtherSxp

  /** The value of an attribute. `dim` is an integer vector; every other
      attribute (names, dimnames, class, ...) is opaque to the kernel. */
  datatype AttrValue = IntVector(ints: seq<int>) | Opaque(repr: string)

  type Attributes = map<string, AttrValue>

  /** The name R gives to the dimension attribute (`R_DimSymbol`). */
  const DimName: string := "dim"

  /** An R vector. Element values are abstracted as `real`: the kernel only
      ever multiplies them, and the model is about layout and validation,
      not about IEEE-754 rounding. */
  datatype Sexp = Sexp(kind: SexpType, data: seq<real>, attrs: Attributes)

  /** `length(x)` */
  function Length(x: Sexp): nat {
    |x.data|
  }

  /** `!isNull(getAttrib(x, R_DimSymbol))` */
  predicate HasDim(x: Sexp) {
    DimName in x.attrs
  }

  /** What the R runtime guarantees of any object carrying `dim`, narrowed to
      two-dimensional matrices: `dim` is an integer vector of two non-negative
      C `int`s whose product is the length of the data. The product itself
      may exceed a C `int`. Objects without `dim` are unconstrained. */
  predicate ValidObject(x: Sexp) {
    HasDim(x) ==>
      var d := x.attrs[DimName];
      && d.IntVector?
      && |d.ints| == 2
      && 0 <= d.ints[0] <= IntMax
      && 0 <= d.ints[1] <= IntMax
      && d.ints[0] * d.ints[1] == |x.data|
  }

  /** `INTEGER(dim)[0]`, the number of rows. */
  function Rows(x: Sexp): nat
    requires HasDim(x) && ValidObject(x)
  {
    x.attrs[DimName].ints[0]
  }

  /** `INTEGER(dim)[1]`, the number of columns. */
  function Cols(x: Sexp): nat
    requires HasDim(x) && ValidObject(x)
  {
    x.attrs[DimName].ints[1]
  }
}
