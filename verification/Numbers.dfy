/** Integer widths, and numbers as a JavaScript caller passes them. */
module Numbers {
  import opened Wrappers

  const U16_MAX: nat := 0xFFFF
  const U32_MAX: nat := 0xFFFF_FFFF
  const U64_MAX: nat := 0xFFFF_FFFF_FFFF_FFFF

  /** A number the caller passed: an integer, or anything the integer checks throw on. */
  datatype Numeric = Integer(n: int) | NotInteger

  /** asU16, asU32 and asU64. */
  function InRange(v: Numeric, max: nat): (r: Option<nat>)
    ensures r.Some? <==> v.Integer? && 0 <= v.n <= max
    ensures r.Some? ==> r.value == v.n
  {
    if v.Integer? && 0 <= v.n <= max then Some(v.n) else None
  }
}
