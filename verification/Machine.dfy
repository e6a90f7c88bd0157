/** Machine integers. */
module Machine {
  /** The largest value of a 64-bit unsigned word. */
  const USIZE_MAX: nat := 0xFFFF_FFFF_FFFF_FFFF

  function SaturatingAdd(a: nat, b: nat): nat
  {
    if a + b <= USIZE_MAX then a + b else USIZE_MAX
  }

  function SaturatingSub(a: nat, b: nat): nat
  {
    if a >= b then a - b else 0
  }
}
