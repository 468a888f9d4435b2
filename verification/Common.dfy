/** Names shared by the whole model. */
module Common {

  datatype Option<+T> = None | Some(value: T)

  /** WDFFILEOBJECT: an opaque handle. */
  type Handle = nat
}

/** The inbound TLB windows: 202 of 2 MiB, the last of them the kernel's, and up
    to eight of 4 GiB. */
module WindowGeometry {

  const KERNEL_WINDOW := 201
  const WINDOWS_2M := 202
  const WINDOWS_4G_MAX := 8
  const WINDOWS_TOTAL := 210

  const SIZE_2M: nat := 0x20_0000
  const SIZE_4G: nat := 0x1_0000_0000
}

/** Powers of two, and quotient and remainder by uniqueness. */
module Arithmetic {

  function Pow2(n: nat): (r: nat)
    ensures r > 0
  {
    if n == 0 then 1 else 2 * Pow2(n - 1)
  }

  lemma MulGap(m: nat, a: int, b: int)
    requires a < b
    ensures m * a + m <= m * b
  {
    var d := b - a - 1;
    assert m * b == m * a + m + m * d;
    assert m * d >= 0;
  }

  lemma DivModUnique(v: int, m: nat, q: int, r: nat)
    requires m > 0 && v == m * q + r && r < m
    ensures v / m == q && v % m == r
  {
    var q' := v / m;
    assert v == m * q' + v % m;
    if q' < q {
      MulGap(m, q', q);
    } else if q < q' {
      MulGap(m, q, q');
    }
  }
}
