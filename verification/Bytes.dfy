/** Bytes, fixed-width little-endian numbers and unsigned wrap-around. */
module Bytes {

  type byte = b: int | 0 <= b < 256

  datatype Option<+T> = None | Some(value: T)

  const TWO_32: nat := 0x1_0000_0000
  const TWO_63: nat := 0x8000_0000_0000_0000
  const TWO_64: nat := 0x1_0000_0000_0000_0000

  /** The value a `uint32_t` holds after being assigned `n`. */
  function U32(n: int): (r: nat)
    ensures r < TWO_32
    ensures 0 <= n < TWO_32 ==> r == n
  {
    n % TWO_32
  }

  function Pow256(w: nat): (p: nat)
    ensures p > 0
  {
    if w == 0 then 1 else 256 * Pow256(w - 1)
  }

  /** The `w` low-order bytes of `n`, least significant first. */
  function LE(n: nat, w: nat): (s: seq<byte>)
    ensures |s| == w
  {
    if w == 0 then [] else [n % 256] + LE(n / 256, w - 1)
  }

  function FromLE(s: seq<byte>): nat {
    if s == [] then 0 else s[0] + 256 * FromLE(s[1..])
  }

  lemma {:induction false} LERoundTrip(n: nat, w: nat)
    requires n < Pow256(w)
    ensures FromLE(LE(n, w)) == n
  {
    if w > 0 {
      LERoundTrip(n / 256, w - 1);
      assert LE(n, w)[1..] == LE(n / 256, w - 1);
    }
  }

  lemma LENext(n: nat, w: nat)
    requires w > 0
    ensures LE(n, w) == [n % 256] + LE(n / 256, w - 1)
  {
  }

  lemma Quarters(n: nat)
    ensures n / 256 / 256 == n / 0x1_0000 && n / 0x1_0000 / 256 == n / 0x100_0000 && n / 0x100_0000 / 256 == n / 0x1_0000_0000
  {
  }

  /** Four bytes, the low-order one first, and the rest. */
  lemma LEFirst(n: nat, w: nat)
    requires w >= 4
    ensures LE(n, w) == [n % 256, n / 0x100 % 256, n / 0x1_0000 % 256, n / 0x100_0000 % 256] + LE(n / 0x1_0000_0000, w - 4)
  {
    hide LE;
    Quarters(n);
    LENext(n, w);
    LENext(n / 0x100, w - 1);
    LENext(n / 0x1_0000, w - 2);
    LENext(n / 0x100_0000, w - 3);
  }

  /** Four bytes, the low-order one first. */
  lemma LEFour(n: nat)
    ensures LE(n, 4) == [n % 256, n / 0x100 % 256, n / 0x1_0000 % 256, n / 0x100_0000 % 256]
  {
    LEFirst(n, 4);
  }

  /** Eight bytes, the low-order one first. */
  lemma LEEight(n: nat)
    ensures LE(n, 8) == LE(n, 4) + LE(n / 0x1_0000_0000, 4)
  {
    hide LE;
    LEFirst(n, 8);
    LEFour(n);
  }

  lemma {:induction false} FromLEBound(s: seq<byte>)
    ensures FromLE(s) < Pow256(|s|)
  {
    if s != [] { FromLEBound(s[1..]); }
  }

  lemma Pow256Widths()
    ensures Pow256(4) == TWO_32 && Pow256(8) == TWO_64
  {
    assert Pow256(2) == 0x1_0000;
    assert Pow256(4) == 0x1_0000 * Pow256(2);
    assert Pow256(6) == 0x1_0000 * Pow256(4);
    assert Pow256(8) == 0x1_0000 * Pow256(6);
  }

  lemma MulApart(x: int, d: nat)
    requires x != 0 && d > 0
    ensures x * d >= d || x * d <= 0 - d
  {
    if x > 0 { assert (x - 1) * d >= 0; } else { assert (0 - x - 1) * d >= 0; }
  }

  /** Quotient and remainder are determined by the division equation. */
  lemma DivModIs(n: nat, q: int, r: nat, d: nat)
    requires d > 0 && r < d && n == q * d + r
    ensures n / d == q && n % d == r
  {
    var x := n / d - q;
    assert n == (n / d) * d + n % d;
    assert x * d == (n / d) * d - q * d;
    if x != 0 { MulApart(x, d); }
  }
}
