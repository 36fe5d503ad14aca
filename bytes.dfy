/** Fixed-width unsigned integers and their little-endian byte forms
    (Rust's `uN::from_le_bytes` / `uN::to_le_bytes`). */
module Bytes {

  newtype u8 = x: int | 0 <= x < 0x100
  newtype u16 = x: int | 0 <= x < 0x1_0000
  newtype u32 = x: int | 0 <= x < 0x1_0000_0000
  newtype u64 = x: int | 0 <= x < U64Bound

  /** 2^64: lengths and counts below it fit a `u64`. */
  const U64Bound: nat := 0x1_0000_0000_0000_0000

  /** 256^n: one more than the largest value n bytes can hold. */
  function Pow256(n: nat): (p: nat)
    ensures p > 0
  {
    if n == 0 then 1 else 256 * Pow256(n - 1)
  }

  /** The unsigned value of `b` read least significant byte first. */
  function FromLe(b: seq<u8>): (v: nat)
    ensures v < Pow256(|b|)
  {
    if b == [] then 0 else b[0] as nat + 256 * FromLe(b[1..])
  }

  /** The `n` bytes of `v`, least significant first. */
  function ToLe(v: nat, n: nat): (b: seq<u8>)
    requires v < Pow256(n)
    ensures |b| == n
    ensures FromLe(b) == v
  {
    if n == 0 then []
    else
      assert v / 256 < Pow256(n - 1);
      [(v % 256) as u8] + ToLe(v / 256, n - 1)
  }

  /** The other half of the bijection: writing back what was read restores the bytes. */
  lemma {:induction false} ToLeFromLe(b: seq<u8>)
    ensures ToLe(FromLe(b), |b|) == b
  {
    if b != [] {
      ToLeFromLe(b[1..]);
      var v := FromLe(b);
      assert v % 256 == b[0] as nat && v / 256 == FromLe(b[1..]);
    }
  }

  /** Two byte strings of one width with the same value are equal. */
  lemma FromLeInjective(a: seq<u8>, b: seq<u8>)
    requires |a| == |b| && FromLe(a) == FromLe(b)
    ensures a == b
  {
    ToLeFromLe(a);
    ToLeFromLe(b);
  }

  /** Regrouping a concatenation of three byte strings. */
  lemma Reassociate(a: seq<u8>, b: seq<u8>, c: seq<u8>)
    ensures (a + b) + c == a + (b + c)
  {
  }
}
