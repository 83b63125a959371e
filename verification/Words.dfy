// Fixed-width words: the integer widths, sign extensions and truncations of
// src/Include/Common.h, written out over mathematical integers.
module Words {

  const TWO16 := 0x1_0000
  const TWO32 := 0x1_0000_0000
  const TWO48 := 0x1_0000_0000_0000
  const TWO64 := 0x1_0000_0000_0000_0000

  type u8 = x: int | 0 <= x < 0x100
  type u16 = x: int | 0 <= x < 0x1_0000
  type u32 = x: int | 0 <= x < 0x1_0000_0000
  type u64 = x: int | 0 <= x < 0x1_0000_0000_0000_0000

  datatype Option<+T> = None | Some(value: T)

  function Low32(x: int): u32 {
    x % TWO32
  }

  // Writing the low half of a register keeps its high half (`.Word.First = v`).
  function SetLow32(x: u64, v: u32): u64 {
    x - x % TWO32 + v
  }

  // BitSex32Safe / BitSex64 at the sign bit of a field of `m` values.
  function SignExtend(v: int, m: int): int
    requires 0 <= v < m
  {
    if v >= m / 2 then v - m else v
  }

  function Signed32(v: u32): int {
    SignExtend(v, TWO32)
  }

  // A value survives truncation to a field of `m` values followed by sign
  // extension exactly when it is in the signed range of the field.
  lemma SignExtendFits(v: int, m: int)
    requires m > 0 && m % 2 == 0
    ensures SignExtend(v % m, m) == v <==> -m / 2 <= v < m / 2
  {
    var q := v / m;
    assert v == q * m + v % m;
    assert q >= 1 ==> q * m >= m;
    assert q <= -2 ==> q * m <= -2 * m;
  }

  lemma ModUnique(x: int, m: int, k: int, r: int)
    requires m > 0 && 0 <= r < m && x == k * m + r
    ensures x % m == r
  {
    var d := k - x / m;
    assert x == x / m * m + x % m;
    assert d * m == x % m - r;
    if d >= 1 { MulAtLeast(d, m); assert false; }
    if d <= -1 { MulAtLeast(-d, m); assert false; }
  }

  lemma MulAtLeast(d: int, m: int)
    requires d >= 1 && m >= 0
    ensures d * m >= m
  {
  }
}
