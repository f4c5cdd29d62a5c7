/** Machine words, optional values and small arithmetic. */
module Words {

  datatype Option<+T> = None | Some(value: T)

  type u8 = x: int | 0 <= x < 256

  type u32 = x: int | 0 <= x < 0x1_0000_0000

  function Min(a: int, b: int): int {
    if a < b then a else b
  }

  /** Two bytes in network order. */
  function Word(high: nat, low: nat): nat {
    high * 256 + low
  }
}
