/** Fixed-width machine words, and the small result type used across the model. */
module Words {
  const MOD16 := 0x1_0000
  const MOD32 := 0x1_0000_0000
  const MOD64 := 0x1_0000_0000_0000_0000

  type U8 = n: int | 0 <= n < 256
  type U16 = n: int | 0 <= n < MOD16
  type U32 = n: int | 0 <= n < MOD32
  type U64 = n: int | 0 <= n < MOD64

  datatype Option<+T> = None | Some(value: T)

  /** Unsigned addition, wrapping around as C and Go do. */
  function Add64(a: U64, b: U64): U64 {
    if a + b < MOD64 then a + b else a + b - MOD64
  }

  function Add32(a: U32, b: U32): U32 {
    if a + b < MOD32 then a + b else a + b - MOD32
  }

  /** A wrapping counter holds the true count modulo 2^64. */
  lemma AddIsMod(t: nat, b: U64)
    ensures Add64(t % MOD64, b) == (t + b) % MOD64
  {
  }

  lemma AddModMod(a: nat, b: nat)
    ensures Add64(a % MOD64, b % MOD64) == (a + b) % MOD64
  {
  }
}
