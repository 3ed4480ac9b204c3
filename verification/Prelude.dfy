// Wrapper types and the machine integers of the control plane.
module Prelude {
  datatype Option<+T> = None | Some(value: T)

  datatype Result<+T, +E> = Ok(value: T) | Err(error: E)

  const U32_LIMIT := 0x1_0000_0000
  const U64_LIMIT := 0x1_0000_0000_0000_0000

  type u32 = x: int | 0 <= x < 0x1_0000_0000
  type u64 = x: int | 0 <= x < 0x1_0000_0000_0000_0000

  function Min(a: int, b: int): int {
    if a <= b then a else b
  }

  function Max(a: int, b: int): int {
    if a >= b then a else b
  }

  function SaturatingAdd(a: u32, b: u32): u32 {
    Min(a + b, U32_LIMIT - 1)
  }

  function SaturatingSub(a: u32, b: u32): u32 {
    Max(a - b, 0)
  }

  function SaturatingMul(a: u32, b: u32): u32 {
    assert a * b >= 0;
    Min(a * b, U32_LIMIT - 1)
  }

  function SaturatingAdd64(a: u64, b: u64): u64 {
    Min(a + b, U64_LIMIT - 1)
  }

  // The part of a map over some of its keys.
  ghost function Restrict<K, V>(m: map<K, V>, keys: set<K>): map<K, V>
    requires keys <= m.Keys
  {
    map k | k in keys :: m[k]
  }

  lemma RestrictGrows<K, V>(m: map<K, V>, keys: set<K>, k: K)
    requires keys <= m.Keys && k in m
    ensures Restrict(m, keys + {k}) == Restrict(m, keys)[k := m[k]]
  {
  }

  lemma RestrictAll<K, V>(m: map<K, V>)
    ensures Restrict(m, m.Keys) == m
  {
  }
}
