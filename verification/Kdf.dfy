/** Argon2id parameters and their hard bounds (kdf.py). */
module Kdf {
  import opened Basics

  const KEY_LENGTH := 32
  const SALT_LENGTH := 16

  const MIN_MEMORY_KIB := 19_456
  const MAX_MEMORY_KIB := 1_048_576
  const MIN_TIME_COST := 1
  const MAX_TIME_COST := 16
  const MIN_PARALLELISM := 1
  const MAX_PARALLELISM := 8

  datatype Argon2Parameters = Argon2Parameters(memoryKib: int, timeCost: int, parallelism: int) {
    predicate InRange() {
      && MIN_MEMORY_KIB <= memoryKib <= MAX_MEMORY_KIB
      && MIN_TIME_COST <= timeCost <= MAX_TIME_COST
      && MIN_PARALLELISM <= parallelism <= MAX_PARALLELISM
    }
  }

  const DEFAULT_PARAMETERS := Argon2Parameters(65_536, 3, 4)

  /** Argon2id itself: any function from password, salt and costs to a key. */
  type Argon2id = (Bytes, Bytes, Argon2Parameters) -> Bytes

  function DeriveKey(argon2id: Argon2id, password: Bytes, salt: Bytes, params: Argon2Parameters): (r: Result<Bytes>)
    ensures params.InRange() <==>
            && 19_456 <= params.memoryKib <= 1_048_576 && 1 <= params.timeCost <= 16 && 1 <= params.parallelism <= 8
    ensures r.Ok? <==> params.InRange() && |salt| == 16
    ensures r.Err? ==> r.error == FormatError
  {
    if !params.InRange() then Err(FormatError)
    else if |salt| != SALT_LENGTH then Err(FormatError)
    else Ok(argon2id(password, salt, params))
  }
}
