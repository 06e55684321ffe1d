/** The atomic word of an `AsyncRevocable`: the number of guards in the low 31 bits and the revoked bit
    above them. */
module RevocableWord {

  import opened Words

  const REVOKED_BIT: nat := 0x8000_0000

  type U32 = x: nat | x < U32_SIZE

  /** `val & REVOKED_BIT != 0`: bit 31 is the top bit. */
  predicate IsRevoked(word: U32) {
    word >= REVOKED_BIT
  }

  /** The word after `fetch_or(REVOKED_BIT)`. */
  function OrRevoked(word: U32): U32 {
    if IsRevoked(word) then word else word + REVOKED_BIT
  }

  /** The word after adding one, wrapping. */
  function AddOne(word: U32): U32 {
    if word == U32_SIZE - 1 then 0 else word + 1
  }

  /** The word after `fetch_sub(1)`, wrapping. */
  function SubOne(word: U32): U32 {
    if word == 0 then U32_SIZE - 1 else word - 1
  }

  /** A guard count plus the revoked bit. */
  function Word(guards: nat, revoked: bool): nat {
    guards + if revoked then REVOKED_BIT else 0
  }
}
