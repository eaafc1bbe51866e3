/** Small arithmetic that several modules share. */
module Numbers {

  function Max(a: int, b: int): int { if a > b then a else b }

  /** 1 if it holds. */
  function Bit(b: bool): int { if b then 1 else 0 }

  function MinReal(a: real, b: real): real { if a < b then a else b }

  function MaxReal(a: real, b: real): real { if a > b then a else b }
}
