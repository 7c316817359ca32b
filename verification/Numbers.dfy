/** Small integer helpers. */
module Numbers {
  function Min(a: int, b: int): int {
    if a < b then a else b
  }

  function Max(a: int, b: int): int {
    if a < b then b else a
  }

  function Max0(x: int): nat {
    if x < 0 then 0 else x
  }
}
