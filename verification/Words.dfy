/** Powers of 256: the numbers that fit into so many bytes. */
module Words {
  const U64_RANGE: nat := 0x1_0000_0000_0000_0000

  function Power256(k: nat): nat {
    if k == 0 then 1 else 256 * Power256(k - 1)
  }
}
