/** Signed 64-bit arithmetic. */
module Int64 {
  const MAX64 := 0x7fff_ffff_ffff_ffff

  function Wrap64(n: int): (r: int)
    ensures -MAX64 - 1 <= r <= MAX64
    ensures -MAX64 - 1 <= n <= MAX64 ==> r == n
  {
    var m := n % 0x1_0000_0000_0000_0000;
    if m > MAX64 then m - 0x1_0000_0000_0000_0000 else m
  }
}
