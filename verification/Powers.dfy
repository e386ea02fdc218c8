/** Powers of ten. */
module Powers {
  function Power10(n: nat): nat {
    if n == 0 then 1 else 10 * Power10(n - 1)
  }
}
