/** Integer powers. */
module Arith {
  function Pow(b: nat, e: nat): nat { if e == 0 then 1 else b * Pow(b, e - 1) }
}
