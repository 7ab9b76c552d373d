/** Machine integers: the release build wraps on overflow, so every place where
    that can be observed applies one of these two functions explicitly. */
module MachineInt {

  const TWO63: int := 0x8000_0000_0000_0000
  const TWO64: int := 0x1_0000_0000_0000_0000

  function Min(a: nat, b: nat): nat { if a < b then a else b }

  predicate IsI64(x: int) { -TWO63 <= x < TWO63 }

  predicate IsU64(x: int) { 0 <= x < TWO64 }

  /** Unsigned 64-bit wrap-around. */
  function WrapU64(x: int): (r: int)
    ensures IsU64(r)
    ensures IsU64(x) ==> r == x
  {
    x % TWO64
  }

  /** Two's complement 64-bit wrap-around. */
  function WrapI64(x: int): (r: int)
    ensures IsI64(r)
    ensures IsI64(x) ==> r == x
    ensures TWO63 <= x < TWO63 + TWO64 ==> r == x - TWO64
    ensures -TWO63 - TWO64 <= x < -TWO63 ==> r == x + TWO64
  {
    var m := x % TWO64;
    if m < TWO63 then m else m - TWO64
  }

  /** Wrapping at every step or once at the end is the same. */
  lemma WrapAdd(a: int, b: int)
    ensures WrapU64(WrapU64(a) + b) == WrapU64(a + b)
  {
    var q := a / TWO64;
    assert a == TWO64 * q + WrapU64(a);
    assert a + b == TWO64 * q + (WrapU64(a) + b);
  }
}
