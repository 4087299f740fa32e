/** Types shared by every component. */
module Common {
  datatype Option<+T> = None | Some(value: T)

  /** `uintptr_t` on a 64-bit platform: cache keys, remote addresses and pids. */
  type Key = k: int | 0 <= k < 0x1_0000_0000_0000_0000

  type Byte = b: int | 0 <= b < 256

  /** An `int` of 32 bits. */
  type CInt = x: int | -0x8000_0000 <= x < 0x8000_0000

  const TWO32 := 0x1_0000_0000

  /** Wrap-around of an `unsigned int`. */
  function U32(x: int): (r: nat)
    ensures r < TWO32
    ensures 0 <= x < TWO32 ==> r == x
  {
    x % TWO32
  }

  const TWO31 := 0x8000_0000

  /** What an `int` holds of a number. */
  function Int32(x: int): (r: CInt)
    ensures -TWO31 <= x < TWO31 <==> r == x
  {
    if U32(x) < TWO31 then U32(x) else U32(x) - TWO32
  }

  /** An `int` compared with a `size_t`. */
  function ToSize(x: int): int {
    if x < 0 then x + 0x1_0000_0000_0000_0000 else x
  }

  ghost predicate Distinct<T>(xs: seq<T>) {
    forall i, j :: 0 <= i < j < |xs| ==> xs[i] != xs[j]
  }
}
