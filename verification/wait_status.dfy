/**
 The encoded exit status `sys__exit` stores. `_MKWAIT_EXIT(code)` follows
 OS/161's kern/wait.h (not part of this model): the code shifted left by two
 bits, or-ed with the "exited" tag 0, in a 32-bit C `int`.
 */
module WaitStatus {

  const INT32_MIN: int := -0x8000_0000
  const INT32_MAX: int := 0x7fff_ffff

  /** The "exited normally" tag in the low two bits (`__WEXITED`). */
  const WEXITED: int := 0

  /** Two's-complement truncation to a 32-bit `int`. */
  function Wrap32(x: int): (r: int)
    ensures INT32_MIN <= r <= INT32_MAX
    ensures (x - r) % 0x1_0000_0000 == 0
    ensures INT32_MIN <= x <= INT32_MAX ==> r == x
  {
    (x - INT32_MIN) % 0x1_0000_0000 + INT32_MIN
  }

  /** `_MKWAIT_EXIT(code)`: `(code << 2) | __WEXITED` on a 32-bit int. */
  function MkWaitExit(code: int): (s: int)
    ensures INT32_MIN <= s <= INT32_MAX
  {
    Wrap32(code * 4) + WEXITED
  }

  /** `_WWHAT(s)`: the tag in the low two bits (`s & 3`). */
  function WWhat(s: int): int
  {
    s % 4
  }

  /** `_WVAL(s)`: the payload (`s >> 2`, an arithmetic shift). */
  function WVal(s: int): int
  {
    s / 4
  }

  /** Every exit code that fits in the 30 payload bits is recovered from the
      encoded status, tagged as a normal exit. */
  lemma ExitStatusRoundTrip(code: int)
    ensures -0x2000_0000 <= code < 0x2000_0000 ==> WWhat(MkWaitExit(code)) == WEXITED
    ensures -0x2000_0000 <= code < 0x2000_0000 ==> WVal(MkWaitExit(code)) == code
  {
    if -0x2000_0000 <= code < 0x2000_0000 {
      assert MkWaitExit(code) == code * 4;
    }
  }
}
