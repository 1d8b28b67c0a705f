/** Fixed-width machine integers and small helpers shared by the component models. */
module Machine {

  type Byte = x: int | 0 <= x < 256

  type Bytes = seq<Byte>

  const NUL: Byte := 0

  const TWO32 := 0x1_0000_0000

  type Word = x: int | 0 <= x < TWO32

  datatype Option<+T> = None | Some(value: T)

  /** Unsigned 32-bit arithmetic wraps. */
  function Wrap32(x: int): Word {
    x % TWO32
  }

  function Min(a: int, b: int): int {
    if a <= b then a else b
  }

  function Max(a: int, b: int): int {
    if a <= b then b else a
  }

  function Abs(a: int): nat {
    if a < 0 then -a else a
  }

  /** n copies of x. */
  function Repeat<T>(x: T, n: nat): (s: seq<T>)
    ensures |s| == n && forall i :: 0 <= i < n ==> s[i] == x
  {
    seq(n, _ => x)
  }

  /** The C string at the start of s: the bytes before the first NUL, or all of them. */
  function CString(s: Bytes): (r: Bytes)
    ensures |r| <= |s| && r == s[..|r|] && NUL !in r
    ensures |r| < |s| ==> s[|r|] == NUL
  {
    if s == [] || s[0] == NUL then [] else [s[0]] + CString(s[1..])
  }
}
