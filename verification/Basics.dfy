/** What several of the other modules need. */
module Basics {

  datatype Option<T> = None | Some(value: T)

  function One(b: bool): nat {
    if b then 1 else 0
  }

  /** The values of an int. */
  const INT_MIN := -0x8000_0000
  const INT_MAX := 0x7fff_ffff

  predicate IsInt(n: int) {
    INT_MIN <= n <= INT_MAX
  }

  type Int = n: int | INT_MIN <= n <= INT_MAX

  /** A value stored in a 32-bit int. */
  function ToInt(n: int): Int
  {
    var m := n % 0x1_0000_0000;
    if m <= INT_MAX then m else m - 0x1_0000_0000
  }

  /** It is the value itself or apart from it by a multiple of the range. */
  lemma ToIntExactly(n: int)
    ensures (ToInt(n) - n) % 0x1_0000_0000 == 0
    ensures IsInt(n) <==> ToInt(n) == n
  {
    assert n == (n / 0x1_0000_0000) * 0x1_0000_0000 + n % 0x1_0000_0000;
  }

  /** The sign of a difference of two ints survives if and only if the
      difference is an int itself. */
  lemma DifferenceSign(a: Int, b: Int)
    ensures ToInt(a - b) == 0 <==> a == b
    ensures a != b ==> ((ToInt(a - b) < 0 <==> a < b) <==> IsInt(a - b))
  {
    var d := a - b;
    assert d % 0x1_0000_0000 == if d >= 0 then d else d + 0x1_0000_0000;
  }
}
