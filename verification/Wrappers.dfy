/** What several of the models share. */
module Wrappers {
  type Word32 = x: nat | x < 0x1_0000_0000

  datatype Option<+T> = None | Some(value: T)

  predicate PowerOfTwo(n: nat) {
    n == 1 || (n != 0 && n % 2 == 0 && PowerOfTwo(n / 2))
  }
}
