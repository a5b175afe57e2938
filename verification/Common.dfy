/** What several of the models share. */
module Common {
  /** The number of values of an unsigned 32-bit and of an unsigned 64-bit integer. */
  const U32: nat := 0x1_0000_0000
  const U64: nat := 0x1_0000_0000_0000_0000

  datatype Option<T> = None | Some(value: T)

  /** What a call returns: success or the kernel's error number. */
  datatype Errno = Ok | EINVAL | ENOMEM | EBUSY | EIO | ETIMEDOUT

  predicate Distinct(s: seq<nat>) {
    forall i, j :: 0 <= i < j < |s| ==> s[i] != s[j]
  }

  /** Less than two turns are at most one subtraction. */
  lemma {:induction false} ModOnce(x: nat, size: nat)
    requires 0 < size && x < 2 * size
    ensures x % size == if x < size then x else x - size
  {
    var q := x / size;
    assert x == q * size + x % size;
    assert q * size < 2 * size;
    assert q == 0 || q == 1;
  }
}
