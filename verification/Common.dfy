/** What several of the models share: parameters of param.h, and log_write's list of blocks. */
module Common {

  const LOGSIZE: nat := 30             // blocks in the on-disk log
  const MAXOPBLOCKS: nat := 10         // blocks any one operation may log
  const UINT: nat := 0x1_0000_0000     // one more than the largest unsigned integer

  datatype Option<T> = None | Some(value: T)

  /** Log absorption: a block already in the transaction is not listed again. */
  function Absorb(list: seq<int>, b: int): seq<int> {
    if b in list then list else list + [b]
  }

  lemma SubsetSize(a: set<nat>, b: set<nat>)
    requires a <= b
    ensures |a| <= |b|
  {
    assert b == a + (b - a);
  }
}
