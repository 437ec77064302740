/** Types shared by the model's modules. */
module Base {
  datatype Option<+T> = None | Some(value: T)

  newtype byte = x: int | 0 <= x < 256

  /** A page number; pages 0 and 1 are the meta pages. */
  type Pgno = nat
  type Txnid = nat

  /** What one page holds. The protocol only moves page contents around. */
  type Content = seq<byte>

  const NUM_METAS: nat := 2
}
