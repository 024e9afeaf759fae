/** Values shared by every part of the model: integer widths, addresses, pool records. */
module Types {
  newtype uint8 = x: int | 0 <= x < 0x100
  newtype uint16 = x: int | 0 <= x < 0x1_0000
  newtype uint64 = x: int | 0 <= x < 0x1_0000_0000_0000_0000

  /** A 20-byte account address, read as an unsigned number. */
  newtype Address = x: int | 0 <= x < 0x1_0000000000_0000000000_0000000000_0000000000

  datatype Option<+T> = None | Some(value: T)

  /** One pool as a value: what a `PoolView` says once its reserve pointers are read. */
  datatype Pool = Pool(id: uint64, token0: uint64, token1: uint64,
                       reserve0: int, reserve1: int, poolType: uint8, fee: uint16)
  {
    /** The same pool with other reserves. */
    function WithReserves(r0: int, r1: int): Pool {
      this.(reserve0 := r0, reserve1 := r1)
    }
  }

  /** Two records that differ at most in their reserves. */
  predicate SameStatics(p: Pool, q: Pool) {
    && p.id == q.id && p.token0 == q.token0 && p.token1 == q.token1
    && p.poolType == q.poolType && p.fee == q.fee
  }
}
