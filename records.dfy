/** The records the handler caches and returns. */
module Records {
  import opened EthAddress
  import opened DecimalText

  /** A pool's fixed configuration; `fee` is the contract's raw fee tier. */
  datatype Pool = Pool(contractAddress: Address, tokenLeft: Address, tokenRight: Address, fee: int)

  /** An ERC-20 token's metadata. */
  datatype Token = Token(name: string, symbol: string, decimals: uint8, contractAddress: Address)

  /**
   * One day of a pool's analytics. `timestamp` is in epoch seconds; its RFC 3339
   * rendering and the checksummed rendering of the address belong to JSON output.
   */
  datatype PoolMetric = PoolMetric(
    timestamp: int,
    contractAddress: Address,
    totalValueLocked: Decimal,
    volume: Decimal,
    fee: Decimal,
    annualPercentageRate: string)
}
