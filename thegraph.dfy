/**
 * The analytics reader: maps a network to its subgraph, builds the one
 * `poolDayDatas` query it sends, and hands the query to the indexing service.
 * Executing the query over HTTPS is an oracle parameter (`execute`).
 */
module TheGraph {
  import opened Wrappers
  import opened Errors
  import opened EthAddress
  import opened Network

  /** One row of the indexer's daily pool data; the three amounts arrive as decimal text. */
  datatype PoolDayData = PoolDayData(date: int, volume: string, totalValueLocked: string, fees: string)

  const Endpoint := "https://api.thegraph.com/subgraphs/name/"
  const EthereumSubgraph := "ianlapham/uniswap-v3-subgraph"
  const PolygonSubgraph := "ianlapham/uniswap-v3-polygon"

  /** The query as sent: endpoint URL, operation name and every argument and variable. */
  datatype PoolDayDataQuery = PoolDayDataQuery(
    url: string,
    operationName: string,
    first: nat,
    skip: nat,
    pool: string,          // the `address` variable
    startTime: int,        // the `date_gt` lower bound
    orderBy: string,
    orderDirection: string,
    subgraphError: string)

  /** The subgraph that indexes a network, when there is one. */
  function SubgraphName(network: string): Option<string> {
    if network == NetworkEthereum then Some(EthereumSubgraph)
    else if network == NetworkPolygon then Some(PolygonSubgraph)
    else None
  }

  /** The query for one pool, or the unsupported-network error when no subgraph is known. */
  function NewQuery(network: string, address: Address): (r: Result<PoolDayDataQuery, Error>)
    ensures r.Failure? <==> SubgraphName(network).None?
    ensures r.Failure? ==> r.error == UnsupportedNetwork
    ensures r.Success? ==> r.value.url == Endpoint + SubgraphName(network).value
  {
    match SubgraphName(network)
    case None => Failure(UnsupportedNetwork)
    case Some(name) =>
      Success(PoolDayDataQuery(
        url := Endpoint + name,
        operationName := "poolDayDatas",
        first := 1000,
        skip := 0,
        pool := AddressKey(address),
        startTime := 0,
        orderBy := "date",
        orderDirection := "desc",
        subgraphError := "allow"))
  }

  /**
   * `GetUniswapPoolDayDataList`: no query for an unknown network; otherwise exactly
   * the rows the indexer returns, in its order, or its error.
   */
  function GetUniswapPoolDayDataList(
    network: string, address: Address,
    execute: PoolDayDataQuery -> Result<seq<PoolDayData>, string>): (r: Result<seq<PoolDayData>, Error>)
    ensures SubgraphName(network).None? ==> r == Failure(UnsupportedNetwork)
    ensures SubgraphName(network).Some? ==>
      match execute(NewQuery(network, address).value)
      case Success(rows) => r == Success(rows)
      case Failure(message) => r == Failure(IndexerFailed(message))
  {
    match NewQuery(network, address)
    case Failure(e) => Failure(e)
    case Success(query) =>
      match execute(query)
      case Success(rows) => Success(rows)
      case Failure(message) => Failure(IndexerFailed(message))
  }

  /** Ethereum and Polygon map to their subgraphs; nothing else has one. */
  lemma SubgraphNames(network: string)
    ensures SubgraphName(network) == Some("ianlapham/uniswap-v3-subgraph") <==> network == "ethereum"
    ensures SubgraphName(network) == Some("ianlapham/uniswap-v3-polygon") <==> network == "polygon"
    ensures SubgraphName(network).Some? <==> network in {"ethereum", "polygon"}
  {
  }

  /**
   * The validator lets four networks through but only two have a subgraph:
   * Optimism and Arbitrum requests pass validation and are then refused here.
   */
  lemma ValidatedButUnindexed(network: string)
    ensures ValidateNetwork(network) && SubgraphName(network).None?
      <==> network == NetworkOptimism || network == NetworkArbitrum
  {
  }

  /** The query is fixed apart from the subgraph URL and the lower-cased address. */
  lemma QueryIsFixed(network: string, address: Address)
    requires SubgraphName(network).Some?
    ensures var q := NewQuery(network, address).value;
      && q.first == 1000 && q.skip == 0 && q.startTime == 0
      && q.orderBy == "date" && q.orderDirection == "desc" && q.subgraphError == "allow"
      && q.operationName == "poolDayDatas"
      && forall upper: seq<bool> :: q.pool == ToLower(Checksummed(address, upper))
  {
    forall upper: seq<bool> ensures NewQuery(network, address).value.pool == ToLower(Checksummed(address, upper)) {
      KeyIgnoresChecksumCase(address, upper);
    }
  }

  /** Two request addresses that differ only in letter case produce the same query. */
  lemma QueryIgnoresAddressCase(network: string, s: string, t: string)
    requires IsHexAddress(s) && IsHexAddress(t) && ToLower(s) == ToLower(t)
    ensures NewQuery(network, HexToAddress(s)) == NewQuery(network, HexToAddress(t))
  {
    HexToAddressIgnoresCase(s, t);
  }
}
